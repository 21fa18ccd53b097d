/** The workflow builder: every edit of the graph (add, move, connect, save, delete a node)
    builds a new document from the old one, and the node editor rewrites a node's form and
    its list of fields. */
module Editor {
  import opened Wrappers
  import opened Lists
  import opened Text
  import opened Types
  import opened Engine

  // ---------------------------------------------------------------------------------------
  // Adding and moving nodes

  /** The label a new node gets: its type name, first letter upper case, the rest lower case. */
  function DefaultLabel(t: NodeType): string {
    Capitalize(NodeTypeName(t))
  }

  /** Every type name is already written that way, so a new node is labelled with its type. */
  lemma DefaultLabelIsTypeName(t: NodeType)
    ensures DefaultLabel(t) == NodeTypeName(t)
  {
    CapitalizeFixed(NodeTypeName(t));
  }

  /** The node dropped from the palette; only a Task gets a form, an empty FILL one. */
  function PaletteNode(t: NodeType, id: string, x: int, y: int): Node {
    Node(id, t, DefaultLabel(t), None, x, y, None, if t == Task then Some(NodeForm(Fill, [])) else None)
  }

  function AddNode(w: Workflow, t: NodeType, id: string, x: int, y: int): (r: Workflow)
    ensures |r.nodes| == |w.nodes| + 1 && r.nodes[..|w.nodes|] == w.nodes && r.edges == w.edges
    ensures var n := r.nodes[|w.nodes|];
            n.id == id && n.nodeType == t && n.x == x && n.y == y && n.caption == NodeTypeName(t) &&
            n.assigneeId.None? && n.description.None? &&
            (t == Task <==> n.form == Some(NodeForm(Fill, []))) && (t != Task <==> n.form.None?)
  {
    DefaultLabelIsTypeName(t);
    Workflow(w.nodes + [PaletteNode(t, id, x, y)], w.edges)
  }

  function MovedTo(id: string, x: int, y: int): Node -> Node {
    (n: Node) => if n.id == id then n.(x := x, y := y) else n
  }

  /** Puts every node with that id at `(x, y)`. */
  function MoveNode(w: Workflow, id: string, x: int, y: int): (r: Workflow)
    ensures |r.nodes| == |w.nodes| && r.edges == w.edges
    ensures forall i :: 0 <= i < |w.nodes| ==>
              r.nodes[i] == (if w.nodes[i].id == id then w.nodes[i].(x := x, y := y) else w.nodes[i])
  {
    Workflow(Map(w.nodes, MovedTo(id, x, y)), w.edges)
  }

  /** `onDrop`: a palette type adds a node, otherwise a non-empty dragged node id moves that
      node; with neither no change is issued. */
  function Drop(w: Workflow, droppedType: Option<NodeType>, draggedNodeId: string, newId: string, x: int, y: int): (r: Option<Workflow>)
    ensures droppedType.Some? ==> r == Some(AddNode(w, droppedType.value, newId, x, y))
    ensures droppedType.None? && draggedNodeId != "" ==> r == Some(MoveNode(w, draggedNodeId, x, y))
    ensures droppedType.None? && draggedNodeId == "" ==> r.None?
  {
    if droppedType.Some? then Some(AddNode(w, droppedType.value, newId, x, y))
    else if draggedNodeId != "" then Some(MoveNode(w, draggedNodeId, x, y))
    else None
  }

  /** Moving keeps every node id where it was, so distinct ids and resolving edges survive. */
  lemma MoveKeepsGraph(w: Workflow, id: string, x: int, y: int)
    ensures var r := MoveNode(w, id, x, y);
            (forall i :: 0 <= i < |w.nodes| ==> r.nodes[i].id == w.nodes[i].id && r.nodes[i].nodeType == w.nodes[i].nodeType) &&
            (NodeIdsDistinct(w) ==> NodeIdsDistinct(r)) &&
            (EdgesResolve(w) ==> EdgesResolve(r))
  {
    var r := MoveNode(w, id, x, y);
    forall s | IsNodeId(w, s) ensures IsNodeId(r, s) {
      var k :| 0 <= k < |w.nodes| && w.nodes[k].id == s;
      assert r.nodes[k].id == s;
    }
  }

  // ---------------------------------------------------------------------------------------
  // Connecting nodes

  /** Some edge already goes from `from` to `target`. */
  predicate Linked(w: Workflow, from: string, target: string) {
    exists i :: 0 <= i < |w.edges| && w.edges[i].source == from && w.edges[i].target == target
  }

  function EdgeIdFor(from: string, target: string, stamp: string): string {
    "edge-" + from + "-" + target + "-" + stamp
  }

  /** `handleConnectEnd`: ending a connection started at `connectingFrom` on `target` appends
      one edge, unless no connection was started, the target is the start itself, or the
      ordered pair is already linked; those issue no change. */
  function Connect(w: Workflow, connectingFrom: Option<string>, target: string, stamp: string): (r: Option<Workflow>)
    ensures r.None? <==> !Truthy(connectingFrom) || connectingFrom.value == target || Linked(w, connectingFrom.value, target)
    ensures r.Some? ==>
              (r.value.nodes == w.nodes &&
               r.value.edges == w.edges + [Edge(EdgeIdFor(connectingFrom.value, target, stamp), connectingFrom.value, target, None)])
  {
    if Truthy(connectingFrom) && connectingFrom.value != target && !Linked(w, connectingFrom.value, target) then
      var from := connectingFrom.value;
      Some(Workflow(w.nodes, w.edges + [Edge(EdgeIdFor(from, target, stamp), from, target, None)]))
    else None
  }

  function IsPair(from: string, target: string): Edge -> bool {
    (e: Edge) => e.source == from && e.target == target
  }

  /** The edges from `from` to `target`. */
  function EdgesBetween(w: Workflow, from: string, target: string): seq<Edge> {
    Filter(w.edges, IsPair(from, target))
  }

  /** No ordered pair of nodes is linked twice. */
  predicate NoDuplicatePairs(w: Workflow) {
    forall i, j :: 0 <= i < j < |w.edges| ==>
      !(w.edges[i].source == w.edges[j].source && w.edges[i].target == w.edges[j].target)
  }

  predicate NoSelfLoops(w: Workflow) {
    forall i :: 0 <= i < |w.edges| ==> w.edges[i].source != w.edges[i].target
  }

  /** Connecting twice yields one edge: after a connection is made there is exactly one edge
      for the pair, and a second attempt issues no change. */
  lemma ConnectTwice(w: Workflow, from: string, target: string, s1: string, s2: string)
    requires Connect(w, Some(from), target, s1).Some?
    ensures var w1 := Connect(w, Some(from), target, s1).value;
            |EdgesBetween(w1, from, target)| == 1 && Connect(w1, Some(from), target, s2).None?
  {
    var w1 := Connect(w, Some(from), target, s1).value;
    var e := Edge(EdgeIdFor(from, target, s1), from, target, None);
    FilterAppend(w.edges, [e], IsPair(from, target));
    FilterNone(w.edges, IsPair(from, target));
    assert [e][1..] == [];
    assert Filter([e], IsPair(from, target)) == [e];
    assert w1.edges[|w.edges|] == e;
    assert Linked(w1, from, target);
  }

  /** Connecting keeps each ordered pair linked at most once and never adds a self-loop. */
  lemma ConnectKeepsSimple(w: Workflow, from: Option<string>, target: string, stamp: string)
    requires Connect(w, from, target, stamp).Some?
    ensures NoDuplicatePairs(w) ==> NoDuplicatePairs(Connect(w, from, target, stamp).value)
    ensures NoSelfLoops(w) ==> NoSelfLoops(Connect(w, from, target, stamp).value)
  {
  }

  /** An edge between two existing nodes keeps every edge resolvable. */
  lemma ConnectKeepsResolved(w: Workflow, from: string, target: string, stamp: string)
    requires EdgesResolve(w) && IsNodeId(w, from) && IsNodeId(w, target)
    requires Connect(w, Some(from), target, stamp).Some?
    ensures EdgesResolve(Connect(w, Some(from), target, stamp).value)
  {
  }

  /** A target id that names no node is not refused: the edge is added and dangles. */
  lemma ConnectUnknownTarget(w: Workflow, from: string, target: string, stamp: string)
    requires from != "" && from != target && !IsNodeId(w, target) && !Linked(w, from, target)
    ensures Connect(w, Some(from), target, stamp).Some?
    ensures !EdgesResolve(Connect(w, Some(from), target, stamp).value)
  {
    var r := Connect(w, Some(from), target, stamp).value;
    assert r.edges[|w.edges|] in r.edges;
  }

  // ---------------------------------------------------------------------------------------
  // Saving and deleting nodes

  /** `handleSaveNode`: the node with the saved node's id is replaced by it. */
  function SaveNode(w: Workflow, updated: Node): (r: Workflow)
    ensures |r.nodes| == |w.nodes| && r.edges == w.edges
    ensures forall i :: 0 <= i < |w.nodes| ==>
              r.nodes[i] == (if w.nodes[i].id == updated.id then updated else w.nodes[i])
  {
    Workflow(ReplaceWhere(w.nodes, NodeWithId(updated.id), updated), w.edges)
  }

  /** `NodeEditModal.handleSubmit`: the node with the label, assignee and form from the dialog. */
  function EditedNode(n: Node, caption: string, assigneeId: Option<string>, form: Option<NodeForm>): (r: Node)
    ensures r.id == n.id && r.nodeType == n.nodeType && r.x == n.x && r.y == n.y && r.description == n.description
    ensures r.caption == caption && r.assigneeId == assigneeId && r.form == form
  {
    n.(caption := caption, assigneeId := assigneeId, form := form)
  }

  /** Saving keeps every node id, so distinct ids and resolving edges survive. */
  lemma SaveKeepsGraph(w: Workflow, updated: Node)
    ensures forall i :: 0 <= i < |w.nodes| ==> SaveNode(w, updated).nodes[i].id == w.nodes[i].id
    ensures NodeIdsDistinct(w) ==> NodeIdsDistinct(SaveNode(w, updated))
    ensures EdgesResolve(w) ==> EdgesResolve(SaveNode(w, updated))
  {
    var r := SaveNode(w, updated);
    forall s | IsNodeId(w, s) ensures IsNodeId(r, s) {
      var k :| 0 <= k < |w.nodes| && w.nodes[k].id == s;
      assert r.nodes[k].id == s;
    }
  }

  function NotNode(id: string): Node -> bool { (n: Node) => n.id != id }
  function NotTouching(id: string): Edge -> bool { (e: Edge) => e.source != id && e.target != id }

  /** `handleDeleteNode`: drops the node and every edge into or out of it. */
  function DeleteNode(w: Workflow, id: string): Workflow {
    Workflow(Filter(w.nodes, NotNode(id)), Filter(w.edges, NotTouching(id)))
  }

  /** After a delete no node has that id and no edge touches it. */
  lemma DeleteRemovesAll(w: Workflow, id: string)
    ensures !IsNodeId(DeleteNode(w, id), id)
    ensures forall e :: e in DeleteNode(w, id).edges ==> e.source != id && e.target != id
  {
    var r := DeleteNode(w, id);
    forall e | e in r.edges ensures e.source != id && e.target != id {
      var k :| 0 <= k < |r.edges| && r.edges[k] == e;
    }
  }

  /** Every other node and edge is kept, in its original order. */
  lemma DeleteKeepsRest(w: Workflow, id: string)
    ensures forall n :: n in w.nodes && n.id != id ==> n in DeleteNode(w, id).nodes
    ensures forall e :: e in w.edges && e.source != id && e.target != id ==> e in DeleteNode(w, id).edges
    ensures IsSubsequence(DeleteNode(w, id).nodes, w.nodes) && IsSubsequence(DeleteNode(w, id).edges, w.edges)
  {
    var r := DeleteNode(w, id);
    FilterIsSubsequence(w.nodes, NotNode(id));
    FilterIsSubsequence(w.edges, NotTouching(id));
    forall n | n in w.nodes && n.id != id ensures n in r.nodes {
      var k :| 0 <= k < |w.nodes| && w.nodes[k] == n;
    }
    forall e | e in w.edges && e.source != id && e.target != id ensures e in r.edges {
      var k :| 0 <= k < |w.edges| && w.edges[k] == e;
    }
  }

  /** Deleting leaves no dangling edge behind. */
  lemma DeleteKeepsResolved(w: Workflow, id: string)
    requires EdgesResolve(w)
    ensures EdgesResolve(DeleteNode(w, id))
  {
    var r := DeleteNode(w, id);
    DeleteRemovesAll(w, id);
    forall e | e in r.edges ensures IsNodeId(r, e.source) && IsNodeId(r, e.target) {
      var k :| 0 <= k < |r.edges| && r.edges[k] == e;
      assert e in w.edges;
      KeptNodeId(w, id, e.source);
      KeptNodeId(w, id, e.target);
    }
  }

  /** A node id other than the deleted one still names a node after the delete. */
  lemma KeptNodeId(w: Workflow, id: string, s: string)
    requires IsNodeId(w, s) && s != id
    ensures IsNodeId(DeleteNode(w, id), s)
  {
    var k :| 0 <= k < |w.nodes| && w.nodes[k].id == s;
    var ns := DeleteNode(w, id).nodes;
    assert w.nodes[k] in ns;
    var j :| 0 <= j < |ns| && ns[j] == w.nodes[k];
  }

  // ---------------------------------------------------------------------------------------
  // Forms and fields

  function NotReadonly(f: FormField): bool {
    f.fieldType != ReadonlyText
  }

  /** `allWorkflowFields`: every field of every node except read-only ones, the candidates a
      read-only field may take its value from. */
  function AllWorkflowFields(w: Workflow): (r: seq<FormField>)
    ensures forall f :: f in r <==> f.fieldType != ReadonlyText && exists n :: n in w.nodes && f in FieldsOf(n)
  {
    var all := AllFields(w.nodes);
    var r := Filter(all, NotReadonly);
    assert forall f :: f in r ==> f in all by {
      forall f | f in r ensures f in all {
        var k :| 0 <= k < |r| && r[k] == f;
      }
    }
    assert forall f :: f in all && NotReadonly(f) ==> f in r by {
      forall f | f in all && NotReadonly(f) ensures f in r {
        var k :| 0 <= k < |all| && all[k] == f;
      }
    }
    r
  }

  /** `handleFormModeChange`: a node without a form keeps none; otherwise only the mode changes. */
  function FormModeChange(form: Option<NodeForm>, mode: FormMode): (r: Option<NodeForm>)
    ensures r.None? <==> form.None?
    ensures r.Some? ==> r.value.mode == mode && r.value.fields == form.value.fields
  {
    if form.None? then None else Some(form.value.(mode := mode))
  }

  /** `handleFormFieldChange`: a node without a form keeps none; otherwise only the fields change. */
  function FormFieldsChange(form: Option<NodeForm>, fields: seq<FormField>): (r: Option<NodeForm>)
    ensures r.None? <==> form.None?
    ensures r.Some? ==> r.value.fields == fields && r.value.mode == form.value.mode
  {
    if form.None? then None else Some(form.value.(fields := fields))
  }

  /** `handleAddField`: one non-required text field appended. */
  function AddField(fields: seq<FormField>, stamp: string): (r: seq<FormField>)
    ensures |r| == |fields| + 1 && r[..|fields|] == fields
    ensures r[|fields|] == FormField("field_" + stamp, "New Field", Text, false, None, None)
  {
    fields + [FormField("field_" + stamp, "New Field", Text, false, None, None)]
  }

  /** `handleDeleteField`: the field at `index` removed, an index outside the list removing nothing. */
  function DeleteField(fields: seq<FormField>, index: int): (r: seq<FormField>)
    ensures 0 <= index < |fields| ==>
              (|r| == |fields| - 1 &&
               (forall i :: 0 <= i < index ==> r[i] == fields[i]) &&
               (forall i :: index < i < |fields| ==> r[i - 1] == fields[i]))
    ensures !(0 <= index < |fields|) ==> r == fields
  {
    if 0 <= index < |fields| then fields[..index] + fields[index + 1..] else fields
  }

  /** The characters the field-id sanitiser keeps: ASCII letters of either case, digits, `-`, `_`. */
  function IsIdChar(c: char): bool {
    'a' <= c <= 'z' || 'A' <= c <= 'Z' || '0' <= c <= '9' || c == '-' || c == '_'
  }

  /** The typed id with every other character removed. */
  function SanitizeId(s: string): string {
    Filter(s, IsIdChar)
  }

  /** Sanitising keeps exactly the allowed characters, in order, and is idempotent. */
  lemma SanitizeIdSpec(s: string)
    ensures forall i :: 0 <= i < |SanitizeId(s)| ==> IsIdChar(SanitizeId(s)[i])
    ensures IsSubsequence(SanitizeId(s), s)
    ensures forall i :: 0 <= i < |s| && IsIdChar(s[i]) ==> s[i] in SanitizeId(s)
    ensures SanitizeId(SanitizeId(s)) == SanitizeId(s)
    ensures (forall i :: 0 <= i < |s| ==> IsIdChar(s[i])) ==> SanitizeId(s) == s
  {
    FilterIsSubsequence(s, IsIdChar);
    FilterAll(SanitizeId(s), IsIdChar);
    if forall i :: 0 <= i < |s| ==> IsIdChar(s[i]) {
      FilterAll(s, IsIdChar);
    }
  }

  /** One edit made in the field editor; `SetOptions` carries the comma-separated text. */
  datatype FieldEdit =
    | SetId(id: string)
    | SetCaption(caption: string)
    | SetType(fieldType: FieldType)
    | SetOptions(text: string)
    | SetSourceFieldId(source: string)
    | SetRequired(required: bool)

  /** The field after an edit; an id edit stores the sanitised id. */
  function ApplyEdit(f: FormField, edit: FieldEdit): FormField {
    match edit
    case SetId(id) => f.(id := SanitizeId(id))
    case SetCaption(c) => f.(caption := c)
    case SetType(t) => f.(fieldType := t)
    case SetOptions(text) => f.(options := Some(Split(text, ',')))
    case SetSourceFieldId(s) => f.(sourceFieldId := Some(s))
    case SetRequired(b) => f.(required := b)
  }

  /** Some field other than the one at `index` already has id `id`. */
  predicate IdTakenElsewhere(fields: seq<FormField>, index: int, id: string) {
    exists i :: 0 <= i < |fields| && i != index && fields[i].id == id
  }

  /** The field list after an edit at `index`, or `None` when an id edit is refused because
      another field of the same list already has the sanitised id. */
  function EditedFields(fields: seq<FormField>, index: int, edit: FieldEdit): Option<seq<FormField>>
    requires 0 <= index < |fields|
  {
    if edit.SetId? && IdTakenElsewhere(fields, index, SanitizeId(edit.id)) then None
    else Some(fields[index := ApplyEdit(fields[index], edit)])
  }

  /** `handleFieldChange`: copies the list into a fresh array, checks the other fields for the
      new id, and writes the edited field in place. */
  method FieldChange(fields: seq<FormField>, index: int, edit: FieldEdit) returns (r: Option<seq<FormField>>)
    requires 0 <= index < |fields|
    ensures r == EditedFields(fields, index, edit)
  {
    var newFields := new FormField[|fields|](i requires 0 <= i < |fields| => fields[i]);
    if edit.SetId? {
      var newId := SanitizeId(edit.id);
      var i := 0;
      while i < newFields.Length
        invariant 0 <= i <= newFields.Length
        invariant newFields[..] == fields
        invariant forall j :: 0 <= j < i && j != index ==> fields[j].id != newId
      {
        if i != index && newFields[i].id == newId {
          assert fields[i].id == newId;
          return None;
        }
        i := i + 1;
      }
    }
    assert !(edit.SetId? && IdTakenElsewhere(fields, index, SanitizeId(edit.id)));
    newFields[index] := ApplyEdit(newFields[index], edit);
    assert newFields[..] == fields[index := ApplyEdit(fields[index], edit)];
    r := Some(newFields[..]);
  }

  /** An accepted edit changes only the field at `index`, and there only the attribute it
      names, which takes the edit's value (the sanitised id for an id edit, the comma-split
      text for the options); a refused one names an id another field already has. */
  lemma EditedFieldsSpec(fields: seq<FormField>, index: int, edit: FieldEdit)
    requires 0 <= index < |fields|
    ensures var r := EditedFields(fields, index, edit);
            (r.None? <==> edit.SetId? && exists i :: 0 <= i < |fields| && i != index && fields[i].id == SanitizeId(edit.id)) &&
            (r.Some? ==>
               (|r.value| == |fields| &&
                (forall i :: 0 <= i < |fields| && i != index ==> r.value[i] == fields[i]) &&
                (edit.SetId? ==> r.value[index].id == SanitizeId(edit.id)) &&
                (!edit.SetId? ==> r.value[index].id == fields[index].id)))
    ensures var r := EditedFields(fields, index, edit);
            r.Some? ==>
              var f := fields[index];
              var g := r.value[index];
              (edit.SetId? ==> g == f.(id := SanitizeId(edit.id))) &&
              (edit.SetCaption? ==> g == f.(caption := edit.caption)) &&
              (edit.SetType? ==> g == f.(fieldType := edit.fieldType)) &&
              (edit.SetOptions? ==> g == f.(options := Some(Split(edit.text, ',')))) &&
              (edit.SetSourceFieldId? ==> g == f.(sourceFieldId := Some(edit.source))) &&
              (edit.SetRequired? ==> g == f.(required := edit.required))
  {
  }

  /** Within one node's list, an accepted edit never produces two fields with the same id. */
  lemma EditKeepsDistinctIds(fields: seq<FormField>, index: int, edit: FieldEdit)
    requires 0 <= index < |fields| && DistinctFieldIds(fields)
    requires EditedFields(fields, index, edit).Some?
    ensures DistinctFieldIds(EditedFields(fields, index, edit).value)
  {
  }

  /** The id check only looks at the list being edited: an id that another node's form
      already uses is accepted, and the workflow then has two fields with that id. */
  lemma PerNodeUniquenessOnly()
    ensures var a := FormField("a", "A", Text, false, None, None);
            var b := FormField("b", "B", Text, false, None, None);
            var before := Workflow([Node("n1", Task, "", None, 0, 0, None, Some(NodeForm(Fill, [a]))),
                                   Node("n2", Task, "", None, 0, 0, None, Some(NodeForm(Fill, [b])))], []);
            var edited := EditedFields([b], 0, SetId("a"));
            FieldIdsUnique(before) && edited.Some? &&
            !FieldIdsUnique(SaveNode(before, before.nodes[1].(form := Some(NodeForm(Fill, edited.value)))))
  {
    var a := FormField("a", "A", Text, false, None, None);
    var b := FormField("b", "B", Text, false, None, None);
    assert SanitizeId("a") == "a" by {
      assert "a"[1..] == [];
    }
    var n1 := Node("n1", Task, "", None, 0, 0, None, Some(NodeForm(Fill, [a])));
    var n2 := Node("n2", Task, "", None, 0, 0, None, Some(NodeForm(Fill, [b])));
    var n3 := n2.(form := Some(NodeForm(Fill, [b.(id := "a")])));
    var before := Workflow([n1, n2], []);
    assert !IdTakenElsewhere([b], 0, "a");
    assert ApplyEdit(b, SetId("a")) == b.(id := "a");
    assert [b][0 := b.(id := "a")] == [b.(id := "a")];
    assert EditedFields([b], 0, SetId("a")) == Some([b.(id := "a")]);
    assert n3 == before.nodes[1].(form := Some(NodeForm(Fill, [b.(id := "a")])));
    assert AllFields([n2]) == [b] by {
      assert [n2][1..] == [];
    }
    assert AllFields([n1, n2]) == [a, b] by {
      assert [n1, n2][1..] == [n2];
    }
    assert FieldIdsUnique(before);
    assert SaveNode(before, n3).nodes == [n1, n3];
    assert AllFields([n3]) == [b.(id := "a")] by {
      assert [n3][1..] == [];
    }
    assert AllFields([n1, n3]) == [a, b.(id := "a")] by {
      assert [n1, n3][1..] == [n3];
    }
    assert AllFields([n1, n3])[0].id == AllFields([n1, n3])[1].id;
    assert SaveNode(before, n3) == Workflow([n1, n3], []);
  }
}
