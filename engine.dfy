/** The case progression engine of a case-management app: completing a step moves a case
    along an outgoing edge of the workflow graph, a manual override sets the step directly,
    the board's columns are derived from the graph, and new cases start at its Start node. */
module Engine {
  import opened Wrappers
  import opened Lists
  import opened Sorting
  import opened Types

  // ---------------------------------------------------------------------------------------
  // Lookups (`find` / `filter` by id)

  function CaseWithId(id: string): Case -> bool { (c: Case) => c.id == id }
  function NodeWithId(id: string): Node -> bool { (n: Node) => n.id == id }
  function UserWithId(id: string): User -> bool { (u: User) => u.id == id }
  function EdgeFrom(from: string): Edge -> bool { (e: Edge) => e.source == from }

  /** The first case with that id, if any. */
  function CaseById(cases: seq<Case>, id: string): (r: Option<Case>)
    ensures r.None? <==> forall i :: 0 <= i < |cases| ==> cases[i].id != id
    ensures r.Some? ==> exists i :: 0 <= i < |cases| && cases[i] == r.value && r.value.id == id &&
                          forall j :: 0 <= j < i ==> cases[j].id != id
  {
    Find(cases, CaseWithId(id))
  }

  /** The first node with that id, if any. */
  function NodeById(w: Workflow, id: string): (r: Option<Node>)
    ensures r.None? <==> !IsNodeId(w, id)
    ensures r.Some? ==> exists i :: 0 <= i < |w.nodes| && w.nodes[i] == r.value && r.value.id == id &&
                          forall j :: 0 <= j < i ==> w.nodes[j].id != id
  {
    Find(w.nodes, NodeWithId(id))
  }

  /** The first user with that id, if any. */
  function UserById(users: seq<User>, id: string): (r: Option<User>)
    ensures r.None? <==> forall i :: 0 <= i < |users| ==> users[i].id != id
    ensures r.Some? ==> exists i :: 0 <= i < |users| && users[i] == r.value && r.value.id == id &&
                          forall j :: 0 <= j < i ==> users[j].id != id
  {
    Find(users, UserWithId(id))
  }

  /** With pairwise distinct node ids, the lookup finds the node wherever it sits. */
  lemma NodeByIdDistinct(w: Workflow, i: int)
    requires NodeIdsDistinct(w) && 0 <= i < |w.nodes|
    ensures NodeById(w, w.nodes[i].id) == Some(w.nodes[i])
  {
  }

  /** The edges leaving `from`, in the order the workflow lists them. */
  function OutgoingEdges(w: Workflow, from: string): (r: seq<Edge>)
    ensures forall e :: e in r <==> e in w.edges && e.source == from
    ensures IsSubsequence(r, w.edges)
  {
    FilterIsSubsequence(w.edges, EdgeFrom(from));
    Filter(w.edges, EdgeFrom(from))
  }

  /** Every copy of an edge leaving `from` is kept, and no other edge. */
  lemma OutgoingEdgesCount(w: Workflow, from: string, e: Edge)
    ensures multiset(OutgoingEdges(w, from))[e] ==
            if e.source == from then multiset(w.edges)[e] else 0
  {
    FilterCount(w.edges, EdgeFrom(from), e);
  }

  /** `edges.some(e => e.target === t)`. */
  predicate HasTarget(edges: seq<Edge>, t: string) {
    exists i :: 0 <= i < |edges| && edges[i].target == t
  }

  /** Some edge leaving `from` ends at `t` exactly when some edge of the workflow goes from
      `from` to `t`. */
  lemma OutgoingTargets(w: Workflow, from: string, t: string)
    ensures HasTarget(OutgoingEdges(w, from), t) <==> exists e :: e in w.edges && e.source == from && e.target == t
  {
    var out := OutgoingEdges(w, from);
    if exists e :: e in w.edges && e.source == from && e.target == t {
      var e :| e in w.edges && e.source == from && e.target == t;
      assert e in out;
    }
    if HasTarget(out, t) {
      var k :| 0 <= k < |out| && out[k].target == t;
      assert out[k] in w.edges;
    }
  }

  // ---------------------------------------------------------------------------------------
  // Completing a step

  /** The step a completion moves to, or `None` when the chosen id is empty: the only edge
      when there is one; with several, the chosen id if it is some edge's target, and
      otherwise the first edge. */
  function NextStep(out: seq<Edge>, chosen: Option<string>): (r: Option<string>)
    requires |out| > 0
    ensures r.Some? ==> r.value != "" && HasTarget(out, r.value)
    ensures |out| == 1 ==> r == (if out[0].target == "" then None else Some(out[0].target))
    ensures |out| > 1 && Truthy(chosen) && HasTarget(out, chosen.value) ==> r == chosen
    ensures |out| > 1 && !(Truthy(chosen) && HasTarget(out, chosen.value)) ==>
              r == (if out[0].target == "" then None else Some(out[0].target))
  {
    var t := if |out| > 1 && Truthy(chosen) && HasTarget(out, chosen.value) then chosen.value
             else out[0].target;
    if t == "" then None else Some(t)
  }

  /** The assignee after moving to `target`: the user the node names, when the node names one
      and that user exists, and otherwise the case's current assignee. */
  function RoutedAssignee(current: User, target: Option<Node>, users: seq<User>): (r: User)
    ensures r == current || r in users
    ensures target.Some? && Truthy(target.value.assigneeId) && UserById(users, target.value.assigneeId.value).Some? ==>
              r == UserById(users, target.value.assigneeId.value).value && r.id == target.value.assigneeId.value
    ensures !(target.Some? && Truthy(target.value.assigneeId) && UserById(users, target.value.assigneeId.value).Some?) ==>
              r == current
  {
    if target.Some? && Truthy(target.value.assigneeId) then
      UserById(users, target.value.assigneeId.value).GetOr(current)
    else current
  }

  /** The case `c` after leaving `from` for `next`, done by `actorId` at `now`. */
  function Moved(c: Case, w: Workflow, users: seq<User>, actorId: string, from: string, next: string, now: string): Case {
    var target := NodeById(w, next);
    c.(currentWorkflowStepId := Some(next),
       workflowHistory := c.workflowHistory + [WorkflowEvent(from, actorId, now)],
       status := if target.Some? && target.value.nodeType == End then Closed else c.status,
       assignee := RoutedAssignee(c.assignee, target, users))
  }

  /** The update a completion issues, or `None` when it issues none: the case is unknown,
      the step has no outgoing edge, or the resolved step id is empty. */
  function Advance(w: Workflow, cases: seq<Case>, users: seq<User>, actorId: string, caseId: string,
                   from: string, chosen: Option<string>, now: string): Option<Case>
  {
    var original := CaseById(cases, caseId);
    var out := OutgoingEdges(w, from);
    if original.None? || out == [] then None
    else
      var next := NextStep(out, chosen);
      if next.None? then None
      else Some(Moved(original.value, w, users, actorId, from, next.value, now))
  }

  /** `handleCompleteWorkflowStep`: resolves the next step and the next assignee through
      reassigned locals and returns the update it hands to the case store. */
  method CompleteStep(w: Workflow, cases: seq<Case>, users: seq<User>, actorId: string, caseId: string,
                      fromStepId: string, chosenNextStepId: Option<string>, now: string)
    returns (update: Option<Case>)
    ensures update == Advance(w, cases, users, actorId, caseId, fromStepId, chosenNextStepId, now)
  {
    var originalCase := CaseById(cases, caseId);
    if originalCase.None? {
      return None;
    }
    var outgoingEdges := OutgoingEdges(w, fromStepId);
    if |outgoingEdges| == 0 {
      return None;
    }
    var nextStepId: Option<string> := None;
    if |outgoingEdges| == 1 {
      nextStepId := Some(outgoingEdges[0].target);
    } else if Truthy(chosenNextStepId) {
      if HasTarget(outgoingEdges, chosenNextStepId.value) {
        nextStepId := chosenNextStepId;
      }
    }
    if !Truthy(nextStepId) && |outgoingEdges| > 0 {
      nextStepId := Some(outgoingEdges[0].target);
    }
    assert Truthy(nextStepId) <==> NextStep(outgoingEdges, chosenNextStepId).Some?;
    if !Truthy(nextStepId) {
      return None;
    }
    assert nextStepId == NextStep(outgoingEdges, chosenNextStepId);
    var nextStep := NodeById(w, nextStepId.value);
    var entry := WorkflowEvent(fromStepId, actorId, now);
    var isClosing := nextStep.Some? && nextStep.value.nodeType == End;
    var nextAssignee := originalCase.value.assignee;
    if nextStep.Some? && Truthy(nextStep.value.assigneeId) {
      var foundUser := UserById(users, nextStep.value.assigneeId.value);
      if foundUser.Some? {
        nextAssignee := foundUser.value;
      }
    }
    update := Some(originalCase.value.(
      currentWorkflowStepId := nextStepId,
      workflowHistory := originalCase.value.workflowHistory + [entry],
      status := if isClosing then Closed else originalCase.value.status,
      assignee := nextAssignee));
  }

  /** No update is issued exactly when the case is unknown, no edge leaves the step, or the
      edge the rule picks has an empty target. */
  lemma AdvanceNone(w: Workflow, cases: seq<Case>, users: seq<User>, actorId: string, caseId: string,
                    from: string, chosen: Option<string>, now: string)
    ensures Advance(w, cases, users, actorId, caseId, from, chosen, now).None? <==>
              (forall i :: 0 <= i < |cases| ==> cases[i].id != caseId) ||
              (forall e :: e in w.edges ==> e.source != from) ||
              NextStep(OutgoingEdges(w, from), chosen).None?
  {
    var out := OutgoingEdges(w, from);
    if out != [] {
      assert out[0] in w.edges;
    }
  }

  /** A completion that issues an update moves the case to the target of one of the step's
      outgoing edges, appends exactly one history entry recording the step left, the actor and
      the time, and changes nothing but step, history, status and assignee. */
  lemma AdvanceMoves(w: Workflow, cases: seq<Case>, users: seq<User>, actorId: string, caseId: string,
                     from: string, chosen: Option<string>, now: string)
    requires Advance(w, cases, users, actorId, caseId, from, chosen, now).Some?
    ensures var u := Advance(w, cases, users, actorId, caseId, from, chosen, now).value;
            var c := CaseById(cases, caseId).value;
            c in cases && c.id == caseId &&
            u.currentWorkflowStepId.Some? && u.currentWorkflowStepId.value != "" &&
            (exists e :: e in w.edges && e.source == from && e.target == u.currentWorkflowStepId.value) &&
            u.workflowHistory == c.workflowHistory + [WorkflowEvent(from, actorId, now)] &&
            u == c.(currentWorkflowStepId := u.currentWorkflowStepId, workflowHistory := u.workflowHistory,
                    status := u.status, assignee := u.assignee)
  {
    var out := OutgoingEdges(w, from);
    var next := NextStep(out, chosen).value;
    var k :| 0 <= k < |out| && out[k].target == next;
    assert out[k] in w.edges;
  }

  /** The status becomes Closed when the node moved to is an End node, and is otherwise kept;
      the assignee becomes the user the node names when that user exists, and is otherwise kept. */
  lemma AdvanceStatusAndAssignee(w: Workflow, cases: seq<Case>, users: seq<User>, actorId: string, caseId: string,
                                 from: string, chosen: Option<string>, now: string)
    requires Advance(w, cases, users, actorId, caseId, from, chosen, now).Some?
    ensures var u := Advance(w, cases, users, actorId, caseId, from, chosen, now).value;
            var c := CaseById(cases, caseId).value;
            var target := NodeById(w, u.currentWorkflowStepId.value);
            (target.Some? && target.value.nodeType == End ==> u.status == Closed) &&
            (!(target.Some? && target.value.nodeType == End) ==> u.status == c.status) &&
            (target.Some? && Truthy(target.value.assigneeId) && UserById(users, target.value.assigneeId.value).Some? ==>
               u.assignee == UserById(users, target.value.assigneeId.value).value) &&
            (!(target.Some? && Truthy(target.value.assigneeId) && UserById(users, target.value.assigneeId.value).Some?) ==>
               u.assignee == c.assignee)
  {
  }

  /** With a single outgoing edge the choice passed in is ignored. */
  lemma SingleEdgeIgnoresChoice(w: Workflow, cases: seq<Case>, users: seq<User>, actorId: string, caseId: string,
                                from: string, chosen1: Option<string>, chosen2: Option<string>, now: string)
    requires |OutgoingEdges(w, from)| == 1
    ensures Advance(w, cases, users, actorId, caseId, from, chosen1, now) ==
            Advance(w, cases, users, actorId, caseId, from, chosen2, now)
  {
  }

  /** With several outgoing edges, a non-empty choice that is some edge's target is taken,
      and any other choice falls back to the first edge. */
  lemma ChoiceRule(w: Workflow, cases: seq<Case>, users: seq<User>, actorId: string, caseId: string,
                   from: string, chosen: Option<string>, now: string)
    requires |OutgoingEdges(w, from)| > 1 && CaseById(cases, caseId).Some?
    ensures var u := Advance(w, cases, users, actorId, caseId, from, chosen, now);
            var out := OutgoingEdges(w, from);
            (Truthy(chosen) && (exists e :: e in w.edges && e.source == from && e.target == chosen.value) ==>
               u.Some? && u.value.currentWorkflowStepId == chosen) &&
            (!(Truthy(chosen) && (exists e :: e in w.edges && e.source == from && e.target == chosen.value)) ==>
               u == (if out[0].target == "" then None else Some(Moved(CaseById(cases, caseId).value, w, users, actorId, from, out[0].target, now))))
  {
    OutgoingTargets(w, from, if chosen.Some? then chosen.value else "");
  }

  /** Two different targets of a branching step lead to two different updates, so every
      outgoing edge of an approval step is a separate decision. */
  lemma DistinctChoicesDiverge(w: Workflow, cases: seq<Case>, users: seq<User>, actorId: string, caseId: string,
                               from: string, t1: string, t2: string, now: string)
    requires |OutgoingEdges(w, from)| > 1 && CaseById(cases, caseId).Some?
    requires t1 != "" && t2 != "" && t1 != t2
    requires HasTarget(OutgoingEdges(w, from), t1) && HasTarget(OutgoingEdges(w, from), t2)
    ensures Advance(w, cases, users, actorId, caseId, from, Some(t1), now).Some?
    ensures Advance(w, cases, users, actorId, caseId, from, Some(t1), now) !=
            Advance(w, cases, users, actorId, caseId, from, Some(t2), now)
  {
    assert Advance(w, cases, users, actorId, caseId, from, Some(t1), now).value.currentWorkflowStepId == Some(t1);
  }

  // ---------------------------------------------------------------------------------------
  // Manual step override (drag and drop on the board)

  /** The status a case gets when it is put on a node by hand. */
  function StatusForNode(t: NodeType): CaseStatus {
    match t
    case Start => New
    case End => Closed
    case _ => InProgress
  }

  /** `handleCaseStepChange`: the update issued when a case is dropped on step `newStepId`. */
  function StepChange(w: Workflow, cases: seq<Case>, caseId: string, newStepId: string): (r: Option<Case>)
    ensures r.None? <==> (forall i :: 0 <= i < |cases| ==> cases[i].id != caseId) || !IsNodeId(w, newStepId)
    ensures r.Some? ==>
              var c := CaseById(cases, caseId).value;
              r.value == c.(currentWorkflowStepId := Some(newStepId), status := r.value.status) &&
              r.value.workflowHistory == c.workflowHistory &&
              (NodeById(w, newStepId).value.nodeType == Start ==> r.value.status == New) &&
              (NodeById(w, newStepId).value.nodeType == End ==> r.value.status == Closed) &&
              (NodeById(w, newStepId).value.nodeType !in {Start, End} ==> r.value.status == InProgress)
  {
    var original := CaseById(cases, caseId);
    var step := NodeById(w, newStepId);
    if original.None? || step.None? then None
    else Some(original.value.(currentWorkflowStepId := Some(newStepId), status := StatusForNode(step.value.nodeType)))
  }

  // ---------------------------------------------------------------------------------------
  // Board columns and new cases

  /** Start, Task and End nodes become board columns. */
  function IsColumnNode(n: Node): bool {
    n.nodeType == Start || n.nodeType == Task || n.nodeType == End
  }

  function NodeX(n: Node): int {
    n.x
  }

  /** `kanbanColumns`: the column nodes, sorted by x with a stable sort. */
  function KanbanColumns(w: Workflow): seq<Node> {
    SortBy(Filter(w.nodes, IsColumnNode), NodeX)
  }

  /** The columns are exactly the Start, Task and End nodes (each as often as the workflow
      lists it), in non-decreasing x, and nodes sharing an x keep their workflow order. */
  lemma KanbanColumnsSpec(w: Workflow)
    ensures var cols := KanbanColumns(w);
            SortedBy(cols, NodeX) &&
            multiset(cols) == multiset(Filter(w.nodes, IsColumnNode)) &&
            (forall n :: n in cols <==> n in w.nodes && IsColumnNode(n)) &&
            (forall k :: WithKey(cols, NodeX, k) == WithKey(Filter(w.nodes, IsColumnNode), NodeX, k))
  {
    var cols := KanbanColumns(w);
    var fs := Filter(w.nodes, IsColumnNode);
    forall n ensures n in cols <==> n in w.nodes && IsColumnNode(n) {
      assert n in cols <==> n in multiset(cols);
      assert n in fs <==> n in multiset(fs);
      if n in w.nodes && IsColumnNode(n) {
        var i :| 0 <= i < |w.nodes| && w.nodes[i] == n;
      }
      if n in fs {
        var i :| 0 <= i < |fs| && fs[i] == n;
      }
    }
    forall k ensures WithKey(cols, NodeX, k) == WithKey(fs, NodeX, k) {
      SortByStable(fs, NodeX, k);
    }
  }

  function IsStartNode(n: Node): bool {
    n.nodeType == Start
  }

  /** `handleAddCaseLocal`: a new case built from the form's draft, placed at the first Start
      node of the workflow (no step when there is none), with status New, no history and no
      form data. */
  function NewCase(draft: CaseDraft, w: Workflow, appId: string, id: string, createdAt: string): (r: Case)
    ensures r.id == id && r.appId == appId && r.createdAt == createdAt
    ensures r.title == draft.title && r.description == draft.description && r.priority == draft.priority &&
            r.assignee == draft.assignee && r.client == draft.client && r.tags == draft.tags
    ensures r.status == New && r.workflowHistory == [] && r.formData == map[]
    ensures r.currentWorkflowStepId.None? <==> forall i :: 0 <= i < |w.nodes| ==> w.nodes[i].nodeType != Start
    ensures r.currentWorkflowStepId.Some? ==>
              exists i :: 0 <= i < |w.nodes| && w.nodes[i].nodeType == Start && w.nodes[i].id == r.currentWorkflowStepId.value &&
                forall j :: 0 <= j < i ==> w.nodes[j].nodeType != Start
  {
    var start := Find(w.nodes, IsStartNode);
    Case(id, appId, draft.title, draft.description, New, draft.priority, draft.assignee, draft.client,
         draft.tags, createdAt, if start.Some? then Some(start.value.id) else None, [], map[])
  }
}
