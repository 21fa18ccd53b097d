/** The records and closed string unions of the case-management domain: workflows (nodes,
    edges, per-node forms), cases with their history and form data, users and apps. */
module Types {
  import opened Wrappers

  /** `BuilderNodeType`. */
  datatype NodeType = Task | Gateway | Timer | Message | Start | End

  /** `FormFieldType`. */
  datatype FieldType = Text | TextArea | Number | Date | Select | Checkbox | ReadonlyText

  /** `NodeFormMode`. */
  datatype FormMode = Fill | Approval

  datatype CaseStatus = New | InProgress | Review | Closed

  datatype Priority = Low | Medium | High | Urgent

  datatype Role = Admin | Member

  /** The string each node type has in the source. */
  function NodeTypeName(t: NodeType): string {
    match t
    case Task => "Task"
    case Gateway => "Gateway"
    case Timer => "Timer"
    case Message => "Message"
    case Start => "Start"
    case End => "End"
  }

  /** Reads a node-type string; anything outside the union is rejected. */
  function ParseNodeType(s: string): (r: Option<NodeType>)
    ensures r.Some? ==> NodeTypeName(r.value) == s
  {
    if s == "Task" then Some(Task)
    else if s == "Gateway" then Some(Gateway)
    else if s == "Timer" then Some(Timer)
    else if s == "Message" then Some(Message)
    else if s == "Start" then Some(Start)
    else if s == "End" then Some(End)
    else None
  }

  /** The six names are the whole union and no two node types share one. */
  lemma NodeTypeNamesRoundTrip(t: NodeType, s: string)
    ensures ParseNodeType(NodeTypeName(t)) == Some(t)
    ensures ParseNodeType(s) == Some(t) <==> s == NodeTypeName(t)
  {
  }

  function FieldTypeName(t: FieldType): string {
    match t
    case Text => "text"
    case TextArea => "textarea"
    case Number => "number"
    case Date => "date"
    case Select => "select"
    case Checkbox => "checkbox"
    case ReadonlyText => "readonly-text"
  }

  function ParseFieldType(s: string): (r: Option<FieldType>)
    ensures r.Some? ==> FieldTypeName(r.value) == s
  {
    if s == "text" then Some(Text)
    else if s == "textarea" then Some(TextArea)
    else if s == "number" then Some(Number)
    else if s == "date" then Some(Date)
    else if s == "select" then Some(Select)
    else if s == "checkbox" then Some(Checkbox)
    else if s == "readonly-text" then Some(ReadonlyText)
    else None
  }

  lemma FieldTypeNamesRoundTrip(t: FieldType, s: string)
    ensures ParseFieldType(FieldTypeName(t)) == Some(t)
    ensures ParseFieldType(s) == Some(t) <==> s == FieldTypeName(t)
  {
  }

  function FormModeName(m: FormMode): string {
    match m
    case Fill => "FILL"
    case Approval => "APPROVAL"
  }

  function CaseStatusName(s: CaseStatus): string {
    match s
    case New => "New"
    case InProgress => "In Progress"
    case Review => "In Review"
    case Closed => "Closed"
  }

  /** The enum's four display strings are pairwise distinct, so a status is exactly one of them. */
  lemma CaseStatusNamesDistinct(a: CaseStatus, b: CaseStatus)
    ensures CaseStatusName(a) == CaseStatusName(b) <==> a == b
  {
  }

  /** A form field (`label` is a keyword in Dafny, so the source's `label` is `caption`
      throughout). `required?` reads as `false` when absent; `options` belongs to select
      fields and `sourceFieldId` to read-only fields, which show another field's value. */
  datatype FormField = FormField(
    id: string,
    caption: string,
    fieldType: FieldType,
    required: bool,
    options: Option<seq<string>>,
    sourceFieldId: Option<string>)

  datatype NodeForm = NodeForm(mode: FormMode, fields: seq<FormField>)

  /** A workflow step; `x` and `y` are its position on the builder canvas. */
  datatype Node = Node(
    id: string,
    nodeType: NodeType,
    caption: string,
    description: Option<string>,
    x: int,
    y: int,
    assigneeId: Option<string>,
    form: Option<NodeForm>)

  datatype Edge = Edge(id: string, source: string, target: string, caption: Option<string>)

  datatype Workflow = Workflow(nodes: seq<Node>, edges: seq<Edge>)

  datatype User = User(id: string, name: string, avatarUrl: string, email: string, role: Role)

  /** One history entry: the step a case left, who completed it and when. */
  datatype WorkflowEvent = WorkflowEvent(stepId: string, userId: string, completedAt: string)

  /** A value held in a case's form data: text inputs yield strings, checkboxes booleans. */
  datatype Value = Str(s: string) | Bool(b: bool)

  datatype Case = Case(
    id: string,
    appId: string,
    title: string,
    description: string,
    status: CaseStatus,
    priority: Priority,
    assignee: User,
    client: string,
    tags: seq<string>,
    createdAt: string,
    currentWorkflowStepId: Option<string>,
    workflowHistory: seq<WorkflowEvent>,
    formData: map<string, Value>)

  /** What the new-case form hands over: a case without the fields the app fills in itself. */
  datatype CaseDraft = CaseDraft(
    title: string,
    description: string,
    priority: Priority,
    assignee: User,
    client: string,
    tags: seq<string>)

  /** What the app creator hands over: an app without its id. */
  datatype AppDraft = AppDraft(name: string, icon: string, themeColor: string, workflow: Workflow)

  datatype AppDef = AppDef(id: string, name: string, icon: string, themeColor: string, workflow: Workflow)

  datatype EventSource = Local | Outlook

  /** A calendar event; `start` and `end` are instants in milliseconds. */
  datatype CalendarEvent = CalendarEvent(
    id: string,
    title: string,
    description: string,
    start: int,
    end: int,
    source: EventSource)

  /** JavaScript truthiness of an optional string: present and not empty. */
  predicate Truthy(s: Option<string>) {
    s.Some? && s.value != ""
  }

  /** The fields of a node's form, none when it has no form (`n.form?.fields || []`). */
  function FieldsOf(n: Node): seq<FormField> {
    if n.form.Some? then n.form.value.fields else []
  }

  /** Every field of every node's form, node by node, in order. */
  function AllFields(nodes: seq<Node>): (r: seq<FormField>)
    ensures forall f :: f in r <==> exists n :: n in nodes && f in FieldsOf(n)
  {
    if nodes == [] then []
    else
      assert forall n :: n in nodes <==> n == nodes[0] || n in nodes[1..];
      FieldsOf(nodes[0]) + AllFields(nodes[1..])
  }

  /** The documented intent of `FormField.id`: unique across the whole workflow. */
  predicate FieldIdsUnique(w: Workflow) {
    var fs := AllFields(w.nodes);
    forall i, j :: 0 <= i < j < |fs| ==> fs[i].id != fs[j].id
  }

  /** Within one list of fields, no two share an id. */
  predicate DistinctFieldIds(fields: seq<FormField>) {
    forall i, j :: 0 <= i < j < |fields| ==> fields[i].id != fields[j].id
  }

  /** `options` only on select fields, `sourceFieldId` only on read-only fields. */
  predicate FieldShapeOk(f: FormField) {
    (f.options.Some? ==> f.fieldType == Select) &&
    (f.sourceFieldId.Some? ==> f.fieldType == ReadonlyText)
  }

  /** Every read-only field's source names a field defined somewhere in the workflow. */
  predicate SourcesResolve(w: Workflow) {
    var fs := AllFields(w.nodes);
    forall i :: 0 <= i < |fs| && fs[i].fieldType == ReadonlyText && fs[i].sourceFieldId.Some? ==>
      exists j :: 0 <= j < |fs| && fs[j].id == fs[i].sourceFieldId.value
  }

  predicate NodeIdsDistinct(w: Workflow) {
    forall i, j :: 0 <= i < j < |w.nodes| ==> w.nodes[i].id != w.nodes[j].id
  }

  predicate EdgeIdsDistinct(w: Workflow) {
    forall i, j :: 0 <= i < j < |w.edges| ==> w.edges[i].id != w.edges[j].id
  }

  predicate IsNodeId(w: Workflow, id: string) {
    exists k :: 0 <= k < |w.nodes| && w.nodes[k].id == id
  }

  /** No edge dangles: both ends name nodes of the workflow. */
  predicate EdgesResolve(w: Workflow) {
    forall e :: e in w.edges ==> IsNodeId(w, e.source) && IsNodeId(w, e.target)
  }

  /** A case's step is absent or one of the workflow's nodes. */
  predicate StepResolves(w: Workflow, c: Case) {
    c.currentWorkflowStepId.None? || IsNodeId(w, c.currentWorkflowStepId.value)
  }
}
