/** The canonical default workflow and the seed records the application starts with. */
module Seed {
  import opened Wrappers
  import opened Types

  function StartNode(): Node {
    Node("start", Start, "Case Created", None, 50, 150, None, None)
  }

  function TriageNode(): Node {
    Node("triage", Task, "Initial Triage", None, 250, 150, None,
      Some(NodeForm(Fill, [
        FormField("triage-notes", "Triage Notes", TextArea, true, None, None),
        FormField("is-critical", "Is Critical?", Checkbox, false, None, None)])))
  }

  function ApprovalNode(): Node {
    Node("approval", Task, "Manager Approval", None, 450, 150, None,
      Some(NodeForm(Approval, [
        FormField("readonly-triage-notes", "Triage Notes", ReadonlyText, false, None, Some("triage-notes")),
        FormField("readonly-is-critical", "Is Critical?", ReadonlyText, false, None, Some("is-critical"))])))
  }

  function InvestigateNode(): Node {
    Node("investigate", Task, "Further Investigation", None, 650, 50, None,
      Some(NodeForm(Fill, [
        FormField("investigation-summary", "Investigation Summary", TextArea, true, None, None)])))
  }

  function RejectedNode(): Node {
    Node("rejected", End, "Close as Rejected", None, 650, 250, None, None)
  }

  function EndNode(): Node {
    Node("end", End, "Case Closed", None, 850, 50, None, None)
  }

  /** `defaultWorkflow`: Start -> Triage (FILL) -> Approval (APPROVAL) -> {Investigate -> End, Rejected}. */
  function DefaultWorkflow(): Workflow {
    Workflow(
      [StartNode(), TriageNode(), ApprovalNode(), InvestigateNode(), RejectedNode(), EndNode()],
      [ Edge("e-start-triage", "start", "triage", None),
        Edge("e-triage-approval", "triage", "approval", None),
        Edge("e-approval-investigate", "approval", "investigate", None),
        Edge("e-approval-rejected", "approval", "rejected", None),
        Edge("e-investigate-end", "investigate", "end", None)])
  }

  /** `INITIAL_APPS`; each holds its own copy of the default workflow, which as a value is
      the default workflow itself. */
  function InitialApps(): seq<AppDef> {
    [ AppDef("app-1", "Support Desk", "\U{1F4DE}", "blue", DefaultWorkflow()),
      AppDef("app-2", "Dev Projects", "\U{1F4BB}", "purple", DefaultWorkflow()),
      AppDef("app-3", "HR Onboarding", "\U{1F465}", "green", DefaultWorkflow())]
  }

  function SeedUser1(): User {
    User("user-1", "Alina Petrova", "https://picsum.photos/id/1027/100/100", "alina.petrova@example.com", Admin)
  }

  function SeedUser2(): User {
    User("user-2", "Ben Carter", "https://picsum.photos/id/1005/100/100", "ben.carter@example.com", Member)
  }

  function SeedUser3(): User {
    User("user-3", "Chen Lin", "https://picsum.photos/id/1011/100/100", "chen.lin@example.com", Member)
  }

  /** `USERS`. */
  function SeedUsers(): seq<User> {
    [SeedUser1(), SeedUser2(), SeedUser3()]
  }

  /** `INITIAL_CASES`, with the free-text descriptions left empty. */
  function InitialCases(): seq<Case> {
    [SeedCase1(), SeedCase2(), SeedCase3(), SeedCase4(), SeedCase5(), SeedCase6()]
  }

  function SeedCase1(): Case {
    Case("case-1", "app-1", "Client Portal Login Failure on Mobile",
      "",
      New, High, SeedUser1(), "Innovate Corp", ["bug", "mobile", "portal"], "2024-07-28T10:00:00Z",
      Some("start"), [], map[])
  }

  function SeedCase2(): Case {
    Case("case-2", "app-2", "Deploy Staging Environment for Q3 Features",
      "",
      New, Medium, SeedUser2(), "Internal", ["devops", "infrastructure"], "2024-07-28T11:30:00Z",
      Some("start"), [], map[])
  }

  function SeedCase3(): Case {
    Case("case-3", "app-1", "API Rate Limiting Investigation",
      "",
      InProgress, Urgent, SeedUser3(), "Apex Solutions", ["api", "performance", "investigation"], "2024-07-27T14:00:00Z",
      Some("triage"), [WorkflowEvent("start", "user-2", "2024-07-27T13:00:00Z")], map[])
  }

  function SeedCase4(): Case {
    Case("case-4", "app-3", "Onboard New Marketing Team Member",
      "",
      InProgress, Low, SeedUser2(), "Internal", ["onboarding", "hr"], "2024-07-26T09:00:00Z",
      Some("approval"), [WorkflowEvent("start", "user-1", "2024-07-26T08:00:00Z")],
      map["triage-notes" := Str("New hire setup requested by HR. Standard hardware and software access needed."),
          "is-critical" := Bool(false)])
  }

  function SeedCase5(): Case {
    Case("case-5", "app-3", "Review and Approve Q2 Financial Report",
      "",
      Review, High, SeedUser1(), "Internal", ["finance", "report", "review"], "2024-07-25T16:45:00Z",
      Some("approval"), [WorkflowEvent("start", "user-2", "2024-07-25T15:00:00Z")],
      map["triage-notes" := Str("Finance team has submitted the Q2 report for final sign-off."),
          "is-critical" := Bool(true)])
  }

  function SeedCase6(): Case {
    Case("case-6", "app-2", "Update Third-Party SSL Certificate",
      "",
      Closed, Medium, SeedUser3(), "Global Tech", ["security", "ssl", "completed"], "2024-07-15T12:00:00Z",
      Some("end"),
      [ WorkflowEvent("start", "user-2", "2024-07-15T10:00:00Z"),
        WorkflowEvent("triage", "user-2", "2024-07-15T11:00:00Z")],
      map["triage-notes" := Str("SSL cert expiring soon. Coordinated with vendor."),
          "is-critical" := Bool(true)])
  }

  /** The default workflow has exactly one Start node, `start`. */
  lemma DefaultHasOneStart()
    ensures forall n :: n in DefaultWorkflow().nodes ==> (n.nodeType == Start <==> n.id == "start")
    ensures StartNode() in DefaultWorkflow().nodes
  {
  }

  /** Node ids are pairwise distinct, edge ids too, and no edge dangles. */
  lemma DefaultWellFormed()
    ensures NodeIdsDistinct(DefaultWorkflow())
    ensures EdgeIdsDistinct(DefaultWorkflow())
    ensures EdgesResolve(DefaultWorkflow())
  {
    var w := DefaultWorkflow();
    assert w.nodes[0].id == "start" && w.nodes[1].id == "triage" && w.nodes[2].id == "approval";
    assert w.nodes[3].id == "investigate" && w.nodes[4].id == "rejected" && w.nodes[5].id == "end";
  }

  /** The fields of the default workflow, node by node. */
  lemma DefaultFields()
    ensures AllFields(DefaultWorkflow().nodes) == FieldsOf(TriageNode()) + FieldsOf(ApprovalNode()) + FieldsOf(InvestigateNode())
  {
    var ns := DefaultWorkflow().nodes;
    assert AllFields(ns[5..]) == [] by { assert ns[5..][1..] == []; }
    assert AllFields(ns[4..]) == [] by { assert ns[4..][1..] == ns[5..]; }
    assert AllFields(ns[3..]) == FieldsOf(InvestigateNode()) by { assert ns[3..][1..] == ns[4..]; }
    assert AllFields(ns[2..]) == FieldsOf(ApprovalNode()) + FieldsOf(InvestigateNode()) by { assert ns[2..][1..] == ns[3..]; }
    assert AllFields(ns[1..]) == FieldsOf(TriageNode()) + FieldsOf(ApprovalNode()) + FieldsOf(InvestigateNode()) by { assert ns[1..][1..] == ns[2..]; }
  }

  /** Field ids are unique across all nodes of the default workflow. */
  lemma DefaultFieldIdsUnique()
    ensures FieldIdsUnique(DefaultWorkflow())
  {
    DefaultFieldList();
    var fs := AllFields(DefaultWorkflow().nodes);
    assert |fs| == 5;
    assert fs[0].id == "triage-notes" && fs[1].id == "is-critical" && fs[2].id == "readonly-triage-notes";
    assert fs[3].id == "readonly-is-critical" && fs[4].id == "investigation-summary";
  }

  /** Every field of the default workflow has the shape its type calls for. */
  lemma DefaultFieldShapes()
    ensures forall i :: 0 <= i < |AllFields(DefaultWorkflow().nodes)| ==> FieldShapeOk(AllFields(DefaultWorkflow().nodes)[i])
  {
    DefaultFields();
  }

  /** The two read-only fields of the default workflow (in `approval`) are fed by the two
      fields of `triage`. */
  lemma DefaultSourcesOnTriage()
    ensures SourcesResolve(DefaultWorkflow())
    ensures var fs := AllFields(DefaultWorkflow().nodes);
            |fs| == 5 &&
            (forall i :: 0 <= i < |fs| ==> (fs[i].fieldType == ReadonlyText <==> i == 2 || i == 3)) &&
            fs[2].sourceFieldId == Some(FieldsOf(TriageNode())[0].id) &&
            fs[3].sourceFieldId == Some(FieldsOf(TriageNode())[1].id)
  {
    DefaultFieldList();
    var fs := AllFields(DefaultWorkflow().nodes);
    assert fs[2].sourceFieldId == Some(fs[0].id) && fs[3].sourceFieldId == Some(fs[1].id);
  }

  /** The five fields of the default workflow, written out. */
  lemma DefaultFieldList()
    ensures var fs := AllFields(DefaultWorkflow().nodes);
            |fs| == 5 && fs[0] == FieldsOf(TriageNode())[0] && fs[1] == FieldsOf(TriageNode())[1] &&
            fs[2] == FieldsOf(ApprovalNode())[0] && fs[3] == FieldsOf(ApprovalNode())[1] &&
            fs[4] == FieldsOf(InvestigateNode())[0]
  {
    DefaultFields();
  }
}
