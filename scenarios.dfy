/** The default workflow as a fixture: its shape, its board columns and a case walked
    through it. */
module Scenarios {
  import opened Wrappers
  import opened Lists
  import opened Sorting
  import opened Types
  import opened Seed
  import opened Engine
  import opened CaseDetail
  import opened AppState
  import opened Submission

  /** `approval` asks for a decision between its two outgoing edges, to `investigate` and to
      `rejected`. */
  lemma ApprovalBranches()
    ensures ApprovalNode().form.Some? && ApprovalNode().form.value.mode == Approval
    ensures OutgoingEdges(DefaultWorkflow(), "approval") == [DefaultWorkflow().edges[2], DefaultWorkflow().edges[3]]
    ensures DefaultWorkflow().edges[2].target == "investigate" && DefaultWorkflow().edges[3].target == "rejected"
  {
    var es := DefaultWorkflow().edges;
    assert es[4..][1..] == [];
    assert es[3..][1..] == es[4..];
    assert es[2..][1..] == es[3..];
    assert es[1..][1..] == es[2..];
    assert Filter(es[4..], EdgeFrom("approval")) == [];
    assert Filter(es[2..], EdgeFrom("approval")) == [es[2], es[3]];
  }

  /** Every other step that is not an End node has exactly one way on. */
  lemma SingleWayOn()
    ensures OutgoingEdges(DefaultWorkflow(), "start") == [DefaultWorkflow().edges[0]]
    ensures OutgoingEdges(DefaultWorkflow(), "triage") == [DefaultWorkflow().edges[1]]
    ensures OutgoingEdges(DefaultWorkflow(), "investigate") == [DefaultWorkflow().edges[4]]
  {
  }

  /** `rejected` and `end`, the two End nodes, are the steps with no way on. */
  lemma EndsAreSinks()
    ensures OutgoingEdges(DefaultWorkflow(), "rejected") == []
    ensures OutgoingEdges(DefaultWorkflow(), "end") == []
    ensures forall i :: 0 <= i < |DefaultWorkflow().nodes| ==>
              (DefaultWorkflow().nodes[i].nodeType == End <==> i == 4 || i == 5)
    ensures DefaultWorkflow().nodes[4].id == "rejected" && DefaultWorkflow().nodes[5].id == "end"
  {
    var es := DefaultWorkflow().edges;
    FilterNone(es, EdgeFrom("rejected"));
    FilterNone(es, EdgeFrom("end"));
  }

  /** A workflow made only of Start, Task and End nodes already in x order is its own list
      of board columns. */
  lemma ColumnsInOrder(w: Workflow)
    requires forall i :: 0 <= i < |w.nodes| ==> IsColumnNode(w.nodes[i])
    requires SortedBy(w.nodes, NodeX)
    ensures KanbanColumns(w) == w.nodes
  {
    FilterAll(w.nodes, IsColumnNode);
    SortBySorted(w.nodes, NodeX);
  }

  /** The board columns of the default workflow are its six nodes in workflow order: every
      node is a Start, Task or End node, the x positions never decrease, and `investigate`
      and `rejected`, both at 650, keep their order. */
  lemma DefaultColumns()
    ensures KanbanColumns(DefaultWorkflow()) ==
            [StartNode(), TriageNode(), ApprovalNode(), InvestigateNode(), RejectedNode(), EndNode()]
  {
    var w := DefaultWorkflow();
    assert SortedBy(w.nodes, NodeX);
    ColumnsInOrder(w);
  }

  /** Each node of the default workflow is found by its id. */
  lemma DefaultLookup(i: int)
    requires 0 <= i < 6
    ensures NodeById(DefaultWorkflow(), DefaultWorkflow().nodes[i].id) == Some(DefaultWorkflow().nodes[i])
  {
    DefaultWellFormed();
    NodeByIdDistinct(DefaultWorkflow(), i);
  }

  /** Opening triage with nothing stored yet and submitting straight away is refused, naming
      the required notes field. */
  lemma TriageNeedsNotes(c: Case)
    requires c.currentWorkflowStepId == Some("triage")
    ensures InitialState(FieldsOf(TriageNode()), map[]) == map["triage-notes" := Str(""), "is-critical" := Bool(false)]
    ensures FillSubmit(DefaultWorkflow(), c, InitialState(FieldsOf(TriageNode()), map[])) == MissingField("Triage Notes")
  {
    DefaultLookup(1);
    var fs := FieldsOf(TriageNode());
    assert fs[..1][..0] == [];
    assert fs[..|fs| - 1] == fs[..1];
    var state := InitialState(fs, map[]);
    assert Unfilled(fs[0], state);
  }

  /** The triage form with notes written in. */
  function TriageFilled(): map<string, Value> {
    map["triage-notes" := Str("n"), "is-critical" := Bool(false)]
  }

  /** Filled-in notes let the triage form through. */
  lemma TriageAccepts(c: Case)
    requires c.currentWorkflowStepId == Some("triage")
    ensures FillSubmit(DefaultWorkflow(), c, TriageFilled()) == Submitted(c.(formData := c.formData + TriageFilled()), "triage")
  {
    DefaultLookup(1);
    var fs := FieldsOf(TriageNode());
    var state := TriageFilled();
    assert !Unfilled(fs[0], state) && !Unfilled(fs[1], state);
    assert FirstMissing(fs, state).None?;
  }

  /** A step with a single way on moves any known case along it, one history entry more. */
  lemma SingleEdgeAdvance(w: Workflow, cases: seq<Case>, users: seq<User>, actorId: string, id: string,
                          from: string, e: Edge, now: string)
    requires OutgoingEdges(w, from) == [e] && e.target != "" && CaseById(cases, id).Some?
    ensures var u := Advance(w, cases, users, actorId, id, from, None, now);
            u.Some? && u.value.currentWorkflowStepId == Some(e.target) &&
            u.value.workflowHistory == CaseById(cases, id).value.workflowHistory + [WorkflowEvent(from, actorId, now)]
  {
  }

  /** Completing triage moves any known case to `approval`, one history entry more. */
  lemma TriageCompletes(cases: seq<Case>, users: seq<User>, actorId: string, id: string, now: string)
    requires CaseById(cases, id).Some?
    ensures var u := Advance(DefaultWorkflow(), cases, users, actorId, id, "triage", None, now);
            u.Some? && u.value.currentWorkflowStepId == Some("approval") &&
            u.value.workflowHistory == CaseById(cases, id).value.workflowHistory + [WorkflowEvent("triage", actorId, now)]
  {
    SingleWayOn();
    SingleEdgeAdvance(DefaultWorkflow(), cases, users, actorId, id, "triage", DefaultWorkflow().edges[1], now);
  }

  /** A decision for an End node among several ways on closes the case there. */
  lemma DecisionForEnd(w: Workflow, cases: seq<Case>, users: seq<User>, actorId: string, id: string,
                       from: string, t: string, now: string)
    requires |OutgoingEdges(w, from)| > 1 && HasTarget(OutgoingEdges(w, from), t) && t != ""
    requires CaseById(cases, id).Some? && NodeById(w, t).Some? && NodeById(w, t).value.nodeType == End
    ensures var u := Advance(w, cases, users, actorId, id, from, Some(t), now);
            u.Some? && u.value.currentWorkflowStepId == Some(t) && u.value.status == Closed
  {
  }

  /** Rejecting at `approval` moves any known case to `rejected` and closes it. */
  lemma RejectCloses(cases: seq<Case>, users: seq<User>, actorId: string, id: string, now: string)
    requires CaseById(cases, id).Some?
    ensures var u := Advance(DefaultWorkflow(), cases, users, actorId, id, "approval", Some("rejected"), now);
            u.Some? && u.value.currentWorkflowStepId == Some("rejected") && u.value.status == Closed
  {
    ApprovalBranches();
    var out := OutgoingEdges(DefaultWorkflow(), "approval");
    assert out[1].target == "rejected";
    DefaultLookup(4);
    DecisionForEnd(DefaultWorkflow(), cases, users, actorId, id, "approval", "rejected", now);
  }

  /** The seeded cases sit on `start`, `triage`, `approval` or `end`. */
  lemma SeedCaseSteps()
    ensures |InitialCases()| == 6
    ensures forall i :: 0 <= i < 6 ==>
              InitialCases()[i].currentWorkflowStepId in {Some("start"), Some("triage"), Some("approval"), Some("end")}
  {
  }

  /** The seeded cases belong to `app-1`, `app-2` or `app-3`. */
  lemma SeedCaseApps()
    ensures |InitialCases()| == 6
    ensures forall i :: 0 <= i < 6 ==> InitialCases()[i].appId in {"app-1", "app-2", "app-3"}
  {
  }

  /** A case on one of those steps names a node of the default workflow. */
  lemma UsedStepsResolve(c: Case)
    requires c.currentWorkflowStepId in {Some("start"), Some("triage"), Some("approval"), Some("end")}
    ensures StepResolves(DefaultWorkflow(), c)
  {
    var w := DefaultWorkflow();
    assert w.nodes[0].id == "start" && w.nodes[1].id == "triage" && w.nodes[2].id == "approval";
    assert w.nodes[5].id == "end";
  }

  /** Every seeded case sits on a node of the default workflow. */
  lemma SeedCasesOnSteps()
    ensures forall i :: 0 <= i < |InitialCases()| ==>
              InitialCases()[i].currentWorkflowStepId.Some? && StepResolves(DefaultWorkflow(), InitialCases()[i])
  {
    SeedCaseSteps();
    forall i | 0 <= i < 6
      ensures InitialCases()[i].currentWorkflowStepId.Some? && StepResolves(DefaultWorkflow(), InitialCases()[i])
    {
      UsedStepsResolve(InitialCases()[i]);
    }
  }

  /** The seeded app ids. */
  lemma SeedAppIds()
    ensures |InitialApps()| == 3
    ensures InitialApps()[0].id == "app-1" && InitialApps()[1].id == "app-2" && InitialApps()[2].id == "app-3"
  {
  }

  /** Every seeded case belongs to a seeded app, so the store starts out consistent. */
  lemma SeedOwnership()
    ensures CasesInApps(InitialApps(), InitialCases())
  {
    SeedCaseApps();
    SeedAppIds();
    var apps := InitialApps();
    forall i | 0 <= i < 6 ensures HasApp(apps, InitialCases()[i].appId) {
      var a := InitialCases()[i].appId;
      if a == "app-1" { assert apps[0].id == a; }
      else if a == "app-2" { assert apps[1].id == a; }
      else { assert apps[2].id == a; }
    }
  }
}
