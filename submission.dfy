/** A FILL submission end to end: the detail view first stores the case with the merged form
    data and then asks for the step to be completed; the completion rebuilds the case from
    the case list it was given, and both results go through the store's replace-by-id. */
module Submission {
  import opened Wrappers
  import opened Lists
  import opened Types
  import opened Engine
  import opened CaseDetail
  import opened AppState

  /** The case list after a FILL submit as the handlers are written: the completion looks
      the case up in the list from before the merged case was stored, and its update is
      applied last. */
  function SubmitFillAsWritten(w: Workflow, cases: seq<Case>, users: seq<User>, actorId: string,
                               c: Case, state: map<string, Value>, now: string): seq<Case> {
    match FillSubmit(w, c, state)
    case Submitted(merged, from) =>
      var afterUpdate := ReplaceCase(cases, merged);
      var advanced := Advance(w, cases, users, actorId, c.id, from, None, now);
      if advanced.Some? then ReplaceCase(afterUpdate, advanced.value) else afterUpdate
    case _ => cases
  }

  /** As written, whenever the step moves on, every stored entry for the case ends with the
      form data it had before the submit: what the form held is lost. */
  lemma AsWrittenKeepsStaleFormData(w: Workflow, cases: seq<Case>, users: seq<User>, actorId: string,
                                    c: Case, state: map<string, Value>, now: string)
    requires FillSubmit(w, c, state).Submitted?
    requires Advance(w, cases, users, actorId, c.id, FillSubmit(w, c, state).fromStepId, None, now).Some?
    ensures var r := SubmitFillAsWritten(w, cases, users, actorId, c, state, now);
            forall i :: 0 <= i < |r| && r[i].id == c.id ==> r[i].formData == CaseById(cases, c.id).value.formData
  {
    var from := FillSubmit(w, c, state).fromStepId;
    AdvanceMoves(w, cases, users, actorId, c.id, from, None, now);
  }

  /** A one-edge workflow whose first step asks for one field. */
  function ExampleWorkflow(): Workflow {
    Workflow(
      [Node("a", Task, "A", None, 0, 0, None, Some(NodeForm(Fill, [FormField("f", "F", Text, false, None, None)]))),
       Node("b", End, "B", None, 1, 0, None, None)],
      [Edge("e", "a", "b", None)])
  }

  function ExampleCase(u: User): Case {
    Case("c", "app", "T", "D", New, Low, u, "C", [], "t0", Some("a"), [], map[])
  }

  /** Filling in `f` and submitting moves the case on but stores it without `f`, although
      the merged case the form built holds it. */
  lemma AsWrittenLosesFilledField(u: User)
    ensures var c := ExampleCase(u);
            var r := SubmitFillAsWritten(ExampleWorkflow(), [c], [u], u.id, c, map["f" := Str("x")], "t1");
            FillSubmit(ExampleWorkflow(), c, map["f" := Str("x")]).Submitted? &&
            "f" in FillSubmit(ExampleWorkflow(), c, map["f" := Str("x")]).updated.formData &&
            |r| == 1 && r[0].currentWorkflowStepId == Some("b") && "f" !in r[0].formData
  {
    var w := ExampleWorkflow();
    var c := ExampleCase(u);
    var state := map["f" := Str("x")];
    assert NodeById(w, "a") == Some(w.nodes[0]);
    assert CurrentStep(w, c) == Some(w.nodes[0]);
    assert FirstMissing(w.nodes[0].form.value.fields, state).None?;
    assert FillSubmit(w, c, state) == Submitted(c.(formData := state), "a");
    assert OutgoingEdges(w, "a") == [w.edges[0]];
    assert NextStep(OutgoingEdges(w, "a"), None) == Some("b");
    var advanced := Advance(w, [c], [u], u.id, c.id, "a", None, "t1");
    assert advanced.Some? && advanced.value.formData == map[];
  }

  /** The evidently intended result: the completion starts from the case as the submit
      stored it. */
  function SubmitFill(w: Workflow, cases: seq<Case>, users: seq<User>, actorId: string,
                      c: Case, state: map<string, Value>, now: string): seq<Case> {
    match FillSubmit(w, c, state)
    case Submitted(merged, from) =>
      var afterUpdate := ReplaceCase(cases, merged);
      var advanced := Advance(w, afterUpdate, users, actorId, c.id, from, None, now);
      if advanced.Some? then ReplaceCase(afterUpdate, advanced.value) else afterUpdate
    case _ => cases
  }

  /** A completion keeps the case's id and form data and appends one history entry. */
  lemma AdvanceKeepsForm(w: Workflow, cases: seq<Case>, users: seq<User>, actorId: string, id: string,
                         from: string, now: string)
    requires Advance(w, cases, users, actorId, id, from, None, now).Some?
    ensures var u := Advance(w, cases, users, actorId, id, from, None, now).value;
            u.id == id && u.formData == CaseById(cases, id).value.formData &&
            u.workflowHistory == CaseById(cases, id).value.workflowHistory + [WorkflowEvent(from, actorId, now)]
  {
    AdvanceMoves(w, cases, users, actorId, id, from, None, now);
  }

  /** When the step does move on, the corrected submit stores the case advanced from the
      merged one: merged form data, one more history entry. */
  lemma SubmitFillAdvances(w: Workflow, cases: seq<Case>, users: seq<User>, actorId: string,
                           c: Case, state: map<string, Value>, now: string)
    requires FillSubmit(w, c, state).Submitted?
    requires Advance(w, ReplaceCase(cases, FillSubmit(w, c, state).updated), users, actorId, c.id,
                     FillSubmit(w, c, state).fromStepId, None, now).Some?
    ensures var u := Advance(w, ReplaceCase(cases, FillSubmit(w, c, state).updated), users, actorId, c.id,
                             FillSubmit(w, c, state).fromStepId, None, now).value;
            SubmitFill(w, cases, users, actorId, c, state, now) == ReplaceCase(cases, u) &&
            u.formData == c.formData + state &&
            u.workflowHistory == c.workflowHistory + [WorkflowEvent(FillSubmit(w, c, state).fromStepId, actorId, now)]
  {
    var merged := FillSubmit(w, c, state).updated;
    var from := FillSubmit(w, c, state).fromStepId;
    var afterUpdate := ReplaceCase(cases, merged);
    AdvanceKeepsForm(w, afterUpdate, users, actorId, c.id, from, now);
    LookupAfterReplace(cases, merged);
    ReplaceCaseTwice(cases, merged, Advance(w, afterUpdate, users, actorId, c.id, from, None, now).value);
  }
  /** With the submit applied first, every stored entry for the case keeps the merged form
      data, whether or not the step moves on; the other entries and the length stay as they
      were, and a refused submit changes nothing. */
  lemma SubmitFillKeepsForm(w: Workflow, cases: seq<Case>, users: seq<User>, actorId: string,
                            c: Case, state: map<string, Value>, now: string)
    ensures var r := SubmitFill(w, cases, users, actorId, c, state, now);
            |r| == |cases| &&
            (!FillSubmit(w, c, state).Submitted? ==> r == cases) &&
            (FillSubmit(w, c, state).Submitted? ==>
               forall i :: 0 <= i < |r| && cases[i].id == c.id ==> r[i].formData == c.formData + state) &&
            (forall i :: 0 <= i < |r| && cases[i].id != c.id ==> r[i] == cases[i])
  {
    if FillSubmit(w, c, state).Submitted? {
      var merged := FillSubmit(w, c, state).updated;
      var from := FillSubmit(w, c, state).fromStepId;
      var advanced := Advance(w, ReplaceCase(cases, merged), users, actorId, c.id, from, None, now);
      if advanced.Some? {
        SubmitFillAdvances(w, cases, users, actorId, c, state, now);
        ReplaceCaseSpec(cases, advanced.value);
      } else {
        ReplaceCaseSpec(cases, merged);
      }
    }
  }
}
