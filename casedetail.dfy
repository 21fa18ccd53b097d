/** The case detail view: which step a case is on, who may complete it, the form shown for it
    (initial values, required-field check, merge into the case's data), the approval
    decisions, and how progress through the workflow is displayed. */
module CaseDetail {
  import opened Wrappers
  import opened Lists
  import opened Types
  import opened Engine

  /** The node the case is on, if its step id names one. */
  function CurrentStep(w: Workflow, c: Case): (r: Option<Node>)
    ensures r.Some? ==> c.currentWorkflowStepId == Some(r.value.id) && r.value in w.nodes
    ensures r.None? <==> c.currentWorkflowStepId.None? || !IsNodeId(w, c.currentWorkflowStepId.value)
  {
    if c.currentWorkflowStepId.None? then None else NodeById(w, c.currentWorkflowStepId.value)
  }

  /** `canCompleteStep`. */
  predicate CanCompleteStep(w: Workflow, c: Case, currentUser: Option<User>) {
    var step := CurrentStep(w, c);
    step.Some? && step.value.nodeType != End &&
    (!Truthy(step.value.assigneeId) || (currentUser.Some? && currentUser.value.id == step.value.assigneeId.value))
  }

  /** The step's form is shown (and can be submitted) only when the step can be completed and
      has a form. */
  predicate FormShown(w: Workflow, c: Case, currentUser: Option<User>) {
    CanCompleteStep(w, c, currentUser) && CurrentStep(w, c).value.form.Some?
  }

  /** A completion that lands on an End node closes the case, and nobody, signed in or not, can
      complete a step of it again. */
  lemma LandingOnEndLocks(w: Workflow, cases: seq<Case>, users: seq<User>, actorId: string, caseId: string,
                          from: string, chosen: Option<string>, now: string, who: Option<User>)
    requires Advance(w, cases, users, actorId, caseId, from, chosen, now).Some?
    requires var u := Advance(w, cases, users, actorId, caseId, from, chosen, now).value;
             u.currentWorkflowStepId.Some? && NodeById(w, u.currentWorkflowStepId.value).Some? &&
             NodeById(w, u.currentWorkflowStepId.value).value.nodeType == End
    ensures var u := Advance(w, cases, users, actorId, caseId, from, chosen, now).value;
            u.status == Closed && !CanCompleteStep(w, u, who)
  {
    AdvanceMoves(w, cases, users, actorId, caseId, from, chosen, now);
    AdvanceStatusAndAssignee(w, cases, users, actorId, caseId, from, chosen, now);
  }

  /** After a completion routes the case to a node that names a known user, that user and only
      that user (by id) may complete the next step, unless it is an End node. */
  lemma RoutedAssigneeHoldsGate(w: Workflow, cases: seq<Case>, users: seq<User>, actorId: string, caseId: string,
                                from: string, chosen: Option<string>, now: string, v: User)
    requires Advance(w, cases, users, actorId, caseId, from, chosen, now).Some?
    requires var u := Advance(w, cases, users, actorId, caseId, from, chosen, now).value;
             u.currentWorkflowStepId.Some? && NodeById(w, u.currentWorkflowStepId.value).Some? &&
             var n := NodeById(w, u.currentWorkflowStepId.value).value;
             n.nodeType != End && Truthy(n.assigneeId) && UserById(users, n.assigneeId.value).Some?
    ensures var u := Advance(w, cases, users, actorId, caseId, from, chosen, now).value;
            CanCompleteStep(w, u, Some(v)) <==> v.id == u.assignee.id
    ensures var u := Advance(w, cases, users, actorId, caseId, from, chosen, now).value;
            !CanCompleteStep(w, u, None)
  {
    AdvanceMoves(w, cases, users, actorId, caseId, from, chosen, now);
    AdvanceStatusAndAssignee(w, cases, users, actorId, caseId, from, chosen, now);
  }

  /** A step whose node names no assignee can be completed by anyone, signed in or not, as long
      as it is not an End node; a step on an End node or on no node by nobody. */
  lemma UnassignedStepOpen(w: Workflow, c: Case, who: Option<User>)
    ensures (CurrentStep(w, c).Some? && CurrentStep(w, c).value.nodeType != End &&
             !Truthy(CurrentStep(w, c).value.assigneeId)) ==> CanCompleteStep(w, c, who)
    ensures (CurrentStep(w, c).None? || CurrentStep(w, c).value.nodeType == End) ==> !CanCompleteStep(w, c, who)
  {
  }

  /** When the form is shown, submitting it is never met with "no form": it goes through exactly
      when no required field is left unfilled, and otherwise names the first unfilled one. */
  lemma ShownFormSubmits(w: Workflow, c: Case, who: Option<User>, state: map<string, Value>)
    requires FormShown(w, c, who)
    ensures var fields := CurrentStep(w, c).value.form.value.fields;
            var r := FillSubmit(w, c, state);
            !r.NoForm? && CanCompleteStep(w, c, who) &&
            (r.Submitted? <==> FirstMissing(fields, state).None?) &&
            (r.MissingField? ==> r.caption == FirstMissing(fields, state).value.caption)
  {
  }

  // ---------------------------------------------------------------------------------------
  // Initial form state

  function Get(m: map<string, Value>, k: string): Option<Value> {
    if k in m then Some(m[k]) else None
  }

  /** A field's starting value: what the case already holds for it, else `false` for a
      checkbox and the empty string for any other type. */
  function InitialValue(f: FormField, formData: map<string, Value>): Value {
    if f.id in formData then formData[f.id]
    else if f.fieldType == Checkbox then Bool(false)
    else Str("")
  }

  /** The form state after writing each field's starting value in turn, later fields
      overwriting earlier ones with the same id. */
  function InitialState(fields: seq<FormField>, formData: map<string, Value>): map<string, Value> {
    if fields == [] then map[]
    else
      var last := fields[|fields| - 1];
      InitialState(fields[..|fields| - 1], formData)[last.id := InitialValue(last, formData)]
  }

  /** The state effect: a loop over the fields writing into a fresh record. */
  method BuildInitialState(fields: seq<FormField>, formData: map<string, Value>) returns (state: map<string, Value>)
    ensures state == InitialState(fields, formData)
  {
    state := map[];
    var i := 0;
    while i < |fields|
      invariant 0 <= i <= |fields|
      invariant state == InitialState(fields[..i], formData)
    {
      assert fields[..i + 1][..i] == fields[..i];
      state := state[fields[i].id := InitialValue(fields[i], formData)];
      i := i + 1;
    }
    assert fields[..|fields|] == fields;
  }

  /** The state has a key for exactly the fields' ids. */
  lemma {:induction false} InitialStateKeys(fields: seq<FormField>, formData: map<string, Value>)
    ensures forall k :: k in InitialState(fields, formData) <==> exists i :: 0 <= i < |fields| && fields[i].id == k
  {
    if fields != [] {
      var n := |fields| - 1;
      var init := fields[..n];
      InitialStateKeys(init, formData);
      var st := InitialState(fields, formData);
      assert st == InitialState(init, formData)[fields[n].id := InitialValue(fields[n], formData)];
      forall k ensures k in st <==> exists i :: 0 <= i < |fields| && fields[i].id == k {
        if k in st && k != fields[n].id {
          var i :| 0 <= i < |init| && init[i].id == k;
          assert fields[i].id == k;
        }
        if exists i :: 0 <= i < |fields| && fields[i].id == k {
          var i :| 0 <= i < |fields| && fields[i].id == k;
          if i < n {
            assert init[i].id == k;
          }
        }
      }
    }
  }

  /** Each key holds the starting value of the last field with that id. */
  lemma {:induction false} InitialStateLastWins(fields: seq<FormField>, formData: map<string, Value>, i: int)
    requires 0 <= i < |fields| && forall j :: i < j < |fields| ==> fields[j].id != fields[i].id
    ensures fields[i].id in InitialState(fields, formData)
    ensures InitialState(fields, formData)[fields[i].id] == InitialValue(fields[i], formData)
  {
    var n := |fields| - 1;
    var init := fields[..n];
    assert InitialState(fields, formData) == InitialState(init, formData)[fields[n].id := InitialValue(fields[n], formData)];
    if i < n {
      assert init[i] == fields[i];
      forall j | i < j < |init| ensures init[j].id != init[i].id {
        assert init[j] == fields[j];
      }
      InitialStateLastWins(init, formData, i);
    }
  }

  /** With distinct ids every field gets its own starting value. */
  lemma InitialStateDistinct(fields: seq<FormField>, formData: map<string, Value>)
    requires DistinctFieldIds(fields)
    ensures forall i :: 0 <= i < |fields| ==>
              fields[i].id in InitialState(fields, formData) &&
              InitialState(fields, formData)[fields[i].id] == InitialValue(fields[i], formData)
  {
    forall i | 0 <= i < |fields|
      ensures fields[i].id in InitialState(fields, formData) &&
              InitialState(fields, formData)[fields[i].id] == InitialValue(fields[i], formData)
    {
      InitialStateLastWins(fields, formData, i);
    }
  }

  // ---------------------------------------------------------------------------------------
  // FILL submission

  /** JavaScript truthiness of a form value; an absent key reads as `undefined`. */
  predicate IsTruthy(v: Option<Value>) {
    match v
    case None => false
    case Some(Str(s)) => s != ""
    case Some(Bool(b)) => b
  }

  /** A required field whose value in the form state is falsy. */
  predicate Unfilled(f: FormField, state: map<string, Value>) {
    f.required && !IsTruthy(Get(state, f.id))
  }

  /** The first required field, in form order, left unfilled. */
  function FirstMissing(fields: seq<FormField>, state: map<string, Value>): (r: Option<FormField>)
    ensures r.None? <==> forall i :: 0 <= i < |fields| ==> !Unfilled(fields[i], state)
    ensures r.Some? ==> exists i :: 0 <= i < |fields| && fields[i] == r.value && Unfilled(fields[i], state) &&
                          forall j :: 0 <= j < i ==> !Unfilled(fields[j], state)
  {
    if fields == [] then None
    else if Unfilled(fields[0], state) then Some(fields[0])
    else
      var r := FirstMissing(fields[1..], state);
      assert r.Some? ==> exists i :: 0 <= i < |fields| && fields[i] == r.value && Unfilled(fields[i], state) &&
                            forall j :: 0 <= j < i ==> !Unfilled(fields[j], state) by {
        if r.Some? {
          var i :| 0 <= i < |fields[1..]| && fields[1..][i] == r.value && Unfilled(fields[1..][i], state) &&
                   forall j :: 0 <= j < i ==> !Unfilled(fields[1..][j], state);
          assert fields[i + 1] == r.value && forall j :: 0 <= j < i + 1 ==> !Unfilled(fields[j], state);
        }
      }
      r
  }

  /** The validation loop of `handleCompleteFillForm`, stopping at the first unfilled field. */
  method CheckRequired(fields: seq<FormField>, state: map<string, Value>) returns (missing: Option<FormField>)
    ensures missing == FirstMissing(fields, state)
  {
    var i := 0;
    while i < |fields|
      invariant 0 <= i <= |fields|
      invariant FirstMissing(fields[i..], state) == FirstMissing(fields, state)
    {
      assert fields[i..][1..] == fields[i + 1..];
      if fields[i].required && !IsTruthy(Get(state, fields[i].id)) {
        return Some(fields[i]);
      }
      i := i + 1;
    }
    return None;
  }

  /** What submitting a FILL form does: nothing without a form, an alert naming the first
      unfilled required field, or the case with the form state merged into its data followed
      by completion of the step with no chosen target. */
  datatype FillOutcome =
    | NoForm
    | MissingField(caption: string)
    | Submitted(updated: Case, fromStepId: string)

  function FillSubmit(w: Workflow, c: Case, state: map<string, Value>): FillOutcome {
    var step := CurrentStep(w, c);
    if step.None? || step.value.form.None? then NoForm
    else
      var missing := FirstMissing(step.value.form.value.fields, state);
      if missing.Some? then MissingField(missing.value.caption)
      else Submitted(c.(formData := c.formData + state), step.value.id)
  }

  /** A submission goes through exactly when every required field of the step's form holds a
      truthy value; it then keeps every stored value the form does not mention, takes the form's
      value for every key it does, and changes nothing else in the case. A refused submission
      names the first unfilled field. */
  lemma FillSubmitSpec(w: Workflow, c: Case, state: map<string, Value>)
    requires CurrentStep(w, c).Some? && CurrentStep(w, c).value.form.Some?
    ensures var fields := CurrentStep(w, c).value.form.value.fields;
            var r := FillSubmit(w, c, state);
            (r.Submitted? <==> forall i :: 0 <= i < |fields| ==> fields[i].required ==> IsTruthy(Get(state, fields[i].id))) &&
            (r.MissingField? ==>
               exists i :: 0 <= i < |fields| && fields[i].caption == r.caption && Unfilled(fields[i], state) &&
                 forall j :: 0 <= j < i ==> !Unfilled(fields[j], state)) &&
            (r.Submitted? ==>
               r.fromStepId == c.currentWorkflowStepId.value &&
               r.updated == c.(formData := r.updated.formData) &&
               r.updated.formData.Keys == c.formData.Keys + state.Keys &&
               (forall k :: k in state ==> r.updated.formData[k] == state[k]) &&
               (forall k :: k in c.formData && k !in state ==> r.updated.formData[k] == c.formData[k]))
  {
  }

  // ---------------------------------------------------------------------------------------
  // Approval decisions

  function TargetExists(w: Workflow): Edge -> bool {
    (e: Edge) => IsNodeId(w, e.target)
  }

  function EdgeTarget(e: Edge): string {
    e.target
  }

  /** The choices an APPROVAL form offers: one per outgoing edge of the current step whose
      target node exists, in edge order, each naming that target. */
  function ApprovalDecisions(w: Workflow, c: Case): seq<string> {
    var step := CurrentStep(w, c);
    if step.None? then [] else Map(Filter(OutgoingEdges(w, step.value.id), TargetExists(w)), EdgeTarget)
  }

  /** One decision per edge leaving the current step whose target node exists, in edge order and
      naming that target; so every decision is such an edge's target, and every such edge yields
      one. */
  lemma ApprovalDecisionsSpec(w: Workflow, c: Case)
    requires CurrentStep(w, c).Some?
    ensures var kept := Filter(OutgoingEdges(w, CurrentStep(w, c).value.id), TargetExists(w));
            var d := ApprovalDecisions(w, c);
            |d| == |kept| && forall j :: 0 <= j < |d| ==> d[j] == kept[j].target
    ensures var s := CurrentStep(w, c).value.id;
            var d := ApprovalDecisions(w, c);
            (forall i :: 0 <= i < |d| ==>
               IsNodeId(w, d[i]) && exists e :: e in w.edges && e.source == s && e.target == d[i]) &&
            (forall e :: e in w.edges && e.source == s && IsNodeId(w, e.target) ==> e.target in d)
  {
    DecisionsAreTargets(w, c);
    TargetsAreDecisions(w, c);
  }

  lemma DecisionsAreTargets(w: Workflow, c: Case)
    requires CurrentStep(w, c).Some?
    ensures var s := CurrentStep(w, c).value.id;
            var d := ApprovalDecisions(w, c);
            forall i :: 0 <= i < |d| ==>
              IsNodeId(w, d[i]) && exists e :: e in w.edges && e.source == s && e.target == d[i]
  {
    var s := CurrentStep(w, c).value.id;
    var kept := Filter(OutgoingEdges(w, s), TargetExists(w));
    var d := ApprovalDecisions(w, c);
    forall i | 0 <= i < |d| ensures IsNodeId(w, d[i]) && exists e :: e in w.edges && e.source == s && e.target == d[i] {
      assert d[i] == kept[i].target;
      assert kept[i] in OutgoingEdges(w, s);
    }
  }

  lemma TargetsAreDecisions(w: Workflow, c: Case)
    requires CurrentStep(w, c).Some?
    ensures var s := CurrentStep(w, c).value.id;
            forall e :: e in w.edges && e.source == s && IsNodeId(w, e.target) ==> e.target in ApprovalDecisions(w, c)
  {
    var s := CurrentStep(w, c).value.id;
    var out := OutgoingEdges(w, s);
    var kept := Filter(out, TargetExists(w));
    var d := ApprovalDecisions(w, c);
    forall e | e in w.edges && e.source == s && IsNodeId(w, e.target) ensures e.target in d {
      assert e in out;
      var k :| 0 <= k < |out| && out[k] == e;
      assert e in kept;
      var j :| 0 <= j < |kept| && kept[j] == e;
      assert d[j] == e.target;
    }
  }

  /** Taking a decision moves the case to exactly the node it names (a decision whose id is the
      empty string excepted, since an empty step id issues no update). */
  lemma DecisionLandsOnTarget(w: Workflow, c: Case, cases: seq<Case>, users: seq<User>, actorId: string,
                              now: string, i: int)
    requires CurrentStep(w, c).Some? && CaseById(cases, c.id).Some?
    requires 0 <= i < |ApprovalDecisions(w, c)| && ApprovalDecisions(w, c)[i] != ""
    ensures var t := ApprovalDecisions(w, c)[i];
            var u := Advance(w, cases, users, actorId, c.id, CurrentStep(w, c).value.id, Some(t), now);
            u.Some? && u.value.currentWorkflowStepId == Some(t)
  {
    var s := CurrentStep(w, c).value.id;
    var t := ApprovalDecisions(w, c)[i];
    var out := OutgoingEdges(w, s);
    var kept := Filter(out, TargetExists(w));
    assert t == kept[i].target;
    assert kept[i] in out;
    var k :| 0 <= k < |out| && out[k] == kept[i];
    assert HasTarget(out, t);
    assert NextStep(out, Some(t)) == Some(t) by {
      if |out| == 1 {
        assert k == 0;
      }
    }
  }

  // ---------------------------------------------------------------------------------------
  // Progress display

  datatype Progress = Completed | InProgress | Pending

  /** Some history entry records leaving that node. */
  predicate Visited(c: Case, nodeId: string) {
    exists i :: 0 <= i < |c.workflowHistory| && c.workflowHistory[i].stepId == nodeId
  }

  /** `getCompletedStatus`. */
  function NodeProgress(c: Case, nodeId: string): (r: Progress)
    ensures r == Progress.InProgress <==> c.currentWorkflowStepId == Some(nodeId)
    ensures r == Completed <==> c.currentWorkflowStepId != Some(nodeId) && Visited(c, nodeId)
    ensures r == Pending <==> c.currentWorkflowStepId != Some(nodeId) && !Visited(c, nodeId)
  {
    if c.currentWorkflowStepId == Some(nodeId) then Progress.InProgress
    else if Visited(c, nodeId) then Completed
    else Pending
  }

  /** Completing a step never makes a node Pending again: the step just left and every node
      already visited are Completed or In Progress afterwards, and the node moved to is
      In Progress. */
  lemma AdvanceProgress(w: Workflow, cases: seq<Case>, users: seq<User>, actorId: string, caseId: string,
                        from: string, chosen: Option<string>, now: string, nodeId: string)
    requires Advance(w, cases, users, actorId, caseId, from, chosen, now).Some?
    ensures var u := Advance(w, cases, users, actorId, caseId, from, chosen, now).value;
            var c := CaseById(cases, caseId).value;
            NodeProgress(u, from) != Pending &&
            NodeProgress(u, u.currentWorkflowStepId.value) == Progress.InProgress &&
            (Visited(c, nodeId) ==> NodeProgress(u, nodeId) != Pending)
  {
    var u := Advance(w, cases, users, actorId, caseId, from, chosen, now).value;
    var c := CaseById(cases, caseId).value;
    AdvanceMoves(w, cases, users, actorId, caseId, from, chosen, now);
    assert u.workflowHistory[|c.workflowHistory|].stepId == from;
    if Visited(c, nodeId) {
      var i :| 0 <= i < |c.workflowHistory| && c.workflowHistory[i].stepId == nodeId;
      assert u.workflowHistory[i].stepId == nodeId;
    }
  }

  /** How a value is shown: Yes/No for a boolean, "Not provided" for a missing or empty value,
      the text itself otherwise. */
  function RenderValue(v: Option<Value>): string {
    match v
    case Some(Bool(b)) => if b then "Yes" else "No"
    case Some(Str(s)) => if s == "" then "Not provided" else s
    case None => "Not provided"
  }

  /** The value a read-only field shows: the case's stored value under its source field id, or
      the text 'N/A' when it names no source. */
  function ReadonlyValue(f: FormField, formData: map<string, Value>): Option<Value> {
    if Truthy(f.sourceFieldId) then Get(formData, f.sourceFieldId.value) else Some(Str("N/A"))
  }

  /** A read-only field shows 'N/A' without a source, "Not provided" when the source value is
      absent or empty, and otherwise the source's stored value (not its own). */
  lemma ReadonlyDisplay(f: FormField, formData: map<string, Value>)
    ensures !Truthy(f.sourceFieldId) ==> RenderValue(ReadonlyValue(f, formData)) == "N/A"
    ensures Truthy(f.sourceFieldId) ==>
              var k := f.sourceFieldId.value;
              (k !in formData || formData[k] == Str("") ==> RenderValue(ReadonlyValue(f, formData)) == "Not provided") &&
              (k in formData && formData[k].Str? && formData[k].s != "" ==> RenderValue(ReadonlyValue(f, formData)) == formData[k].s) &&
              (k in formData && formData[k].Bool? ==> RenderValue(ReadonlyValue(f, formData)) == (if formData[k].b then "Yes" else "No"))
  {
  }

  /** An edge is drawn as completed when both its nodes exist, its source was left at some
      point, and its target is the current step or was left too. */
  predicate EdgeCompleted(w: Workflow, c: Case, e: Edge) {
    var src := NodeById(w, e.source);
    var tgt := NodeById(w, e.target);
    src.Some? && tgt.Some? && Visited(c, src.value.id) &&
    (c.currentWorkflowStepId == Some(tgt.value.id) || Visited(c, tgt.value.id))
  }

  /** A completed edge is exactly one between existing nodes whose source was visited and whose
      target is not Pending. */
  lemma EdgeCompletedSpec(w: Workflow, c: Case, e: Edge)
    ensures EdgeCompleted(w, c, e) <==>
              IsNodeId(w, e.source) && IsNodeId(w, e.target) && Visited(c, e.source) && NodeProgress(c, e.target) != Pending
    ensures EdgeCompleted(w, c, e) ==> NodeProgress(c, e.source) != Pending
  {
  }
}
