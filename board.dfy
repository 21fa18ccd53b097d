/** The Kanban board: one column per column node, each holding the cases currently on that
    node, and a drop on a column that asks to move a case there. */
module Board {
  import opened Wrappers
  import opened Lists
  import opened Types
  import opened Engine

  function OnStep(id: string): Case -> bool {
    (c: Case) => c.currentWorkflowStepId == Some(id)
  }

  /** The cases shown in one column, in list order. */
  function ColumnCases(cases: seq<Case>, column: Node): seq<Case> {
    Filter(cases, OnStep(column.id))
  }

  function ColumnOf(cases: seq<Case>): Node -> seq<Case> {
    (column: Node) => ColumnCases(cases, column)
  }

  /** The board: the cases of each column, column by column. */
  function BoardColumns(columns: seq<Node>, cases: seq<Case>): seq<seq<Case>> {
    Map(columns, ColumnOf(cases))
  }

  function InApp(appId: string): Case -> bool {
    (c: Case) => c.appId == appId
  }

  /** `appCases`: the cases of the open app, in list order. */
  function AppCases(cases: seq<Case>, appId: string): (r: seq<Case>)
    ensures forall c :: c in r <==> c in cases && c.appId == appId
    ensures IsSubsequence(r, cases)
  {
    FilterIsSubsequence(cases, InApp(appId));
    var r := Filter(cases, InApp(appId));
    assert forall c :: c in cases && c.appId == appId ==> c in r by {
      forall c | c in cases && c.appId == appId ensures c in r {
        var k :| 0 <= k < |cases| && cases[k] == c;
      }
    }
    r
  }

  /** Every copy of a case of the app is kept, and no case of another app. */
  lemma AppCasesCount(cases: seq<Case>, appId: string, c: Case)
    ensures multiset(AppCases(cases, appId))[c] ==
            if c.appId == appId then multiset(cases)[c] else 0
  {
    FilterCount(cases, InApp(appId), c);
  }

  /** There is one column per column node, in the given order; a column holds exactly the cases
      whose step is that node's id, keeping their relative order. */
  lemma BoardColumnsSpec(columns: seq<Node>, cases: seq<Case>)
    ensures |BoardColumns(columns, cases)| == |columns|
    ensures forall i :: 0 <= i < |columns| ==> BoardColumns(columns, cases)[i] == ColumnCases(cases, columns[i])
    ensures forall i, c :: 0 <= i < |columns| ==>
              (c in BoardColumns(columns, cases)[i] <==> c in cases && c.currentWorkflowStepId == Some(columns[i].id))
    ensures forall i :: 0 <= i < |columns| ==> IsSubsequence(BoardColumns(columns, cases)[i], cases)
  {
    var b := BoardColumns(columns, cases);
    forall i, c | 0 <= i < |columns|
      ensures c in b[i] <==> c in cases && c.currentWorkflowStepId == Some(columns[i].id)
    {
      if c in cases && c.currentWorkflowStepId == Some(columns[i].id) {
        var k :| 0 <= k < |cases| && cases[k] == c;
      }
      if c in b[i] {
        var k :| 0 <= k < |b[i]| && b[i][k] == c;
      }
    }
    forall i | 0 <= i < |columns| ensures IsSubsequence(b[i], cases) {
      FilterIsSubsequence(cases, OnStep(columns[i].id));
    }
  }

  /** A case whose step matches no column appears in no column, and with distinct column ids
      a case appears in at most one. */
  lemma CaseInOneColumn(columns: seq<Node>, cases: seq<Case>, c: Case)
    ensures (forall i :: 0 <= i < |columns| ==> c.currentWorkflowStepId != Some(columns[i].id)) ==>
              forall i :: 0 <= i < |columns| ==> c !in BoardColumns(columns, cases)[i]
    ensures (forall i, j :: 0 <= i < j < |columns| ==> columns[i].id != columns[j].id) ==>
              forall i, j :: (0 <= i < |columns| && 0 <= j < |columns| &&
                              c in BoardColumns(columns, cases)[i] && c in BoardColumns(columns, cases)[j]) ==> i == j
  {
    BoardColumnsSpec(columns, cases);
  }

  /** What a drop on a column asks for: the dragged case moved to the column node's id. */
  datatype StepChangeRequest = StepChangeRequest(caseId: string, newStepId: string)

  function DropRequest(draggedCaseId: string, column: Node): StepChangeRequest {
    StepChangeRequest(draggedCaseId, column.id)
  }

  /** Carrying out the request of a drop on a node of the workflow puts the case in exactly that
      column of any list that holds the updated case, with its history untouched. */
  lemma DropMovesToColumn(w: Workflow, cases: seq<Case>, caseId: string, column: Node, shown: seq<Case>)
    requires column in w.nodes && CaseById(cases, caseId).Some?
    ensures var req := DropRequest(caseId, column);
            var u := StepChange(w, cases, req.caseId, req.newStepId);
            u.Some? && u.value.workflowHistory == CaseById(cases, caseId).value.workflowHistory &&
            (u.value in shown ==> u.value in ColumnCases(shown, column))
  {
    var k :| 0 <= k < |w.nodes| && w.nodes[k] == column;
    assert IsNodeId(w, column.id);
    var u := StepChange(w, cases, caseId, column.id).value;
    if u in shown {
      var j :| 0 <= j < |shown| && shown[j] == u;
    }
  }
}
