/** The top-level store: the list of apps, the list of cases, the local calendar events and
    which app (and which case in it) is open. Every handler replaces a list by a new one. */
module AppState {
  import opened Wrappers
  import opened Lists
  import opened Sorting
  import opened Types
  import opened Seed
  import opened Engine

  /** `cases.map(c => c.id === updated.id ? updated : c)`. */
  function ReplaceCase(cases: seq<Case>, updated: Case): seq<Case> {
    ReplaceWhere(cases, CaseWithId(updated.id), updated)
  }

  function AppWithId(id: string): AppDef -> bool {
    (a: AppDef) => a.id == id
  }

  function ReplaceApp(apps: seq<AppDef>, updated: AppDef): seq<AppDef> {
    ReplaceWhere(apps, AppWithId(updated.id), updated)
  }

  function NotApp(id: string): AppDef -> bool {
    (a: AppDef) => a.id != id
  }

  function NotInApp(id: string): Case -> bool {
    (c: Case) => c.appId != id
  }

  function EventStart(e: CalendarEvent): int {
    e.start
  }

  /** The event list after appending an event and sorting by start time (a stable sort). */
  function InsertEvent(events: seq<CalendarEvent>, e: CalendarEvent): seq<CalendarEvent> {
    SortBy(events + [e], EventStart)
  }

  /** Every case belongs to one of the apps. */
  predicate CasesInApps(apps: seq<AppDef>, cases: seq<Case>) {
    forall i :: 0 <= i < |cases| ==> HasApp(apps, cases[i].appId)
  }

  /** Some app has this id. */
  predicate HasApp(apps: seq<AppDef>, id: string) {
    exists j :: 0 <= j < |apps| && apps[j].id == id
  }

  /** Replacing keeps the length, puts `updated` at every position whose id matches and leaves
      every other entry as it was; when no entry has that id nothing changes. */
  lemma ReplaceCaseSpec(cases: seq<Case>, updated: Case)
    ensures |ReplaceCase(cases, updated)| == |cases|
    ensures forall i :: 0 <= i < |cases| ==>
              ReplaceCase(cases, updated)[i] == (if cases[i].id == updated.id then updated else cases[i])
    ensures (forall i :: 0 <= i < |cases| ==> cases[i].id != updated.id) ==> ReplaceCase(cases, updated) == cases
    ensures forall i :: 0 <= i < |cases| ==> ReplaceCase(cases, updated)[i].id == cases[i].id
  {
  }

  /** Of two updates to the same case, the later one is what the list ends up with. */
  lemma ReplaceCaseTwice(cases: seq<Case>, first: Case, second: Case)
    requires first.id == second.id
    ensures ReplaceCase(ReplaceCase(cases, first), second) == ReplaceCase(cases, second)
  {
    var once := ReplaceCase(cases, first);
    assert forall i :: 0 <= i < |cases| ==> once[i].id == cases[i].id;
  }

  /** After storing `u`, looking its id up finds `u` itself, if the list held that id at all. */
  lemma LookupAfterReplace(cases: seq<Case>, u: Case)
    ensures CaseById(ReplaceCase(cases, u), u.id).Some? <==> CaseById(cases, u.id).Some?
    ensures CaseById(ReplaceCase(cases, u), u.id).Some? ==> CaseById(ReplaceCase(cases, u), u.id).value == u
  {
    var r := ReplaceCase(cases, u);
    assert forall i :: 0 <= i < |cases| ==> r[i].id == cases[i].id;
    if CaseById(r, u.id).Some? {
      var k :| 0 <= k < |r| && r[k] == CaseById(r, u.id).value && r[k].id == u.id;
    }
  }

  /** Replacing an app keeps the length and changes only the entries with its id. */
  lemma ReplaceAppSpec(apps: seq<AppDef>, updated: AppDef)
    ensures |ReplaceApp(apps, updated)| == |apps|
    ensures forall i :: 0 <= i < |apps| ==>
              ReplaceApp(apps, updated)[i] == (if apps[i].id == updated.id then updated else apps[i])
    ensures (forall i :: 0 <= i < |apps| ==> apps[i].id != updated.id) ==> ReplaceApp(apps, updated) == apps
  {
  }

  /** Deleting an app removes it and exactly the cases that belong to it; every other app and
      case is kept, in order. */
  lemma DeleteAppSpec(apps: seq<AppDef>, cases: seq<Case>, id: string)
    ensures var apps' := Filter(apps, NotApp(id));
            var cases' := Filter(cases, NotInApp(id));
            (forall a :: a in apps' ==> a.id != id) && (forall c :: c in cases' ==> c.appId != id) &&
            (forall a :: a in apps && a.id != id ==> a in apps') &&
            (forall c :: c in cases && c.appId != id ==> c in cases') &&
            IsSubsequence(apps', apps) && IsSubsequence(cases', cases)
  {
    var apps' := Filter(apps, NotApp(id));
    var cases' := Filter(cases, NotInApp(id));
    FilterIsSubsequence(apps, NotApp(id));
    FilterIsSubsequence(cases, NotInApp(id));
    forall a | a in apps' ensures a.id != id {
      var k :| 0 <= k < |apps'| && apps'[k] == a;
    }
    forall c | c in cases' ensures c.appId != id {
      var k :| 0 <= k < |cases'| && cases'[k] == c;
    }
    forall a | a in apps && a.id != id ensures a in apps' {
      var k :| 0 <= k < |apps| && apps[k] == a;
    }
    forall c | c in cases && c.appId != id ensures c in cases' {
      var k :| 0 <= k < |cases| && cases[k] == c;
    }
  }

  /** After the cascade every remaining case still belongs to a remaining app. */
  lemma DeleteAppKeepsOwnership(apps: seq<AppDef>, cases: seq<Case>, id: string)
    requires CasesInApps(apps, cases)
    ensures CasesInApps(Filter(apps, NotApp(id)), Filter(cases, NotInApp(id)))
  {
    var apps' := Filter(apps, NotApp(id));
    var cases' := Filter(cases, NotInApp(id));
    forall i | 0 <= i < |cases'| ensures HasApp(apps', cases'[i].appId) {
      var c := cases'[i];
      var k :| 0 <= k < |cases| && cases[k] == c;
      assert HasApp(apps, c.appId);
      var j :| 0 <= j < |apps| && apps[j].id == c.appId;
      assert apps[j] in apps';
      var j' :| 0 <= j' < |apps'| && apps'[j'] == apps[j];
      assert apps'[j'].id == c.appId;
    }
  }

  /** A new app takes no case away from the app it belongs to. */
  lemma AppendAppKeepsOwnership(apps: seq<AppDef>, cases: seq<Case>, app: AppDef)
    requires CasesInApps(apps, cases)
    ensures CasesInApps(apps + [app], cases)
  {
    var all := apps + [app];
    forall i | 0 <= i < |cases| ensures HasApp(all, cases[i].appId) {
      assert HasApp(apps, cases[i].appId);
      var j :| 0 <= j < |apps| && apps[j].id == cases[i].appId;
      assert all[j].id == cases[i].appId;
    }
  }

  /** Replacing an app keeps every app id, so every case still belongs to an app. */
  lemma ReplaceAppKeepsOwnership(apps: seq<AppDef>, cases: seq<Case>, updated: AppDef)
    requires CasesInApps(apps, cases)
    ensures CasesInApps(ReplaceApp(apps, updated), cases)
  {
    var r := ReplaceApp(apps, updated);
    forall i | 0 <= i < |cases| ensures HasApp(r, cases[i].appId) {
      assert HasApp(apps, cases[i].appId);
      var j :| 0 <= j < |apps| && apps[j].id == cases[i].appId;
      assert r[j].id == cases[i].appId;
    }
  }

  /** After adding, the events are sorted by start time, are the old ones plus the new one, the
      new one no earlier than any event already starting at its time (given those were in
      order, each start time's events keep their order). */
  lemma InsertEventSpec(events: seq<CalendarEvent>, e: CalendarEvent)
    ensures SortedBy(InsertEvent(events, e), EventStart)
    ensures multiset(InsertEvent(events, e)) == multiset(events) + multiset{e}
    ensures e in InsertEvent(events, e)
    ensures forall k :: WithKey(InsertEvent(events, e), EventStart, k) == WithKey(events + [e], EventStart, k)
  {
    assert multiset(events + [e]) == multiset(events) + multiset{e};
    assert e in multiset(InsertEvent(events, e));
    forall k ensures WithKey(InsertEvent(events, e), EventStart, k) == WithKey(events + [e], EventStart, k) {
      SortByStable(events + [e], EventStart, k);
    }
  }

  /** What the calendar form hands over: an event without its id and source. */
  datatype EventDraft = EventDraft(title: string, description: string, start: int, end: int)

  class AppStore {
    var apps: seq<AppDef>
    var cases: seq<Case>
    var localEvents: seq<CalendarEvent>
    var selectedAppId: Option<string>
    var caseToOpenId: Option<string>

    /** The store as the page starts: the seeded apps and cases, the given initial events and
        nothing open. */
    constructor (initialEvents: seq<CalendarEvent>)
      ensures apps == InitialApps() && cases == InitialCases() && localEvents == initialEvents
      ensures selectedAppId.None? && caseToOpenId.None?
    {
      apps := InitialApps();
      cases := InitialCases();
      localEvents := initialEvents;
      selectedAppId := None;
      caseToOpenId := None;
    }

    /** `handleSelectApp`: opens the app, and the case too when a non-empty id is given. */
    method SelectApp(appId: string, caseId: Option<string>)
      modifies this
      ensures selectedAppId == Some(appId)
      ensures caseToOpenId == (if Truthy(caseId) then caseId else None)
      ensures apps == old(apps) && cases == old(cases) && localEvents == old(localEvents)
    {
      selectedAppId := Some(appId);
      caseToOpenId := if Truthy(caseId) then caseId else None;
    }

    /** `handleExitApp`: closes the app and forgets the case to open. */
    method ExitApp()
      modifies this
      ensures selectedAppId.None? && caseToOpenId.None?
      ensures apps == old(apps) && cases == old(cases) && localEvents == old(localEvents)
    {
      selectedAppId := None;
      caseToOpenId := None;
    }

    /** `handleAddCase`: the new case goes in front of the existing ones. */
    method AddCase(c: Case)
      modifies this
      ensures cases == [c] + old(cases)
      ensures apps == old(apps) && localEvents == old(localEvents)
      ensures selectedAppId == old(selectedAppId) && caseToOpenId == old(caseToOpenId)
      ensures CasesInApps(old(apps), old(cases)) && HasApp(apps, c.appId) ==>
                CasesInApps(apps, cases)
    {
      cases := [c] + cases;
      assert forall i :: 1 <= i < |cases| ==> cases[i] == old(cases)[i - 1];
    }

    /** `handleUpdateCase`. */
    method UpdateCase(updated: Case)
      modifies this
      ensures cases == ReplaceCase(old(cases), updated)
      ensures apps == old(apps) && localEvents == old(localEvents)
      ensures selectedAppId == old(selectedAppId) && caseToOpenId == old(caseToOpenId)
      ensures CasesInApps(old(apps), old(cases)) && HasApp(apps, updated.appId) ==>
                CasesInApps(apps, cases)
    {
      cases := ReplaceCase(cases, updated);
    }

    /** `handleAddEvent`: the event gets its id and the local source, and the list stays sorted
        by start time. */
    method AddEvent(draft: EventDraft, id: string)
      modifies this
      ensures localEvents == InsertEvent(old(localEvents), CalendarEvent(id, draft.title, draft.description, draft.start, draft.end, Local))
      ensures apps == old(apps) && cases == old(cases)
      ensures selectedAppId == old(selectedAppId) && caseToOpenId == old(caseToOpenId)
    {
      localEvents := InsertEvent(localEvents, CalendarEvent(id, draft.title, draft.description, draft.start, draft.end, Local));
    }

    /** `handleCreateApp`: the app gets its id and is appended. */
    method CreateApp(draft: AppDraft, id: string)
      modifies this
      ensures apps == old(apps) + [AppDef(id, draft.name, draft.icon, draft.themeColor, draft.workflow)]
      ensures cases == old(cases) && localEvents == old(localEvents)
      ensures selectedAppId == old(selectedAppId) && caseToOpenId == old(caseToOpenId)
      ensures CasesInApps(old(apps), old(cases)) ==> CasesInApps(apps, cases)
    {
      var app := AppDef(id, draft.name, draft.icon, draft.themeColor, draft.workflow);
      if CasesInApps(apps, cases) {
        AppendAppKeepsOwnership(apps, cases, app);
      }
      apps := apps + [app];
    }

    /** `handleUpdateApp`. */
    method UpdateApp(updated: AppDef)
      modifies this
      ensures apps == ReplaceApp(old(apps), updated)
      ensures cases == old(cases) && localEvents == old(localEvents)
      ensures selectedAppId == old(selectedAppId) && caseToOpenId == old(caseToOpenId)
      ensures CasesInApps(old(apps), old(cases)) ==> CasesInApps(apps, cases)
    {
      if CasesInApps(apps, cases) {
        ReplaceAppKeepsOwnership(apps, cases, updated);
      }
      apps := ReplaceApp(apps, updated);
    }

    /** `handleDeleteApp`: the app goes, and with it every case that belongs to it. */
    method DeleteApp(id: string)
      modifies this
      ensures apps == Filter(old(apps), NotApp(id)) && cases == Filter(old(cases), NotInApp(id))
      ensures localEvents == old(localEvents)
      ensures selectedAppId == old(selectedAppId) && caseToOpenId == old(caseToOpenId)
      ensures CasesInApps(old(apps), old(cases)) ==> CasesInApps(apps, cases)
    {
      if CasesInApps(apps, cases) {
        DeleteAppKeepsOwnership(apps, cases, id);
      }
      apps := Filter(apps, NotApp(id));
      cases := Filter(cases, NotInApp(id));
    }
  }
}
