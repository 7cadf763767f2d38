/**
 Overlapping rollout runs on one database, statement by statement. The advisory lock lets one
 transaction in at a time; its writes stay invisible and its updated rows stay locked until it commits.
 Between any two statements every other writer may do anything to the other rows: administrators
 clear flags, people change passwords, accounts are added, edited and deleted.
 */
module RolloutHistory {
  import opened Wrappers
  import opened Accounts
  import opened Rollout

  datatype Phase = Deciding | Updating | Inserting(ids: set<nat>)

  /** The transaction that holds the lock. `flagged` are the rows it has updated. */
  datatype Txn = Txn(scope: Scope, skip: seq<string>, todo: seq<Group>, phase: Phase,
                     flagged: set<nat>, newMarkers: map<Group, Marker>)

  /** The committed data, and the lock holder's transaction if there is one. */
  datatype Sys = Sys(db: Db, txn: Option<Txn>)

  datatype Event =
    | Begin(scope: Scope, skip: seq<string>)
    | Decide
    | Update
    | Insert
    | Commit
    | Abort
    | Edit(id: nat, row: Option<User>)

  predicate Enabled(s: Sys, e: Event) {
    match e
    case Begin(_, _) => s.txn.None?
    case Decide => s.txn.Some? && s.txn.value.phase.Deciding? && s.txn.value.todo != []
    case Update => s.txn.Some? && s.txn.value.phase.Updating? && s.txn.value.todo != []
    case Insert => s.txn.Some? && s.txn.value.phase.Inserting? && s.txn.value.todo != []
    case Commit => s.txn.Some? && s.txn.value.phase.Deciding? && s.txn.value.todo == []
    case Abort => s.txn.Some?
    case Edit(id, _) => s.txn.Some? ==> id !in s.txn.value.flagged
  }

  function Next(s: Sys, e: Event): Sys
    requires Enabled(s, e)
  {
    match e
    case Begin(scope, skip) => s.(txn := Some(Txn(scope, skip, GroupsFor(scope), Deciding, {}, map[])))
    case Decide =>
      var t := s.txn.value;
      if t.todo[0] in MarkersOf(s.db) || t.todo[0] in t.newMarkers then s.(txn := Some(t.(todo := t.todo[1..])))
      else s.(txn := Some(t.(phase := Updating)))
    case Update =>
      var t := s.txn.value;
      var ids := SelectedIds(t.todo[0], FlagUsers(s.db.users, t.flagged), t.skip);
      s.(txn := Some(t.(phase := Inserting(ids), flagged := t.flagged + ids)))
    case Insert =>
      var t := s.txn.value;
      var marker := Marker(t.scope, |t.phase.ids|, t.phase.ids);
      s.(txn := Some(t.(phase := Deciding, todo := t.todo[1..], newMarkers := t.newMarkers[t.todo[0] := marker])))
    case Commit =>
      var t := s.txn.value;
      Sys(Db(FlagUsers(s.db.users, t.flagged), Some(MarkersOf(s.db) + t.newMarkers)), None)
    case Abort => s.(txn := None)
    case Edit(id, row) => s.(db := s.db.(users := SetRow(s.db.users, id, row)))
  }

  // ----- The invariant

  /** These rows are still as the UPDATE found them: selected by this group. */
  ghost predicate StillSelected(users: Users, g: Group, ids: set<nat>, skip: seq<string>) {
    forall id :: id in ids ==> id in users && Selected(g, users[id], skip)
  }

  ghost predicate RecordedIn(id: nat, markers: map<Group, Marker>) {
    exists g :: g in markers && id in markers[g].flaggedIds
  }

  ghost predicate TxnValid(db: Db, t: Txn) {
    && (t.phase.Deciding? || (t.todo != [] && t.todo[0] !in t.newMarkers && t.todo[0] !in MarkersOf(db)))
    && t.newMarkers.Keys !! MarkersOf(db).Keys
    && (forall g :: g in t.newMarkers ==> t.newMarkers[g].flaggedCount == |t.newMarkers[g].flaggedIds|)
    && (forall g :: g in t.newMarkers ==> StillSelected(db.users, g, t.newMarkers[g].flaggedIds, t.skip))
    && (forall g :: g in t.newMarkers ==> t.newMarkers[g].flaggedIds <= t.flagged)
    && (t.phase.Inserting? ==> t.phase.ids <= t.flagged && StillSelected(db.users, t.todo[0], t.phase.ids, t.skip))
    && (forall id :: id in t.flagged ==> RecordedIn(id, t.newMarkers) || (t.phase.Inserting? && id in t.phase.ids))
    && (forall g :: g in GroupsFor(t.scope) ==> g in t.todo || g in t.newMarkers || g in MarkersOf(db))
  }

  ghost predicate Valid(s: Sys) {
    s.txn.Some? ==> TxnValid(s.db, s.txn.value)
  }

  lemma UpdateValid(s: Sys)
    requires Valid(s) && Enabled(s, Update)
    ensures Valid(Next(s, Update))
  {
    var t := s.txn.value;
    var ids := SelectedIds(t.todo[0], FlagUsers(s.db.users, t.flagged), t.skip);
    forall id | id in ids ensures Selected(t.todo[0], s.db.users[id], t.skip) {
      SelectedMeaning(t.todo[0], FlagUsers(s.db.users, t.flagged)[id], t.skip);
    }
  }

  lemma InsertValid(s: Sys)
    requires Valid(s) && Enabled(s, Insert)
    ensures Valid(Next(s, Insert))
  {
    var t, t' := s.txn.value, Next(s, Insert).txn.value;
    hide StillSelected, Selected;
    forall id | id in t'.flagged ensures RecordedIn(id, t'.newMarkers) {
      if RecordedIn(id, t.newMarkers) {
        var g :| g in t.newMarkers && id in t.newMarkers[g].flaggedIds;
        assert g in t'.newMarkers && t'.newMarkers[g] == t.newMarkers[g];
      } else {
        assert t.todo[0] in t'.newMarkers && id in t'.newMarkers[t.todo[0]].flaggedIds;
      }
    }
  }

  /** Every step of every run and of every other writer keeps the invariant. */
  lemma NextValid(s: Sys, e: Event)
    requires Valid(s) && Enabled(s, e)
    ensures Valid(Next(s, e))
  {
    match e
    case Update => UpdateValid(s);
    case Insert => InsertValid(s);
    case Begin(_, _) =>
    case Decide =>
    case Commit =>
    case Abort =>
    case Edit(_, _) => assert MarkersOf(Next(s, e).db) == MarkersOf(s.db);
  }

  // ----- Histories

  function After(s: Sys, tr: seq<Event>): Option<Sys> {
    if tr == [] then Some(s)
    else
      match After(s, tr[..|tr| - 1])
      case None => None
      case Some(before) => if Enabled(before, tr[|tr| - 1]) then Some(Next(before, tr[|tr| - 1])) else None
  }

  lemma {:induction false} AfterValid(s: Sys, tr: seq<Event>)
    requires Valid(s) && After(s, tr).Some?
    ensures Valid(After(s, tr).value)
  {
    if tr != [] {
      AfterValid(s, tr[..|tr| - 1]);
      NextValid(After(s, tr[..|tr| - 1]).value, tr[|tr| - 1]);
    }
  }

  /** How many commits of the history contain group g's UPDATE. */
  function Flaggings(s: Sys, tr: seq<Event>, g: Group): nat
    requires After(s, tr).Some?
  {
    if tr == [] then 0
    else
      var before := After(s, tr[..|tr| - 1]).value;
      Flaggings(s, tr[..|tr| - 1], g) +
      (if tr[|tr| - 1].Commit? && g in before.txn.value.newMarkers then 1 else 0)
  }

  /**
   Over every history of overlapping runs, with any scopes and skip lists, failures and other writers,
   a group's UPDATE commits at most once, and never once its marker exists: its number of commits is
   exactly the marker's appearance. A marker, once written, never changes.
   */
  lemma {:induction false} FlaggedAtMostOnce(s: Sys, tr: seq<Event>, g: Group)
    requires Valid(s) && After(s, tr).Some?
    ensures
      var after := After(s, tr).value;
      && (if g in MarkersOf(s.db) then 1 else 0) + Flaggings(s, tr, g) == (if g in MarkersOf(after.db) then 1 else 0)
      && (g in MarkersOf(s.db) ==> MarkersOf(after.db)[g] == MarkersOf(s.db)[g])
  {
    hide TxnValid;
    if tr != [] {
      var before, e := After(s, tr[..|tr| - 1]).value, tr[|tr| - 1];
      AfterValid(s, tr[..|tr| - 1]);
      FlaggedAtMostOnce(s, tr[..|tr| - 1], g);
      MarkersStep(before, e, g);
    }
  }

  lemma MarkersStep(s: Sys, e: Event, g: Group)
    requires Valid(s) && Enabled(s, e)
    ensures
      var adds := e.Commit? && g in s.txn.value.newMarkers;
      var before, after := MarkersOf(s.db), MarkersOf(Next(s, e).db);
      && (adds ==> g !in before)
      && (g in after <==> g in before || adds)
      && (g in before ==> after[g] == before[g])
  {
  }

  /**
   A commit changes exactly the rows its new markers record; each of them was, until the commit, an unflagged
   account its group's UPDATE selects. Afterwards every group of the run's scope has its marker.
   */
  lemma CommitFlagsWhatItRecords(s: Sys, id: nat)
    requires Valid(s) && Enabled(s, Commit)
    ensures
      var t, after := s.txn.value, Next(s, Commit).db;
      && (RowOf(after.users, id) != RowOf(s.db.users, id) <==> RecordedIn(id, t.newMarkers))
      && (forall g :: g in t.newMarkers ==> g !in MarkersOf(s.db) && MarkersOf(after)[g] == t.newMarkers[g])
      && (forall g :: g in t.newMarkers && id in t.newMarkers[g].flaggedIds ==>
            id in s.db.users && Selected(g, s.db.users[id], t.skip)
            && after.users[id] == s.db.users[id].(mustChange := true))
      && (forall g :: g in GroupsFor(t.scope) ==> g in MarkersOf(after))
  {
    var t := s.txn.value;
    if RecordedIn(id, t.newMarkers) {
      var g :| g in t.newMarkers && id in t.newMarkers[g].flaggedIds;
      assert StillSelected(s.db.users, g, t.newMarkers[g].flaggedIds, t.skip);
      SelectedMeaning(g, s.db.users[id], t.skip);
    }
  }

  /** The other writers' part of a history. */
  function EditOf(e: Event): Option<RowEdit> {
    if e.Edit? then Some(RowEdit(e.id, e.row)) else None
  }

  /** In every state of the history, account `id` is absent or in group g. */
  ghost predicate StaysIn(s: Sys, tr: seq<Event>, id: nat, g: Group)
    requires After(s, tr).Some?
  {
    && (id in After(s, tr).value.db.users ==> InGroup(g, After(s, tr).value.db.users[id]))
    && (tr != [] ==> StaysIn(s, tr[..|tr| - 1], id, g))
  }

  /**
   Once a group has its marker, no rollout ever touches an account of that group again: after any history
   its row is what the other writers alone made it. A flag an administrator cleared stays cleared.
   */
  lemma {:induction false} NeverFlaggedAgain(s: Sys, tr: seq<Event>, id: nat, g: Group)
    requires Valid(s) && After(s, tr).Some?
    requires g in MarkersOf(s.db) && StaysIn(s, tr, id, g)
    ensures RowOf(After(s, tr).value.db.users, id) == EditedRow(RowOf(s.db.users, id), tr, EditOf, id)
  {
    hide TxnValid, Selected, StillSelected;
    if tr != [] {
      var init, e := tr[..|tr| - 1], tr[|tr| - 1];
      var before := After(s, init).value;
      NeverFlaggedAgain(s, init, id, g);
      AfterValid(s, init);
      FlaggedAtMostOnce(s, init, g);
      if e.Commit? {
        CommitSparesMarkedGroups(before, id, g);
      }
    }
  }

  lemma CommitSparesMarkedGroups(s: Sys, id: nat, g: Group)
    requires Valid(s) && Enabled(s, Commit) && g in MarkersOf(s.db)
    requires id in s.db.users ==> InGroup(g, s.db.users[id])
    ensures RowOf(Next(s, Commit).db.users, id) == RowOf(s.db.users, id)
  {
    hide TxnValid, Selected, StillSelected;
    CommitFlagsWhatItRecords(s, id);
    var t := s.txn.value;
    if RecordedIn(id, t.newMarkers) {
      var h :| h in t.newMarkers && id in t.newMarkers[h].flaggedIds;
      SelectedMeaning(h, s.db.users[id], t.skip);
    }
  }

  // ----- A transaction nobody interferes with

  /** The database as the first k groups of the scope leave it. */
  function SoFar(db: Db, scope: Scope, skip: seq<string>, k: nat): Db
    requires k <= |GroupsFor(scope)|
  {
    ApplyGroups(db.(markers := Some(MarkersOf(db))), GroupsFor(scope)[..k], scope, skip)
  }

  lemma SoFarStep(db: Db, scope: Scope, skip: seq<string>, k: nat)
    requires k < |GroupsFor(scope)|
    ensures SoFar(db, scope, skip, k + 1) == ApplyGroup(SoFar(db, scope, skip, k), GroupsFor(scope)[k], scope, skip)
  {
    ApplyGroupsStep(db.(markers := Some(MarkersOf(db))), GroupsFor(scope), k, scope, skip);
  }

  /** What the transaction would commit if it stopped before the current group. */
  ghost predicate InProgress(db: Db, t: Txn) {
    var groups := GroupsFor(t.scope);
    && |t.todo| <= |groups|
    && var k := |groups| - |t.todo|;
    && t.todo == groups[k..]
    && var soFar := SoFar(db, t.scope, t.skip, k);
    && soFar.markers == Some(MarkersOf(db) + t.newMarkers)
    && (!t.phase.Deciding? ==> k < |groups| && groups[k] !in soFar.markers.value)
    && (if t.phase.Inserting?
        then t.phase.ids == SelectedIds(groups[k], soFar.users, t.skip)
             && FlagUsers(db.users, t.flagged) == FlagUsers(soFar.users, t.phase.ids)
        else FlagUsers(db.users, t.flagged) == soFar.users)
  }

  predicate OwnStep(e: Event) {
    e.Decide? || e.Update? || e.Insert?
  }

  lemma FlagTwice(users: Users, a: set<nat>, b: set<nat>)
    ensures FlagUsers(users, a + b) == FlagUsers(FlagUsers(users, a), b)
  {
  }

  /** One more group of the loop, as far as the prefix of the group list is concerned. */
  lemma GroupsPrefix(groups: seq<Group>, k: nat, todo: seq<Group>)
    requires k < |groups| && todo == groups[k..]
    ensures groups[k] == todo[0] && todo[1..] == groups[k + 1..]
  {
  }

  lemma BeginProgress(db: Db, scope: Scope, skip: seq<string>)
    ensures InProgress(db, Txn(scope, skip, GroupsFor(scope), Deciding, {}, map[]))
  {
    var groups := GroupsFor(scope);
    var start := db.(markers := Some(MarkersOf(db)));
    assert groups[..0] == [] && groups[0..] == groups;
    assert SoFar(db, scope, skip, 0) == start;
    assert MarkersOf(db) + map[] == MarkersOf(db);
    assert FlagUsers(db.users, {}) == db.users;
  }

  lemma DecideProgress(s: Sys)
    requires s.txn.Some? && Enabled(s, Decide) && InProgress(s.db, s.txn.value)
    ensures InProgress(s.db, Next(s, Decide).txn.value)
  {
    hide SelectedIds, FlagUsers, SoFar, GroupsFor, ApplyGroup;
    var t := s.txn.value;
    var k := |GroupsFor(t.scope)| - |t.todo|;
    GroupsPrefix(GroupsFor(t.scope), k, t.todo);
    SoFarStep(s.db, t.scope, t.skip, k);
    if t.todo[0] in MarkersOf(s.db) || t.todo[0] in t.newMarkers {
      MarkedIsSkipped(SoFar(s.db, t.scope, t.skip, k), t.todo[0], t.scope, t.skip);
    }
  }

  lemma MarkedIsSkipped(db: Db, g: Group, scope: Scope, skip: seq<string>)
    requires g in MarkersOf(db)
    ensures ApplyGroup(db, g, scope, skip) == db
  {
  }

  lemma UpdateProgress(s: Sys)
    requires s.txn.Some? && Enabled(s, Update) && InProgress(s.db, s.txn.value)
    ensures InProgress(s.db, Next(s, Update).txn.value)
  {
    hide SelectedIds, FlagUsers, SoFar, GroupsFor;
    var t := s.txn.value;
    GroupsPrefix(GroupsFor(t.scope), |GroupsFor(t.scope)| - |t.todo|, t.todo);
    FlagTwice(s.db.users, t.flagged, SelectedIds(t.todo[0], FlagUsers(s.db.users, t.flagged), t.skip));
  }

  lemma InsertProgress(s: Sys)
    requires s.txn.Some? && Enabled(s, Insert) && InProgress(s.db, s.txn.value)
    ensures InProgress(s.db, Next(s, Insert).txn.value)
  {
    hide SelectedIds, FlagUsers, SoFar, GroupsFor;
    var t, t' := s.txn.value, Next(s, Insert).txn.value;
    var g := t.todo[0];
    var k := |GroupsFor(t.scope)| - |t.todo|;
    GroupsPrefix(GroupsFor(t.scope), k, t.todo);
    SoFarStep(s.db, t.scope, t.skip, k);
    assert (MarkersOf(s.db) + t.newMarkers)[g := t'.newMarkers[g]] == MarkersOf(s.db) + t'.newMarkers;
  }

  lemma OwnStepProgress(s: Sys, e: Event)
    requires s.txn.Some? && Enabled(s, e) && OwnStep(e) && InProgress(s.db, s.txn.value)
    ensures Next(s, e).db == s.db && Next(s, e).txn.Some? && InProgress(s.db, Next(s, e).txn.value)
    ensures Next(s, e).txn.value.scope == s.txn.value.scope && Next(s, e).txn.value.skip == s.txn.value.skip
  {
    hide InProgress;
    match e
    case Decide => DecideProgress(s);
    case Update => UpdateProgress(s);
    case Insert => InsertProgress(s);
  }

  lemma {:induction false} OwnStepsProgress(s: Sys, tr: seq<Event>)
    requires s.txn.Some? && InProgress(s.db, s.txn.value) && After(s, tr).Some?
    requires forall k :: 0 <= k < |tr| ==> OwnStep(tr[k])
    ensures
      var after := After(s, tr).value;
      && after.db == s.db && after.txn.Some? && InProgress(s.db, after.txn.value)
      && after.txn.value.scope == s.txn.value.scope && after.txn.value.skip == s.txn.value.skip
  {
    hide InProgress;
    if tr != [] {
      OwnStepsProgress(s, tr[..|tr| - 1]);
      OwnStepProgress(After(s, tr[..|tr| - 1]).value, tr[|tr| - 1]);
    }
  }

  /** With no other writer in between, the statements together have the effect `Applied` gives in one formula. */
  lemma UndisturbedRunIsApplied(s: Sys, scope: Scope, skip: seq<string>, own: seq<Event>)
    requires s.txn.None? && (forall k :: 0 <= k < |own| ==> OwnStep(own[k]))
    requires
      var begun := Next(s, Begin(scope, skip));
      After(begun, own).Some? && Enabled(After(begun, own).value, Commit)
    ensures Next(After(Next(s, Begin(scope, skip)), own).value, Commit).db == Applied(s.db, scope, skip)
  {
    hide InProgress, FlagUsers, ApplyGroups;
    BeginProgress(s.db, scope, skip);
    OwnStepsProgress(Next(s, Begin(scope, skip)), own);
    CommitProgress(After(Next(s, Begin(scope, skip)), own).value);
  }

  lemma CommitProgress(s: Sys)
    requires Enabled(s, Commit) && InProgress(s.db, s.txn.value)
    ensures Next(s, Commit).db == Applied(s.db, s.txn.value.scope, s.txn.value.skip)
  {
    hide FlagUsers, ApplyGroups;
    var groups := GroupsFor(s.txn.value.scope);
    assert groups[..|groups|] == groups;
  }

  /** An event at the front of a history. */
  lemma {:induction false} AfterFirst(s: Sys, e: Event, tr: seq<Event>)
    requires Enabled(s, e)
    ensures After(s, [e] + tr) == After(Next(s, e), tr)
  {
    hide Next, Enabled;
    if tr == [] {
      assert [e] + tr == [e] && [e][..0] == [];
    } else {
      var n := |tr| - 1;
      AfterFirst(s, e, tr[..n]);
      assert ([e] + tr)[..n + 1] == [e] + tr[..n];
    }
  }

  /** At every point of a transaction exactly one statement is next, whatever the other writers have done. */
  lemma OneStatementNext(s: Sys)
    requires Valid(s) && s.txn.Some?
    ensures
      var next := [Enabled(s, Decide), Enabled(s, Update), Enabled(s, Insert), Enabled(s, Commit)];
      exists k :: 0 <= k < 4 && next[k] && forall j :: 0 <= j < 4 && j != k ==> !next[j]
  {
    var next := [Enabled(s, Decide), Enabled(s, Update), Enabled(s, Insert), Enabled(s, Commit)];
    var t := s.txn.value;
    assert next[if t.phase.Updating? then 1 else if t.phase.Inserting? then 2 else if t.todo != [] then 0 else 3];
  }

  /** Only a transaction keeps the next one out, and only the rows it has updated keep other writers out. */
  lemma WhoWaits(s: Sys, scope: Scope, skip: seq<string>, id: nat, row: Option<User>)
    ensures Enabled(s, Begin(scope, skip)) <==> s.txn.None?
    ensures Enabled(s, Edit(id, row)) <==> s.txn.None? || id !in s.txn.value.flagged
    ensures s.txn.Some? ==> Enabled(s, Abort) && Next(s, Abort) == Sys(s.db, None)
  {
  }

  /** A transaction left alone gets to its commit, however far it is. */
  lemma {:induction false} ReachesCommit(s: Sys) returns (own: seq<Event>)
    requires Valid(s) && s.txn.Some?
    ensures forall k :: 0 <= k < |own| ==> OwnStep(own[k])
    ensures After(s, own).Some? && Enabled(After(s, own).value, Commit)
    decreases |s.txn.value.todo|,
              if s.txn.value.phase.Deciding? then 2 else if s.txn.value.phase.Updating? then 1 else 0
  {
    var t := s.txn.value;
    if t.phase.Deciding? && t.todo == [] {
      own := [];
    } else {
      var e := if t.phase.Deciding? then Decide else if t.phase.Updating? then Update else Insert;
      NextValid(s, e);
      var rest := ReachesCommit(Next(s, e));
      AfterFirst(s, e, rest);
      own := [e] + rest;
    }
  }

  /** So a rollout nobody interferes with can be run to its end, and then `Applied` is what it has done. */
  lemma UndisturbedRunFinishes(s: Sys, scope: Scope, skip: seq<string>) returns (own: seq<Event>)
    requires s.txn.None?
    ensures
      var end := After(Next(s, Begin(scope, skip)), own);
      && end.Some? && Enabled(end.value, Commit)
      && Next(end.value, Commit) == Sys(Applied(s.db, scope, skip), None)
  {
    NextValid(s, Begin(scope, skip));
    own := ReachesCommit(Next(s, Begin(scope, skip)));
    UndisturbedRunIsApplied(s, scope, skip, own);
  }

  /** Without a commit the runs change nothing at all: crashed and unfinished transactions leave no trace. */
  lemma {:induction false} OnlyCommitsChange(s: Sys, tr: seq<Event>, id: nat)
    requires After(s, tr).Some? && forall k :: 0 <= k < |tr| ==> !tr[k].Commit?
    ensures
      var after := After(s, tr).value.db;
      && RowOf(after.users, id) == EditedRow(RowOf(s.db.users, id), tr, EditOf, id)
      && after.markers == s.db.markers
  {
    if tr != [] {
      OnlyCommitsChange(s, tr[..|tr| - 1], id);
    }
  }
}
