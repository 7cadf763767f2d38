/**
 A whole rollout run over many databases, and sequences of such runs. A database is one object
 here; the `Plan` functions say what a run does to all of them in closed form.
 */
module RolloutRun {
  import opened Wrappers
  import opened Accounts
  import opened Rollout

  datatype Options = Options(apply: bool, scope: Scope, skip: seq<string>)

  /** How a database answers the preflight: usable, not usable, or not existing at all (error 3D000). */
  datatype Condition = Ready | NotReady | Missing

  datatype Report = Report(ok: bool, applied: nat, ready: nat, failures: nat)

  // ----- One run in closed form

  datatype Target = Target(db: Db, condition: Condition, skipIfMissing: bool, applyFails: bool)

  predicate PreflightOk(t: Target) {
    t.condition.Ready? || (t.condition.Missing? && t.skipIfMissing)
  }

  function CountReady(ts: seq<Target>): nat {
    if ts == [] then 0 else CountReady(ts[..|ts| - 1]) + (if ts[|ts| - 1].condition.Ready? then 1 else 0)
  }

  function CountFailed(ts: seq<Target>): nat {
    if ts == [] then 0 else CountFailed(ts[..|ts| - 1]) + (if PreflightOk(ts[|ts| - 1]) then 0 else 1)
  }

  /** A target the apply phase works on. */
  predicate Pending(t: Target, scope: Scope) {
    t.condition.Ready? && HasOpen(t.db, scope)
  }

  function CountPending(ts: seq<Target>, scope: Scope): nat {
    if ts == [] then 0 else CountPending(ts[..|ts| - 1], scope) + (if Pending(ts[|ts| - 1], scope) then 1 else 0)
  }

  /** The first target whose transaction fails, or the end. */
  function Stop(ts: seq<Target>, scope: Scope): (k: nat)
    ensures k <= |ts|
    ensures forall i :: 0 <= i < k ==> !(Pending(ts[i], scope) && ts[i].applyFails)
    ensures k < |ts| ==> Pending(ts[k], scope) && ts[k].applyFails
  {
    if ts == [] then 0
    else if Pending(ts[0], scope) && ts[0].applyFails then 0
    else
      1 + Stop(ts[1..], scope)
  }

  /** How far the run gets: nowhere on a dry run or when any preflight fails. */
  function Reach(ts: seq<Target>, o: Options): nat {
    if !o.apply || CountFailed(ts) > 0 then 0 else Stop(ts, o.scope)
  }

  /** Target i's database after the run: the ready ones before the stop are applied, all others untouched. */
  function DbAfter(ts: seq<Target>, o: Options, i: nat): Db
    requires i < |ts|
  {
    if i < Reach(ts, o) && ts[i].condition.Ready? then Applied(ts[i].db, o.scope, o.skip) else ts[i].db
  }

  function ReportOf(ts: seq<Target>, o: Options): Report {
    var k := Stop(ts, o.scope);
    if CountFailed(ts) > 0 then Report(false, 0, CountReady(ts), CountFailed(ts))
    else if !o.apply then Report(true, 0, CountReady(ts), 0)
    else Report(k == |ts|, CountPending(ts[..k], o.scope), CountReady(ts), if k == |ts| then 0 else 1)
  }

  // ----- The program

  class Database {
    var users: Users
    var markers: Option<map<Group, Marker>>

    constructor (users: Users)
      ensures State() == Db(users, None)
    {
      this.users, markers := users, None;
    }

    ghost function State(): Db
      reads this
    {
      Db(users, markers)
    }

    /** The counting part of `preflightDatabase`; it only reads. */
    method Preflight(scope: Scope, skip: seq<string>) returns (open: map<Group, nat>, already: seq<Group>)
      ensures open.Keys == OpenGroups(State(), scope)
      ensures forall g :: g in open ==> open[g] == |SelectedIds(g, users, skip)|
      ensures forall g :: g in already <==> g in GroupsFor(scope) && g !in open
      ensures |open| + |already| == |GroupsFor(scope)|
    {
      open, already := map[], [];
      var groups := GroupsFor(scope);
      for i := 0 to |groups|
        invariant forall g :: g in open <==> g in groups[..i] && g !in MarkersOf(State())
        invariant forall g :: g in open ==> open[g] == |SelectedIds(g, users, skip)|
        invariant forall g :: g in already <==> g in groups[..i] && g in MarkersOf(State())
        invariant |open| + |already| == i
      {
        var g := groups[i];
        assert g !in groups[..i];
        if markers.Some? && g in markers.value {
          already := already + [g];
        } else {
          open := open[g := |SelectedIds(g, users, skip)|];
        }
        assert groups[..i + 1] == groups[..i] + [g];
      }
      assert groups[..|groups|] == groups;
    }

    /**
     One transaction. `failAt` is the number of the statement that throws (the commit at the latest);
     the writes live on the connection until the commit.
     */
    method ApplyDatabase(scope: Scope, skip: seq<string>, failAt: Option<nat>)
      returns (flagged: Option<map<Group, nat>>)
      modifies this
      ensures flagged.Some? <==> failAt.None?
      ensures flagged.None? ==> State() == old(State())
      ensures flagged.Some? ==> State() == Applied(old(State()), scope, skip)
      ensures flagged.Some? ==> flagged.value.Keys == OpenGroups(old(State()), scope)
      ensures flagged.Some? ==> forall g :: g in flagged.value ==>
              flagged.value[g] == |SelectedIds(g, old(users), skip)|
    {
      if failAt.Some? && failAt.value < 3 {
        return None;
      }
      var draft := FlagGroups(Db(users, Some(if markers.Some? then markers.value else map[])), scope, skip, failAt);
      assert Applied(Db(users, Some(MarkersOf(State()))), scope, skip) == Applied(State(), scope, skip);
      if draft.None? || failAt.Some? {
        return None;
      }
      users, markers := draft.value.0.users, draft.value.0.markers;
      flagged := Some(draft.value.1);
    }
  }

  /**
   The loop of `applyDatabase` over the transaction's own view; statements 3 and later happen here. No result means
   that a statement threw.
   */
  method FlagGroups(db: Db, scope: Scope, skip: seq<string>, failAt: Option<nat>)
    returns (r: Option<(Db, map<Group, nat>)>)
    requires db.markers.Some?
    ensures failAt.None? ==> r.Some?
    ensures r.Some? ==> r.value.0 == Applied(db, scope, skip) && r.value.1.Keys == OpenGroups(db, scope)
    ensures r.Some? ==> forall g :: g in r.value.1 ==> r.value.1[g] == |SelectedIds(g, db.users, skip)|
  {
    hide SelectedIds, FlagUsers, SelectedBy, ApplyGroups;
    var step := 3;
    var newUsers, newMarkers := db.users, db.markers.value;
    var counts: map<Group, nat> := map[];
    var groups := GroupsFor(scope);
    ApplyGroupsNone(db, groups, scope, skip);
    for i := 0 to |groups|
      invariant Db(newUsers, Some(newMarkers)) == ApplyGroups(db, groups[..i], scope, skip)
      invariant forall g :: g in newMarkers <==> g in MarkersOf(db) || g in groups[..i]
      invariant forall g :: g in counts <==> g in groups[..i] && g !in MarkersOf(db)
      invariant forall g :: g in counts ==> counts[g] == newMarkers[g].flaggedCount
    {
      var g := groups[i];
      ApplyGroupsStep(db, groups, i, scope, skip);
      assert groups[..i + 1] == groups[..i] + [g];
      if failAt == Some(step) {
        return None;
      }
      step := step + 1;
      if g !in newMarkers {
        var ids := SelectedIds(g, newUsers, skip);
        newUsers := FlagUsers(newUsers, ids);
        if failAt == Some(step) || failAt == Some(step + 1) {
          return None;
        }
        step := step + 2;
        newMarkers := newMarkers[g := Marker(scope, |ids|, ids)];
        counts := counts[g := |ids|];
      } else {
        assert g !in groups[..i];
      }
    }
    assert groups[..|groups|] == groups;
    AppliedMeaning(db, scope, skip);
    r := Some((Db(newUsers, Some(newMarkers)), counts));
  }

  /** A target with its database, and what this run will meet there. */
  datatype Handle = Handle(db: Database, condition: Condition, skipIfMissing: bool, failAt: Option<nat>)

  ghost function TargetOf(h: Handle): Target
    reads h.db
  {
    Target(h.db.State(), h.condition, h.skipIfMissing, h.failAt.Some?)
  }

  ghost function TargetsOf(handles: seq<Handle>): (ts: seq<Target>)
    reads set i | 0 <= i < |handles| :: handles[i].db
    ensures |ts| == |handles| && forall i :: 0 <= i < |ts| ==> ts[i] == TargetOf(handles[i])
  {
    if handles == [] then []
    else
      var n := |handles| - 1;
      TargetsOf(handles[..n]) + [TargetOf(handles[n])]
  }

  ghost predicate ResultsFit(results: seq<Option<map<Group, nat>>>, ts: seq<Target>, scope: Scope) {
    && |results| == |ts|
    && (forall k :: 0 <= k < |ts| ==> (results[k].Some? <==> ts[k].condition.Ready?))
    && (forall k :: 0 <= k < |ts| && results[k].Some? ==> results[k].value.Keys == OpenGroups(ts[k].db, scope))
  }

  /** The preflight loop of `runRollout`: every database, before anything is written. */
  method PreflightAll(handles: seq<Handle>, o: Options)
    returns (results: seq<Option<map<Group, nat>>>, ready: nat, failures: nat)
    ensures ResultsFit(results, TargetsOf(handles), o.scope)
    ensures failures == CountFailed(TargetsOf(handles)) && ready == CountReady(TargetsOf(handles))
  {
    hide SelectedIds, TargetsOf, OpenGroups;
    ghost var ts := TargetsOf(handles);
    results, ready, failures := [], 0, 0;
    for i := 0 to |handles|
      invariant failures == CountFailed(ts[..i]) && ready == CountReady(ts[..i])
      invariant ResultsFit(results, ts[..i], o.scope)
    {
      var h := handles[i];
      assert ts[..i + 1][..i] == ts[..i];
      if h.condition.Ready? {
        var open, _ := h.db.Preflight(o.scope, o.skip);
        results, ready := results + [Some(open)], ready + 1;
      } else {
        results := results + [None];
        if !(h.skipIfMissing && h.condition.Missing?) {
          failures := failures + 1;
        }
      }
    }
    assert ts[..|handles|] == ts;
  }

  /** Some ready target among the first n names this database. Two targets may share one. */
  ghost predicate Reached(handles: seq<Handle>, n: nat, db: Database)
    requires n <= |handles|
  {
    exists j :: 0 <= j < n && handles[j].condition.Ready? && handles[j].db == db
  }

  lemma ReachedStep(handles: seq<Handle>, n: nat, db: Database)
    requires n < |handles|
    ensures Reached(handles, n + 1, db) <==>
            Reached(handles, n, db) || (handles[n].condition.Ready? && handles[n].db == db)
  {
  }

  /** The apply loop of `runRollout`: in order, skipping what has nothing open, stopping at the first failure. */
  method ApplyAll(handles: seq<Handle>, results: seq<Option<map<Group, nat>>>, o: Options)
    returns (applied: nat, ok: bool)
    requires ResultsFit(results, TargetsOf(handles), o.scope)
    modifies set i | 0 <= i < |handles| :: handles[i].db
    ensures
      var ts := old(TargetsOf(handles));
      var stop := Stop(ts, o.scope);
      && ok == (stop == |ts|) && applied == CountPending(ts[..stop], o.scope)
      && forall i :: 0 <= i < |ts| ==>
           handles[i].db.State() ==
             if Reached(handles, stop, handles[i].db) then Applied(ts[i].db, o.scope, o.skip) else ts[i].db
  {
    hide Applied, CountPending, OpenGroups, Pending, TargetsOf, SelectedIds, Reached;
    ghost var ts := TargetsOf(handles);
    applied := 0;
    PendingPrefix(ts, 0, o.scope);
    NoneReached(handles);
    for i := 0 to |handles|
      invariant i <= Stop(ts, o.scope) && applied == CountPending(ts[..i], o.scope)
      invariant forall k :: 0 <= k < |handles| ==>
                  handles[k].db.State() ==
                    if Reached(handles, i, handles[k].db) then Applied(ts[k].db, o.scope, o.skip) else ts[k].db
    {
      PendingPrefix(ts, i, o.scope);
      AppliedIsDone(ts[i].db, o.scope, o.skip, o.skip);
      if results[i].Some? && results[i].value.Keys != {} {
        var summary := handles[i].db.ApplyDatabase(o.scope, o.skip, handles[i].failAt);
        if summary.None? {
          return applied, false;
        }
        applied := applied + 1;
      } else if results[i].Some? {
        NothingOpenNothingDone(ts[i].db, o.scope, o.skip);
      }
      forall k | 0 <= k < |handles|
        ensures handles[k].db.State() ==
                if Reached(handles, i + 1, handles[k].db) then Applied(ts[k].db, o.scope, o.skip) else ts[k].db
      {
        ReachedStep(handles, i, handles[k].db);
      }
    }
    ok := true;
  }

  lemma NoneReached(handles: seq<Handle>)
    ensures forall db :: !Reached(handles, 0, db)
  {
  }

  lemma PendingPrefix(ts: seq<Target>, i: nat, scope: Scope)
    requires i <= |ts|
    ensures CountPending(ts[..0], scope) == 0
    ensures i < |ts| ==>
              CountPending(ts[..i + 1], scope)
              == CountPending(ts[..i], scope) + (if Pending(ts[i], scope) then 1 else 0)
    ensures i < |ts| ==> (Pending(ts[i], scope) <==> ts[i].condition.Ready? && OpenGroups(ts[i].db, scope) != {})
  {
    if i < |ts| {
      assert ts[..i + 1][..i] == ts[..i];
    }
  }

  ghost predicate DatabasesDistinct(handles: seq<Handle>) {
    forall i, j :: 0 <= i < j < |handles| ==> handles[i].db != handles[j].db
  }

  /** `runRollout`. `results[i]` is what the `ready` list holds for target i. */
  method RunRollout(handles: seq<Handle>, o: Options) returns (report: Report)
    modifies set i | 0 <= i < |handles| :: handles[i].db
    ensures report == ReportOf(old(TargetsOf(handles)), o)
    ensures
      var ts := old(TargetsOf(handles));
      && Reach(ts, o) <= |handles|
      && forall i :: 0 <= i < |handles| ==>
           handles[i].db.State() ==
           if Reached(handles, Reach(ts, o), handles[i].db) then Applied(ts[i].db, o.scope, o.skip) else ts[i].db
    ensures DatabasesDistinct(handles) ==>
              forall i :: 0 <= i < |handles| ==> handles[i].db.State() == DbAfter(old(TargetsOf(handles)), o, i)
  {
    hide Applied, CountPending, CountReady, CountFailed, ResultsFit, Reached;
    NoneReached(handles);
    DistinctReached(handles);
    var results, ready, failures := PreflightAll(handles, o);
    if failures > 0 {
      return Report(false, 0, ready, failures);
    }
    if !o.apply {
      return Report(true, 0, ready, 0);
    }
    var applied, ok := ApplyAll(handles, results, o);
    report := Report(ok, applied, ready, if ok then 0 else 1);
  }

  lemma DistinctReached(handles: seq<Handle>)
    ensures DatabasesDistinct(handles) ==>
              forall i: nat, n: nat :: i < |handles| && n <= |handles| ==>
                (Reached(handles, n, handles[i].db) <==> i < n && handles[i].condition.Ready?)
  {
  }

  // ----- What one run guarantees

  /** A failed preflight or a dry run changes nothing anywhere. */
  lemma NothingApplied(ts: seq<Target>, o: Options, i: nat)
    requires i < |ts| && (!o.apply || exists k :: 0 <= k < |ts| && !PreflightOk(ts[k]))
    ensures DbAfter(ts, o, i) == ts[i].db && ReportOf(ts, o).applied == 0
  {
    if o.apply {
      var k :| 0 <= k < |ts| && !PreflightOk(ts[k]);
      FailureCounted(ts, k);
    }
  }

  /** The databases a run changes are exactly the pending ones before the stop: a prefix of the pending ones. */
  lemma ChangedExactly(ts: seq<Target>, o: Options, i: nat)
    requires i < |ts|
    ensures DbAfter(ts, o, i) != ts[i].db <==> i < Reach(ts, o) && Pending(ts[i], o.scope)
  {
    AppliedIsDone(ts[i].db, o.scope, o.skip, o.skip);
    if !HasOpen(ts[i].db, o.scope) {
      NothingOpenNothingDone(ts[i].db, o.scope, o.skip);
    }
  }

  /** Target i cannot be used, and may not be skipped. */
  predicate Blocks(t: Target) {
    t.condition.NotReady? || (t.condition.Missing? && !t.skipIfMissing)
  }

  /** Target i has something to flag: a covered group that nothing has recorded yet. */
  ghost predicate NeedsWork(t: Target, scope: Scope) {
    t.condition.Ready? && exists g :: Covers(scope, g) && Unrecorded(t.db, g)
  }

  lemma PendingInWords(t: Target, scope: Scope)
    ensures Pending(t, scope) <==> NeedsWork(t, scope)
  {
    forall g ensures g in OpenGroups(t.db, scope) <==> Covers(scope, g) && Unrecorded(t.db, g) {
      OpenInWords(t.db, scope, g);
    }
    if HasOpen(t.db, scope) {
      var g :| g in OpenGroups(t.db, scope);
      assert Covers(scope, g) && Unrecorded(t.db, g);
    }
  }

  function ReadyAt(ts: seq<Target>): set<nat> {
    set i | 0 <= i < |ts| && ts[i].condition.Ready?
  }

  function BlockedAt(ts: seq<Target>): set<nat> {
    set i | 0 <= i < |ts| && Blocks(ts[i])
  }

  ghost function WorkAt(ts: seq<Target>, scope: Scope): set<nat> {
    set i | 0 <= i < |ts| && NeedsWork(ts[i], scope)
  }

  lemma {:induction false} ReadyCounted(ts: seq<Target>)
    ensures CountReady(ts) == |ReadyAt(ts)|
  {
    if ts != [] {
      var n := |ts| - 1;
      ReadyCounted(ts[..n]);
      assert ReadyAt(ts) == ReadyAt(ts[..n]) + (if ts[n].condition.Ready? then {n} else {});
    }
  }

  lemma {:induction false} BlockedCounted(ts: seq<Target>)
    ensures CountFailed(ts) == |BlockedAt(ts)|
  {
    hide Blocks, PreflightOk;
    if ts != [] {
      var n := |ts| - 1;
      BlockedCounted(ts[..n]);
      BlockedOrOk(ts[n]);
      assert BlockedAt(ts) == BlockedAt(ts[..n]) + (if Blocks(ts[n]) then {n} else {});
    }
  }

  lemma {:induction false} WorkCounted(ts: seq<Target>, scope: Scope)
    ensures CountPending(ts, scope) == |WorkAt(ts, scope)|
  {
    hide NeedsWork, Pending;
    if ts != [] {
      var n := |ts| - 1;
      WorkCounted(ts[..n], scope);
      PendingInWords(ts[n], scope);
      assert WorkAt(ts, scope) == WorkAt(ts[..n], scope) + (if NeedsWork(ts[n], scope) then {n} else {});
    }
  }

  lemma BlockedOrOk(t: Target)
    ensures Blocks(t) <==> !PreflightOk(t)
  {
  }

  /** The first failing transaction, if there is one, is at or before target i. */
  ghost predicate StoppedBy(ts: seq<Target>, scope: Scope, i: nat)
    requires i < |ts|
  {
    exists j :: 0 <= j <= i && NeedsWork(ts[j], scope) && ts[j].applyFails
  }

  lemma StopInWords(ts: seq<Target>, scope: Scope, i: nat)
    requires i < |ts|
    ensures Stop(ts, scope) <= i <==> StoppedBy(ts, scope, i)
  {
    hide Pending, NeedsWork;
    forall j | 0 <= j < |ts| ensures Pending(ts[j], scope) <==> NeedsWork(ts[j], scope) {
      PendingInWords(ts[j], scope);
    }
  }

  /** The targets a run gets through: those with something to flag, up to the first failing transaction. */
  ghost function DoneAt(ts: seq<Target>, scope: Scope): set<nat> {
    set i | 0 <= i < |ts| && NeedsWork(ts[i], scope) && !StoppedBy(ts, scope, i)
  }

  lemma DoneBeforeStop(ts: seq<Target>, scope: Scope)
    ensures DoneAt(ts, scope) == WorkAt(ts[..Stop(ts, scope)], scope)
  {
    hide NeedsWork, StoppedBy, Stop;
    forall i | 0 <= i < |ts| ensures Stop(ts, scope) <= i <==> StoppedBy(ts, scope, i) {
      StopInWords(ts, scope, i);
    }
  }

  /** The report, count by count. */
  lemma ReportInWords(ts: seq<Target>, o: Options)
    ensures
      var r := ReportOf(ts, o);
      var broken := ts != [] && StoppedBy(ts, o.scope, |ts| - 1);
      && r.ready == |ReadyAt(ts)|
      && (r.ok <==> BlockedAt(ts) == {} && !(o.apply && broken))
      && r.failures == (if BlockedAt(ts) != {} then |BlockedAt(ts)| else if o.apply && broken then 1 else 0)
      && r.applied == (if BlockedAt(ts) == {} && o.apply then |DoneAt(ts, o.scope)| else 0)
  {
    hide Stop, StoppedBy, BlockedAt, ReadyAt, WorkAt, DoneAt, CountReady, CountFailed, CountPending;
    ReadyCounted(ts);
    BlockedCounted(ts);
    WorkCounted(ts[..Stop(ts, o.scope)], o.scope);
    DoneBeforeStop(ts, o.scope);
    if ts != [] {
      StopInWords(ts, o.scope, |ts| - 1);
    }
  }

  /** Which databases a run applies, in terms of what it meets at each target. */
  lemma AppliedExactly(ts: seq<Target>, o: Options, i: nat)
    requires i < |ts|
    ensures DbAfter(ts, o, i) ==
            if o.apply && BlockedAt(ts) == {} && ts[i].condition.Ready? && !StoppedBy(ts, o.scope, i)
            then Applied(ts[i].db, o.scope, o.skip) else ts[i].db
  {
    hide Stop, StoppedBy, BlockedAt, CountFailed, Applied;
    BlockedCounted(ts);
    StopInWords(ts, o.scope, i);
  }

  lemma {:induction false} FailureCounted(ts: seq<Target>, k: nat)
    requires k < |ts| && !PreflightOk(ts[k])
    ensures CountFailed(ts) > 0
  {
    if k < |ts| - 1 {
      FailureCounted(ts[..|ts| - 1], k);
    }
  }

  function CountOpen(dbs: seq<Db>, scope: Scope): nat {
    if dbs == [] then 0 else CountOpen(dbs[..|dbs| - 1], scope) + (if HasOpen(dbs[|dbs| - 1], scope) then 1 else 0)
  }

  function Dbs(ts: seq<Target>): (r: seq<Db>)
    ensures |r| == |ts| && forall i :: 0 <= i < |r| ==> r[i] == ts[i].db
  {
    seq(|ts|, i requires 0 <= i < |ts| => ts[i].db)
  }

  function DbsAfter(ts: seq<Target>, o: Options): (r: seq<Db>)
    ensures |r| == |ts| && forall i :: 0 <= i < |r| ==> r[i] == DbAfter(ts, o, i)
  {
    seq(|ts|, i requires 0 <= i < |ts| => DbAfter(ts, o, i))
  }

  lemma OneFalls(ts: seq<Target>, o: Options, i: nat)
    requires i < |ts|
    ensures (if HasOpen(DbAfter(ts, o, i), o.scope) then 1 else 0)
            + (if i < Reach(ts, o) && Pending(ts[i], o.scope) then 1 else 0)
            == (if HasOpen(ts[i].db, o.scope) then 1 else 0)
  {
    hide Applied, Reach;
    AppliedIsDone(ts[i].db, o.scope, o.skip, o.skip);
  }

  function AtMost(n: nat, k: nat): nat {
    if n < k then n else k
  }

  lemma {:induction false} OpenFallsUpTo(ts: seq<Target>, o: Options, n: nat)
    requires n <= |ts|
    ensures CountOpen(DbsAfter(ts, o)[..n], o.scope) + CountPending(ts[..AtMost(n, Reach(ts, o))], o.scope)
            == CountOpen(Dbs(ts)[..n], o.scope)
  {
    hide Applied, HasOpen, DbAfter, Reach, Pending, DbsAfter, Dbs;
    if n > 0 {
      OpenFallsUpTo(ts, o, n - 1);
      OneFalls(ts, o, n - 1);
      assert DbsAfter(ts, o)[..n][..n - 1] == DbsAfter(ts, o)[..n - 1];
      assert Dbs(ts)[..n][..n - 1] == Dbs(ts)[..n - 1];
      if n <= Reach(ts, o) {
        assert ts[..n][..n - 1] == ts[..n - 1];
      }
    }
  }

  /** The number of databases with open groups falls by exactly the number reported as applied. */
  lemma OpenFallsByApplied(ts: seq<Target>, o: Options)
    ensures CountOpen(DbsAfter(ts, o), o.scope) + ReportOf(ts, o).applied == CountOpen(Dbs(ts), o.scope)
  {
    OpenFallsUpTo(ts, o, |ts|);
    assert DbsAfter(ts, o)[..|ts|] == DbsAfter(ts, o) && Dbs(ts)[..|ts|] == Dbs(ts);
    assert ts[..0] == [];
  }

  // ----- Sequences of runs

  /** What one run meets at each database. */
  datatype Weather = Weather(condition: Condition, applyFails: bool)

  function Meet(dbs: seq<Db>, legacy: seq<bool>, weather: seq<Weather>): (ts: seq<Target>)
    requires |dbs| == |legacy| == |weather|
    ensures |ts| == |dbs| && Dbs(ts) == dbs
  {
    seq(|dbs|, i requires 0 <= i < |dbs| => Target(dbs[i], weather[i].condition, legacy[i], weather[i].applyFails))
  }

  predicate WeatherFits(runs: seq<seq<Weather>>, n: nat) {
    forall r :: 0 <= r < |runs| ==> |runs[r]| == n
  }

  function AfterRuns(dbs: seq<Db>, legacy: seq<bool>, runs: seq<seq<Weather>>, o: Options): (r: seq<Db>)
    requires |dbs| == |legacy| && WeatherFits(runs, |dbs|)
    ensures |r| == |dbs|
  {
    if runs == [] then dbs
    else DbsAfter(Meet(AfterRuns(dbs, legacy, runs[..|runs| - 1], o), legacy, runs[|runs| - 1]), o)
  }

  lemma {:induction false} AppliedOrNot(dbs: seq<Db>, legacy: seq<bool>, runs: seq<seq<Weather>>, o: Options, i: nat)
    requires |dbs| == |legacy| && WeatherFits(runs, |dbs|) && i < |dbs|
    ensures AfterRuns(dbs, legacy, runs, o)[i] in {dbs[i], Applied(dbs[i], o.scope, o.skip)}
  {
    if runs != [] {
      AppliedOrNot(dbs, legacy, runs[..|runs| - 1], o, i);
      AppliedIsDone(dbs[i], o.scope, o.skip, o.skip);
    }
  }

  /**
   Re-running finishes the rest. After any number of runs with the same options, each cut short anywhere
   by a preflight or apply failure, and then one that reports success, every database that is ready in that last
   run is exactly as a single uninterrupted run would have left it.
   */
  lemma RerunConverges(dbs: seq<Db>, legacy: seq<bool>, runs: seq<seq<Weather>>, o: Options, i: nat)
    requires |dbs| == |legacy| && WeatherFits(runs, |dbs|) && runs != [] && o.apply && i < |dbs|
    requires ReportOf(Meet(AfterRuns(dbs, legacy, runs[..|runs| - 1], o), legacy, runs[|runs| - 1]), o).ok
    requires runs[|runs| - 1][i].condition.Ready?
    ensures AfterRuns(dbs, legacy, runs, o)[i] == Applied(dbs[i], o.scope, o.skip)
  {
    AppliedOrNot(dbs, legacy, runs[..|runs| - 1], o, i);
    AppliedIsDone(dbs[i], o.scope, o.skip, o.skip);
  }
}
