/**
 Any number of overlapping migration runs on one database, statement by statement: two unlocked reads,
 the advisory lock, the two reads again, the ALTERs, the UPDATE, the commit. A run may crash at any
 point. Other writers may edit any row, except while an uncommitted ALTER has the table locked.
 */
module ColumnHistory {
  import opened Wrappers
  import opened Accounts
  import opened ColumnMigration

  datatype Pc =
    | Start
    | SawFlag(hasFlag: bool)
    | Checked(hasFlag: bool, hasChangedAt: bool)
    | Waiting
    | Locked
    | LockedSawFlag(flagPresent: bool)
    | Decided(flagPresent: bool, changedAtPresent: bool)
    | Altered(flagPresent: bool)
    | FlagAdded
    | ReadyToCommit(flagPresent: bool, ids: set<nat>)
    | Done
    | Failed

  datatype Proc = Proc(dryRun: bool, pc: Pc)

  /** What a finished run returned, the ids its UPDATE flagged, and whether it created the flag column. */
  datatype Record = Record(summary: Summary, ids: set<nat>, created: bool)

  /** `altered` is the lock holder's uncommitted version of the table, from its first ALTER on. */
  datatype Sys = Sys(table: Table, holder: Option<nat>, altered: Option<Table>, procs: map<nat, Proc>, log: seq<Record>)

  datatype Event =
    | Launch(p: nat, dryRun: bool)
    | Advance(p: nat)
    | Crash(p: nat)
    | Edit(id: nat, row: Option<User>)

  function View(s: Sys): Table {
    if s.altered.Some? then s.altered.value else s.table
  }

  predicate Enabled(s: Sys, e: Event) {
    match e
    case Launch(p, _) => p !in s.procs
    case Advance(p) =>
      && p in s.procs && !s.procs[p].pc.Done? && !s.procs[p].pc.Failed?
      && (s.procs[p].pc.Waiting? ==> s.holder.None?)
      && (s.procs[p].pc.Checked? && !s.procs[p].pc.hasFlag ==> s.altered.None?)
    case Crash(p) => p in s.procs && !s.procs[p].pc.Done? && !s.procs[p].pc.Failed?
    case Edit(_, _) => s.altered.None?
  }

  function Moved(s: Sys, p: nat, pc: Pc): Sys
    requires p in s.procs
  {
    s.(procs := s.procs[p := s.procs[p].(pc := pc)])
  }

  function Finished(s: Sys, p: nat, r: Record): Sys
    requires p in s.procs
  {
    Moved(s, p, Done).(log := s.log + [r])
  }

  function Step(s: Sys, p: nat): Sys
    requires Enabled(s, Advance(p))
  {
    match s.procs[p].pc
    case Start => Moved(s, p, SawFlag(s.table.hasFlag))
    case SawFlag(f) => Moved(s, p, Checked(f, s.table.hasChangedAt))
    case Checked(f, c) =>
      if f && c then Finished(s, p, Record(Summary(Skipped, 0), {}, false))
      else if s.procs[p].dryRun then
        Finished(s, p, Record(Summary(DryRun, if f then 0 else |BackfillIds(s.table.users)|), {}, false))
      else Moved(s, p, Waiting)
    case Waiting => Moved(s, p, Locked).(holder := Some(p))
    case Locked => Moved(s, p, LockedSawFlag(s.table.hasFlag))
    case LockedSawFlag(f) => Moved(s, p, Decided(f, s.table.hasChangedAt))
    case Decided(f, c) =>
      if f && c then Finished(s, p, Record(Summary(Skipped, 0), {}, false)).(holder := None)
      else if c then Moved(s, p, Altered(f))
      else Moved(s, p, Altered(f)).(altered := Some(AddChangedAt(s.table)))
    case Altered(f) =>
      if f then Moved(s, p, ReadyToCommit(true, {}))
      else Moved(s, p, FlagAdded).(altered := Some(AddFlag(View(s))))
    case FlagAdded =>
      var ids := BackfillIds(View(s).users);
      Moved(s, p, ReadyToCommit(false, ids)).(altered := Some(View(s).(users := FlagUsers(View(s).users, ids))))
    case ReadyToCommit(f, ids) =>
      Finished(s, p, Record(Summary(Migrated, |ids|), ids, !f)).(table := View(s), holder := None, altered := None)
    case Done => s
    case Failed => s
  }

  function Next(s: Sys, e: Event): Sys
    requires Enabled(s, e)
  {
    match e
    case Launch(p, dryRun) => s.(procs := s.procs[p := Proc(dryRun, Start)])
    case Advance(p) => Step(s, p)
    case Crash(p) =>
      var after := Moved(s, p, Failed);
      if s.holder == Some(p) then after.(holder := None, altered := None) else after
    case Edit(id, row) => s.(table := s.table.(users := SetRow(s.table.users, id, row)))
  }

  // ----- The invariant

  predicate InLock(pc: Pc) {
    pc.Locked? || pc.LockedSawFlag? || pc.Decided? || pc.Altered? || pc.FlagAdded? || pc.ReadyToCommit?
  }

  /** A column once seen is still there: columns only appear. */
  predicate SeenStill(t: Table, pc: Pc) {
    && (pc.SawFlag? && pc.hasFlag ==> t.hasFlag)
    && (pc.Checked? ==> (pc.hasFlag ==> t.hasFlag) && (pc.hasChangedAt ==> t.hasChangedAt))
  }

  /** What the lock holder has read and written, at each of its statements. */
  ghost predicate HolderValid(t: Table, altered: Option<Table>, pc: Pc) {
    match pc
    case Locked => altered.None?
    case LockedSawFlag(f) => altered.None? && f == t.hasFlag
    case Decided(f, c) => altered.None? && f == t.hasFlag && c == t.hasChangedAt
    case Altered(f) =>
      && f == t.hasFlag && !(f && t.hasChangedAt)
      && altered == if t.hasChangedAt then None else Some(AddChangedAt(t))
    case FlagAdded =>
      !t.hasFlag && altered == Some(AddFlag(if t.hasChangedAt then t else AddChangedAt(t)))
    case ReadyToCommit(f, ids) =>
      && f == t.hasFlag && !(f && t.hasChangedAt) && altered == Some(MigratedTable(t))
      && ids == (if f then {} else BackfillIds(t.users))
    case _ => false
  }

  ghost predicate ProcValid(s: Sys, p: nat)
    requires p in s.procs
  {
    var pc := s.procs[p].pc;
    && SeenStill(s.table, pc)
    && (InLock(pc) <==> s.holder == Some(p))
    && (s.procs[p].dryRun ==> !InLock(pc) && !pc.Waiting?)
    && (InLock(pc) ==> HolderValid(s.table, s.altered, pc))
  }

  /** A run that returned without being a dry run left, or found, both columns in place. */
  ghost predicate RecordValid(t: Table, r: Record) {
    && (!r.summary.action.DryRun? ==> t.hasFlag && t.hasChangedAt)
    && (r.created ==> r.summary.action.Migrated?)
    && (!r.created && !r.summary.action.DryRun? ==> r.summary.flagged == 0)
    && (r.created ==> r.summary.flagged == |r.ids|)
  }

  ghost predicate Valid(s: Sys) {
    && (forall p :: p in s.procs ==> ProcValid(s, p))
    && (s.holder.Some? ==> s.holder.value in s.procs)
    && (s.holder.None? ==> s.altered.None?)
    && (forall i :: 0 <= i < |s.log| ==> RecordValid(s.table, s.log[i]))
  }

  /** A commit turns the table into exactly what one undisturbed migration of it gives, and returns that summary. */
  lemma CommitIsMigration(s: Sys, p: nat)
    requires Valid(s) && Enabled(s, Advance(p)) && s.procs[p].pc.ReadyToCommit?
    ensures Step(s, p).table == MigratedTable(s.table)
    ensures Step(s, p).log == s.log + [Record(SummaryOf(s.table), s.procs[p].pc.ids, !s.table.hasFlag)]
    ensures !s.table.hasFlag ==> s.procs[p].pc.ids == BackfillIds(s.table.users)
  {
    assert ProcValid(s, p);
  }

  lemma HolderStep(s: Sys, p: nat)
    requires Enabled(s, Advance(p)) && InLock(s.procs[p].pc) && HolderValid(s.table, s.altered, s.procs[p].pc)
    ensures
      var s' := Step(s, p);
      InLock(s'.procs[p].pc) ==> HolderValid(s'.table, s'.altered, s'.procs[p].pc)
  {
    hide Backfilled, AddChangedAt, AddFlag, MigratedTable, BackfillIds, FlagUsers;
    if s.procs[p].pc.Altered? || s.procs[p].pc.FlagAdded? {
      StepsMakeMigratedTable(s.table);
      BackfillIgnoresNewColumns(s.table);
      BackfillIgnoresNewColumns(AddChangedAt(s.table));
    }
  }

  lemma ColumnsOnlyAppear(s: Sys, e: Event)
    requires Valid(s) && Enabled(s, e)
    ensures s.table.hasFlag ==> Next(s, e).table.hasFlag
    ensures s.table.hasChangedAt ==> Next(s, e).table.hasChangedAt
  {
    if e.Advance? && s.procs[e.p].pc.ReadyToCommit? {
      CommitIsMigration(s, e.p);
    }
  }

  lemma OthersStayValid(s: Sys, e: Event, q: nat)
    requires Valid(s) && Enabled(s, e) && q in s.procs
    requires e.Advance? || e.Crash? ==> q != e.p
    ensures ProcValid(Next(s, e), q)
  {
    hide MigratedTable, AddFlag, AddChangedAt, BackfillIds;
    ColumnsOnlyAppear(s, e);
    assert ProcValid(s, q);
    if e.Advance? || e.Crash? {
      assert ProcValid(s, e.p);
    }
  }

  lemma MoverStaysValid(s: Sys, p: nat)
    requires Valid(s) && Enabled(s, Advance(p))
    ensures ProcValid(Step(s, p), p)
  {
    hide MigratedTable, AddFlag, AddChangedAt, BackfillIds;
    assert ProcValid(s, p);
    if InLock(s.procs[p].pc) {
      HolderStep(s, p);
    }
  }

  lemma RecordsStayValid(s: Sys, e: Event)
    requires Valid(s) && Enabled(s, e)
    ensures forall i :: 0 <= i < |Next(s, e).log| ==> RecordValid(Next(s, e).table, Next(s, e).log[i])
  {
    hide BackfillIds, AddFlag, AddChangedAt;
    ColumnsOnlyAppear(s, e);
    if e.Advance? {
      assert ProcValid(s, e.p);
      if s.procs[e.p].pc.ReadyToCommit? {
        CommitIsMigration(s, e.p);
      }
    }
  }

  /** Every step of every run, every crash and every edit keeps the invariant. */
  lemma NextValid(s: Sys, e: Event)
    requires Valid(s) && Enabled(s, e)
    ensures Valid(Next(s, e))
  {
    hide RecordValid, HolderValid, MigratedTable, AddFlag, AddChangedAt, BackfillIds, SeenStill;
    var s' := Next(s, e);
    forall q | q in s'.procs ensures ProcValid(s', q) {
      if q in s.procs && (e.Advance? || e.Crash? ==> q != e.p) {
        OthersStayValid(s, e, q);
      } else {
        NewlyValid(s, e, q);
      }
    }
    RecordsStayValid(s, e);
    LockStaysValid(s, e);
  }

  lemma LockStaysValid(s: Sys, e: Event)
    requires Valid(s) && Enabled(s, e)
    ensures
      var s' := Next(s, e);
      && (s'.holder.Some? ==> s'.holder.value in s'.procs)
      && (s'.holder.None? ==> s'.altered.None?)
  {
    hide MigratedTable, AddFlag, AddChangedAt, BackfillIds, RecordValid, SeenStill;
    if e.Advance? || e.Crash? {
      assert ProcValid(s, e.p);
    }
  }

  lemma NewlyValid(s: Sys, e: Event, q: nat)
    requires Valid(s) && Enabled(s, e) && !e.Edit? && q == e.p
    ensures ProcValid(Next(s, e), q)
  {
    if e.Advance? {
      MoverStaysValid(s, q);
    } else if e.Crash? {
      assert ProcValid(s, q);
    }
  }

  // ----- Histories

  function After(s: Sys, tr: seq<Event>): Option<Sys> {
    if tr == [] then Some(s)
    else
      match After(s, tr[..|tr| - 1])
      case None => None
      case Some(before) => if Enabled(before, tr[|tr| - 1]) then Some(Next(before, tr[|tr| - 1])) else None
  }

  lemma {:induction false} AfterValid(s: Sys, tr: seq<Event>)
    requires Valid(s) && After(s, tr).Some?
    ensures Valid(After(s, tr).value)
  {
    hide Valid, Next;
    if tr != [] {
      AfterValid(s, tr[..|tr| - 1]);
      NextValid(After(s, tr[..|tr| - 1]).value, tr[|tr| - 1]);
    }
  }

  function CreatedCount(log: seq<Record>): nat {
    if log == [] then 0 else CreatedCount(log[..|log| - 1]) + (if log[|log| - 1].created then 1 else 0)
  }

  /** The `flagged` counts of all real runs that finished, added up. */
  function TotalFlagged(log: seq<Record>): nat {
    if log == [] then 0
    else
      TotalFlagged(log[..|log| - 1]) +
      (if log[|log| - 1].summary.action.DryRun? then 0 else log[|log| - 1].summary.flagged)
  }

  lemma LogStep(s: Sys, e: Event)
    requires Valid(s) && Enabled(s, e)
    ensures
      var s' := Next(s, e);
      && (s'.log == s.log || (|s'.log| == |s.log| + 1 && s'.log[..|s.log|] == s.log))
      && CreatedCount(s'.log) + (if s.table.hasFlag then 1 else 0) ==
           CreatedCount(s.log) + (if s'.table.hasFlag then 1 else 0)
  {
    hide BackfillIds, AddFlag, AddChangedAt, HolderValid;
    if e.Advance? {
      assert ProcValid(s, e.p);
      if s.procs[e.p].pc.ReadyToCommit? {
        CommitIsMigration(s, e.p);
      }
      var s' := Next(s, e);
      if s'.log != s.log {
        assert s'.log[..|s.log|] == s.log;
      }
    }
  }

  /**
   Over every history the flag column is created, and the employees flagged, by at most one commit, and by none
   if the column was there before: the number of such commits is exactly the column's appearance.
   */
  lemma {:induction false} FlaggedOnlyByTheCreator(s: Sys, tr: seq<Event>)
    requires Valid(s) && s.log == [] && After(s, tr).Some?
    ensures
      var after := After(s, tr).value;
      CreatedCount(after.log) + (if s.table.hasFlag then 1 else 0) == (if after.table.hasFlag then 1 else 0)
  {
    hide Valid, Next;
    if tr != [] {
      var before := After(s, tr[..|tr| - 1]).value;
      FlaggedOnlyByTheCreator(s, tr[..|tr| - 1]);
      AfterValid(s, tr[..|tr| - 1]);
      LogStep(before, tr[|tr| - 1]);
    }
  }

  lemma {:induction false} TotalIsCreators(t: Table, log: seq<Record>)
    requires forall i :: 0 <= i < |log| ==> RecordValid(t, log[i])
    ensures CreatedCount(log) == 0 ==> TotalFlagged(log) == 0
    ensures CreatedCount(log) == 1 ==>
              exists k :: 0 <= k < |log| && log[k].created
                && TotalFlagged(log) == log[k].summary.flagged == |log[k].ids|
  {
    if log != [] {
      var n := |log| - 1;
      TotalIsCreators(t, log[..n]);
      assert RecordValid(t, log[n]);
      if CreatedCount(log) == 1 && !log[n].created {
        var k :| 0 <= k < n && log[..n][k].created
          && TotalFlagged(log[..n]) == log[..n][k].summary.flagged == |log[..n][k].ids|;
        assert log[k].created;
      }
    }
  }

  /** The counts that all finished runs report add up to what the one creating commit flagged, or to nothing. */
  lemma FlaggedCountsAddUp(s: Sys, tr: seq<Event>)
    requires Valid(s) && s.log == [] && After(s, tr).Some?
    ensures
      var log := After(s, tr).value.log;
      && (CreatedCount(log) == 0 ==> TotalFlagged(log) == 0)
      && (CreatedCount(log) != 0 ==>
            exists k :: 0 <= k < |log| && log[k].created && TotalFlagged(log) == log[k].summary.flagged == |log[k].ids|)
  {
    AfterValid(s, tr);
    FlaggedOnlyByTheCreator(s, tr);
    TotalIsCreators(After(s, tr).value.table, After(s, tr).value.log);
  }

  /** The unlocked shortcut is sound: a run that reports `skipped`, early or late, leaves a fully migrated database. */
  lemma FinishedMeansMigrated(s: Sys, tr: seq<Event>, k: nat)
    requires Valid(s) && After(s, tr).Some? && k < |After(s, tr).value.log|
    requires !After(s, tr).value.log[k].summary.action.DryRun?
    ensures After(s, tr).value.table.hasFlag && After(s, tr).value.table.hasChangedAt
  {
    AfterValid(s, tr);
    assert RecordValid(After(s, tr).value.table, After(s, tr).value.log[k]);
  }

  /** The other writers' part of a history. */
  function EditOf(e: Event): Option<RowEdit> {
    if e.Edit? then Some(RowEdit(e.id, e.row)) else None
  }

  lemma MigratedStepSparesRows(s: Sys, e: Event, id: nat)
    requires Valid(s) && Enabled(s, e) && s.table.hasFlag && s.table.hasChangedAt
    ensures Next(s, e).table.hasFlag && Next(s, e).table.hasChangedAt
    ensures !(e.Edit? && e.id == id) ==> RowOf(Next(s, e).table.users, id) == RowOf(s.table.users, id)
    ensures e.Edit? && e.id == id ==> RowOf(Next(s, e).table.users, id) == e.row
  {
    hide BackfillIds, AddFlag, AddChangedAt;
    if e.Advance? {
      assert ProcValid(s, e.p);
    }
  }

  /**
   Once both columns exist no run ever changes a row again: somebody who has changed their password is never
   re-flagged.
   */
  lemma {:induction false} MigratedRowsAreLeftAlone(s: Sys, tr: seq<Event>, id: nat)
    requires Valid(s) && After(s, tr).Some? && s.table.hasFlag && s.table.hasChangedAt
    ensures After(s, tr).value.table.hasFlag && After(s, tr).value.table.hasChangedAt
    ensures RowOf(After(s, tr).value.table.users, id) == EditedRow(RowOf(s.table.users, id), tr, EditOf, id)
  {
    hide Valid, Next;
    if tr != [] {
      MigratedRowsAreLeftAlone(s, tr[..|tr| - 1], id);
      AfterValid(s, tr[..|tr| - 1]);
      MigratedStepSparesRows(After(s, tr[..|tr| - 1]).value, tr[|tr| - 1], id);
    }
  }

  lemma FlagStepSparesRows(s: Sys, e: Event, id: nat)
    requires Valid(s) && Enabled(s, e) && s.table.hasFlag && !(e.Edit? && e.id == id)
    ensures
      var before, after := RowOf(s.table.users, id), RowOf(Next(s, e).table.users, id);
      && (after.Some? <==> before.Some?)
      && (after.Some? ==> after.value == before.value.(changedAt := after.value.changedAt))
  {
    hide BackfillIds, AddFlag, AddChangedAt, Backfilled;
    if e.Advance? {
      assert ProcValid(s, e.p);
      if s.procs[e.p].pc.ReadyToCommit? {
        CommitIsMigration(s, e.p);
      }
    }
  }

  /**
   The flag column alone decides: once it exists, whether or not the other column does, no run changes a row
   except that creating the other column clears it. Nobody is flagged a second time.
   */
  lemma {:induction false} FlagsAreLeftAlone(s: Sys, tr: seq<Event>, id: nat)
    requires Valid(s) && After(s, tr).Some? && s.table.hasFlag
    ensures After(s, tr).value.table.hasFlag
    ensures
      var now, edited := RowOf(After(s, tr).value.table.users, id), EditedRow(RowOf(s.table.users, id), tr, EditOf, id);
      && (now.Some? <==> edited.Some?)
      && (now.Some? ==> now.value == edited.value.(changedAt := now.value.changedAt))
  {
    hide Valid, RowOf;
    if tr != [] {
      var before, e := After(s, tr[..|tr| - 1]).value, tr[|tr| - 1];
      FlagsAreLeftAlone(s, tr[..|tr| - 1], id);
      AfterValid(s, tr[..|tr| - 1]);
      ColumnsOnlyAppear(before, e);
      if e.Edit? && e.id == id {
        EditSetsRow(before, e);
      } else {
        FlagStepSparesRows(before, e, id);
      }
    }
  }

  lemma EditSetsRow(s: Sys, e: Event)
    requires e.Edit? && Enabled(s, e)
    ensures RowOf(Next(s, e).table.users, e.id) == e.row
  {
  }

  // ----- Without a commit

  predicate Commits(s: Sys, e: Event) {
    e.Advance? && e.p in s.procs && s.procs[e.p].pc.ReadyToCommit?
  }

  ghost predicate NoCommit(s: Sys, tr: seq<Event>)
    requires After(s, tr).Some?
  {
    tr != [] ==>
      && NoCommit(s, tr[..|tr| - 1])
      && !Commits(After(s, tr[..|tr| - 1]).value, tr[|tr| - 1])
  }

  /** Until a run commits, the table is what the other writers make it: crashed runs leave no trace. */
  lemma {:induction false} OnlyCommitsChange(s: Sys, tr: seq<Event>, id: nat)
    requires After(s, tr).Some? && NoCommit(s, tr)
    ensures
      var after := After(s, tr).value.table;
      && after.hasFlag == s.table.hasFlag && after.hasChangedAt == s.table.hasChangedAt
      && RowOf(after.users, id) == EditedRow(RowOf(s.table.users, id), tr, EditOf, id)
  {
    hide Next, Enabled, RowOf;
    if tr != [] {
      OnlyCommitsChange(s, tr[..|tr| - 1], id);
      QuietStep(After(s, tr[..|tr| - 1]).value, tr[|tr| - 1], id);
    }
  }

  lemma QuietStep(s: Sys, e: Event, id: nat)
    requires Enabled(s, e) && !Commits(s, e)
    ensures
      var after := Next(s, e).table;
      && after.hasFlag == s.table.hasFlag && after.hasChangedAt == s.table.hasChangedAt
      && RowOf(after.users, id) == if e.Edit? && e.id == id then e.row else RowOf(s.table.users, id)
  {
    hide BackfillIds, AddFlag, AddChangedAt, FlagUsers;
  }

  /** Who waits for whom: only the lock, and an uncommitted ALTER, keep anybody from going on. */
  lemma WhoWaits(s: Sys, p: nat, id: nat, row: Option<User>)
    requires Valid(s) && p in s.procs && !s.procs[p].pc.Done? && !s.procs[p].pc.Failed?
    ensures Enabled(s, Crash(p)) && (s.holder == Some(p) ==> Next(s, Crash(p)).holder.None?)
    ensures s.holder.None? || s.holder == Some(p) ==> Enabled(s, Advance(p))
    ensures Enabled(s, Edit(id, row)) <==> s.altered.None?
  {
    assert ProcValid(s, p);
  }

  // ----- Dry runs

  ghost predicate AllReal(s: Sys) {
    forall p :: p in s.procs ==> !s.procs[p].dryRun
  }

  /** A run reports `dry-run` only if it was asked to be one: with real runs only, no such record is added. */
  lemma {:induction false} RealRunsReport(s: Sys, tr: seq<Event>)
    requires AllReal(s) && After(s, tr).Some? && forall k :: 0 <= k < |tr| && tr[k].Launch? ==> !tr[k].dryRun
    ensures AllReal(After(s, tr).value) && |s.log| <= |After(s, tr).value.log|
    ensures forall k :: |s.log| <= k < |After(s, tr).value.log| ==> !After(s, tr).value.log[k].summary.action.DryRun?
  {
    hide BackfillIds, AddFlag, AddChangedAt, FlagUsers;
    if tr != [] {
      RealRunsReport(s, tr[..|tr| - 1]);
    }
  }

  ghost predicate AllDry(s: Sys) {
    forall p :: p in s.procs ==> s.procs[p].dryRun
  }

  /** Dry runs, however many, change nothing. */
  lemma {:induction false} DryRunsChangeNothing(s: Sys, tr: seq<Event>, id: nat)
    requires Valid(s) && AllDry(s) && After(s, tr).Some?
    requires forall k :: 0 <= k < |tr| && tr[k].Launch? ==> tr[k].dryRun
    ensures AllDry(After(s, tr).value)
    ensures
      var after := After(s, tr).value.table;
      && after.hasFlag == s.table.hasFlag && after.hasChangedAt == s.table.hasChangedAt
      && RowOf(after.users, id) == EditedRow(RowOf(s.table.users, id), tr, EditOf, id)
  {
    hide BackfillIds, AddFlag, AddChangedAt, FlagUsers, HolderValid;
    if tr != [] {
      DryRunsChangeNothing(s, tr[..|tr| - 1], id);
      AfterValid(s, tr[..|tr| - 1]);
      var e := tr[|tr| - 1];
      if e.Advance? {
        assert ProcValid(After(s, tr[..|tr| - 1]).value, e.p);
      }
    }
  }

  // ----- A run nobody interferes with

  /** Where the run stands, with its reads as they are in the table it started on. */
  ghost predicate Underway(s0: Sys, s: Sys, p: nat, dryRun: bool) {
    && s.table == s0.table && s.log == s0.log && p in s.procs && s.procs[p].dryRun == dryRun
    && (s.holder.None? || s.holder == Some(p))
    && match s.procs[p].pc
       case SawFlag(f) => f == s.table.hasFlag
       case Checked(f, c) => f == s.table.hasFlag && c == s.table.hasChangedAt
       case Waiting => !dryRun && s.holder.None? && !(s.table.hasFlag && s.table.hasChangedAt)
       case Done => false
       case Failed => false
       case Start => true
       case _ => !dryRun && !(s.table.hasFlag && s.table.hasChangedAt)
  }

  ghost predicate Ended(s0: Sys, s: Sys, p: nat, dryRun: bool) {
    && p in s.procs && s.procs[p].pc.Done? && s.holder.None? && s.altered.None?
    && s.table == (if dryRun || (s0.table.hasFlag && s0.table.hasChangedAt) then s0.table else MigratedTable(s0.table))
    && s.log == s0.log + [Record(Returned(s0.table, dryRun),
                                 if dryRun || s0.table.hasFlag then {} else BackfillIds(s0.table.users),
                                 !dryRun && !s0.table.hasFlag)]
  }

  function Left(pc: Pc): nat {
    match pc
    case Start => 10 case SawFlag(_) => 9 case Checked(_, _) => 8 case Waiting => 7 case Locked => 6
    case LockedSawFlag(_) => 5 case Decided(_, _) => 4 case Altered(_) => 3 case FlagAdded => 2
    case ReadyToCommit(_, _) => 1 case Done => 0 case Failed => 0
  }

  lemma UnderwayStep(s0: Sys, s: Sys, p: nat, dryRun: bool)
    requires Valid(s) && Underway(s0, s, p, dryRun)
    ensures Enabled(s, Advance(p))
    ensures
      var s' := Next(s, Advance(p));
      || Ended(s0, s', p, dryRun)
      || (Underway(s0, s', p, dryRun) && Left(s'.procs[p].pc) < Left(s.procs[p].pc))
  {
    hide BackfillIds, AddFlag, AddChangedAt, MigratedTable, FlagUsers;
    assert ProcValid(s, p);
    WhoWaits(s, p, 0, None);
    if s.procs[p].pc.ReadyToCommit? {
      CommitIsMigration(s, p);
    }
  }

  lemma AfterSnoc(s: Sys, tr: seq<Event>, e: Event)
    requires After(s, tr).Some? && Enabled(After(s, tr).value, e)
    ensures After(s, tr + [e]) == Some(Next(After(s, tr).value, e))
  {
    assert (tr + [e])[..|tr|] == tr;
  }

  lemma {:induction false} RunsToEnd(s0: Sys, s: Sys, tr: seq<Event>, p: nat, dryRun: bool) returns (more: nat)
    requires Valid(s) && After(s, tr).Some? && Underway(s0, After(s, tr).value, p, dryRun)
    ensures
      var whole := tr + seq(more, _ => Advance(p));
      After(s, whole).Some? && Ended(s0, After(s, whole).value, p, dryRun)
    decreases Left(After(s, tr).value.procs[p].pc)
  {
    hide Next, Enabled, Underway, Ended;
    AfterValid(s, tr);
    UnderwayStep(s0, After(s, tr).value, p, dryRun);
    AfterSnoc(s, tr, Advance(p));
    if Ended(s0, Next(After(s, tr).value, Advance(p)), p, dryRun) {
      more := 1;
      assert seq(1, _ => Advance(p)) == [Advance(p)];
    } else {
      var rest := RunsToEnd(s0, s, tr + [Advance(p)], p, dryRun);
      more := rest + 1;
      assert tr + [Advance(p)] + seq(rest, _ => Advance(p)) == tr + seq(more, _ => Advance(p));
    }
  }

  /**
   A run that nobody interferes with always gets to its end. A real one migrates the table, or leaves it alone when
   both columns are there; a dry run leaves it alone. Both return what that comes to, and free the lock.
   */
  lemma UndisturbedRunFinishes(s: Sys, p: nat, dryRun: bool) returns (n: nat)
    requires Valid(s) && s.holder.None? && p !in s.procs
    ensures
      var tr := [Launch(p, dryRun)] + seq(n, _ => Advance(p));
      After(s, tr).Some? && Ended(s, After(s, tr).value, p, dryRun)
  {
    assert [Launch(p, dryRun)][..0] == [];
    assert After(s, [Launch(p, dryRun)]) == Some(Next(s, Launch(p, dryRun)));
    n := RunsToEnd(s, s, [Launch(p, dryRun)], p, dryRun);
  }
}
