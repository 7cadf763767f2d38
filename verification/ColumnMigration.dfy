/**
 The first password migration on one database: add two columns, and flag the existing employees in the
 transaction that creates the flag column. `Table` is what is committed.
 */
module ColumnMigration {
  import opened Wrappers
  import opened Accounts
  import opened Rollout

  /** A row's `mustChange` and `changedAt` mean something only once their column exists. */
  datatype Table = Table(hasFlag: bool, hasChangedAt: bool, users: Users)

  datatype Action = Skipped | DryRun | Migrated

  datatype Summary = Summary(action: Action, flagged: nat)

  function BackfillIds(users: Users): set<nat> {
    set id | id in users && Backfilled(users[id])
  }

  /** `ADD COLUMN password_changed_at ... DEFAULT NULL`. */
  function AddChangedAt(t: Table): Table {
    t.(hasChangedAt := true, users := map id | id in t.users :: t.users[id].(changedAt := None))
  }

  /** `ADD COLUMN must_change_password ... DEFAULT FALSE`. */
  function AddFlag(t: Table): Table {
    t.(hasFlag := true, users := map id | id in t.users :: t.users[id].(mustChange := false))
  }

  /** What a completed migration leaves, in one formula. */
  function MigratedTable(t: Table): Table {
    Table(true, true,
          map id | id in t.users ::
            t.users[id].(mustChange := if t.hasFlag then t.users[id].mustChange else Backfilled(t.users[id]),
                         changedAt := if t.hasChangedAt then t.users[id].changedAt else None))
  }

  function SummaryOf(t: Table): Summary {
    if t.hasFlag && t.hasChangedAt then Summary(Skipped, 0)
    else Summary(Migrated, if t.hasFlag then 0 else |BackfillIds(t.users)|)
  }

  /** What `migrateDatabase` returns. */
  function Returned(t: Table, dryRun: bool): Summary {
    if dryRun && !(t.hasFlag && t.hasChangedAt) then Summary(DryRun, SummaryOf(t).flagged) else SummaryOf(t)
  }

  /** The migrated table, row by row and column by column. */
  lemma MigratedInWords(t: Table, id: nat)
    ensures
      var after := MigratedTable(t);
      && after.hasFlag && after.hasChangedAt && (id in after.users <==> id in t.users)
      && (id in t.users ==>
            var u := t.users[id];
            var employee := && u.role == Some("employee")
                            && u.access != Some("admin") && u.access != Some("super_admin")
                            && u.status.Some? && u.status.value != "pending";
            after.users[id] == User(u.employeeId, u.role, u.access, u.status,
                                    if t.hasFlag then u.mustChange else employee,
                                    if t.hasChangedAt then u.changedAt else None))
  {
    if id in t.users {
      BackfilledInWords(t.users[id]);
    }
  }

  /** The returned count is the number of accounts that the migrated table flags, on a dry run as on a real one. */
  lemma ReturnedInWords(t: Table, dryRun: bool)
    ensures
      var both := t.hasFlag && t.hasChangedAt;
      && Returned(t, dryRun).action == (if both then Skipped else if dryRun then DryRun else Migrated)
      && Returned(t, dryRun).flagged ==
         if t.hasFlag then 0 else |set id | id in t.users && MigratedTable(t).users[id].mustChange|
  {
    if !t.hasFlag {
      assert BackfillIds(t.users) == set id | id in t.users && MigratedTable(t).users[id].mustChange;
    }
  }

  /** Neither new column takes part in the backfill condition. */
  lemma BackfillIgnoresNewColumns(t: Table)
    ensures BackfillIds(AddFlag(t).users) == BackfillIds(t.users)
    ensures BackfillIds(AddChangedAt(t).users) == BackfillIds(t.users)
  {
    forall id | id in t.users
      ensures Backfilled(AddFlag(t).users[id]) == Backfilled(t.users[id]) == Backfilled(AddChangedAt(t).users[id])
    {
      BackfilledMeaning(t.users[id]);
    }
  }

  lemma StepsMakeMigratedTable(t: Table)
    ensures
      var t1 := if t.hasChangedAt then t else AddChangedAt(t);
      var t2 := if t.hasFlag then t1
                else AddFlag(t1).(users := FlagUsers(AddFlag(t1).users, BackfillIds(AddFlag(t1).users)));
      t2 == MigratedTable(t)
  {
    hide Backfilled;
    var t1 := if t.hasChangedAt then t else AddChangedAt(t);
    BackfillIgnoresNewColumns(t);
    BackfillIgnoresNewColumns(t1);
    if t.hasFlag {
      assert t1.users == MigratedTable(t).users;
    } else {
      var flagged := FlagUsers(AddFlag(t1).users, BackfillIds(AddFlag(t1).users));
      forall id | id in t.users ensures flagged[id] == MigratedTable(t).users[id] {
        assert id in BackfillIds(t.users) <==> Backfilled(t.users[id]);
      }
      assert flagged == MigratedTable(t).users;
    }
  }

  // ----- One run by itself

  class Pool {
    var table: Table

    constructor (table: Table)
      ensures this.table == table
    {
      this.table := table;
    }

    /**
     `migrateDatabase`. `readable` says whether the unlocked reads succeed; `failAt` is the number of the
     statement in the transaction that throws, the commit at the latest; `canAlter` is the dry run's ownership
     check. No summary means that the method threw.
     */
    method MigrateDatabase(dryRun: bool, readable: bool, canAlter: bool, failAt: Option<nat>)
      returns (summary: Option<Summary>)
      modifies this
      ensures
        var t := old(table);
        var skip := t.hasFlag && t.hasChangedAt;
        && (summary.None? <==> !readable || (!skip && if dryRun then !canAlter else failAt.Some?))
        && (summary.Some? ==> summary.value == Returned(t, dryRun))
        && table == if summary.Some? && !dryRun && !skip then MigratedTable(t) else t
    {
      if !readable {
        return None;
      }
      var hasFlag := table.hasFlag;
      var hasChangedAt := table.hasChangedAt;
      if hasFlag && hasChangedAt {
        return Some(Summary(Skipped, 0));
      }
      var wouldFlag := if hasFlag then 0 else |BackfillIds(table.users)|;
      if dryRun {
        if !canAlter {
          return None;
        }
        return Some(Summary(DryRun, wouldFlag));
      }
      if failAt.Some? && failAt.value < 4 {
        return None;
      }
      var draft := table;
      StepsMakeMigratedTable(table);
      BackfillIgnoresNewColumns(table);
      if !draft.hasChangedAt {
        if failAt == Some(4) {
          return None;
        }
        draft := AddChangedAt(draft);
        BackfillIgnoresNewColumns(draft);
      }
      var flagged := 0;
      if !draft.hasFlag {
        if failAt == Some(5) {
          return None;
        }
        draft := AddFlag(draft);
        if failAt == Some(6) {
          return None;
        }
        var ids := BackfillIds(draft.users);
        draft := draft.(users := FlagUsers(draft.users, ids));
        flagged := |ids|;
      }
      if failAt.Some? {
        return None;
      }
      table := draft;
      summary := Some(Summary(Migrated, flagged));
    }
  }

  // ----- Every target in turn

  /** A database answers, fails its first reads (unreachable, bad credentials), or does not exist (error 3D000). */
  datatype Condition = Answers | Unreachable | Missing

  /** A target, and what this run meets there. */
  datatype Target = Target(pool: Pool, skipIfMissing: bool, condition: Condition, canAlter: bool, failAt: Option<nat>)

  /** Whether `migrateDatabase` throws on an existing database with this table. */
  predicate Throws(t: Table, target: Target, dryRun: bool) {
    || target.condition.Unreachable?
    || (!(t.hasFlag && t.hasChangedAt) && if dryRun then !target.canAlter else target.failAt.Some?)
  }

  predicate Fails(t: Table, target: Target, dryRun: bool) {
    if target.condition.Missing? then !target.skipIfMissing else Throws(t, target, dryRun)
  }

  function CountSkipped(targets: seq<Target>): nat {
    if targets == [] then 0
    else
      var last := targets[|targets| - 1];
      CountSkipped(targets[..|targets| - 1]) + (if last.condition.Missing? && last.skipIfMissing then 1 else 0)
  }

  /** The table of one target's database after that target. */
  function TableAfter(t: Table, target: Target, dryRun: bool): Table {
    if target.condition.Missing? || dryRun || Throws(t, target, dryRun) || (t.hasFlag && t.hasChangedAt) then t
    else MigratedTable(t)
  }

  /** A database after the first n targets, when it starts with table t; several targets may name it. */
  ghost function TableAt(pool: Pool, t: Table, targets: seq<Target>, n: nat, dryRun: bool): Table
    requires n <= |targets|
  {
    if n == 0 then t
    else
      var before := TableAt(pool, t, targets, n - 1, dryRun);
      if targets[n - 1].pool == pool then TableAfter(before, targets[n - 1], dryRun) else before
  }

  /** Among the first n targets, those that fail on the table they find. */
  ghost function CountFailures(targets: seq<Target>, n: nat, dryRun: bool): nat
    requires n <= |targets|
    reads set i | 0 <= i < |targets| :: targets[i].pool
  {
    if n == 0 then 0
    else
      var last := targets[n - 1];
      CountFailures(targets, n - 1, dryRun) +
      (if Fails(TableAt(last.pool, last.pool.table, targets, n - 1, dryRun), last, dryRun) then 1 else 0)
  }

  /** `runTargets` goes on past failures. */
  method RunTargets(targets: seq<Target>, dryRun: bool) returns (failures: nat, skipped: nat)
    modifies set i | 0 <= i < |targets| :: targets[i].pool
    ensures failures == old(CountFailures(targets, |targets|, dryRun)) && skipped == CountSkipped(targets)
    ensures forall i :: 0 <= i < |targets| ==>
              targets[i].pool.table
              == TableAt(targets[i].pool, old(targets[i].pool.table), targets, |targets|, dryRun)
  {
    hide MigratedTable;
    failures, skipped := 0, 0;
    for i := 0 to |targets|
      invariant failures == old(CountFailures(targets, i, dryRun)) && skipped == CountSkipped(targets[..i])
      invariant forall k :: 0 <= k < |targets| ==>
                  targets[k].pool.table == TableAt(targets[k].pool, old(targets[k].pool.table), targets, i, dryRun)
    {
      var target := targets[i];
      assert targets[..i + 1][..i] == targets[..i];
      if target.condition.Missing? {
        if target.skipIfMissing {
          skipped := skipped + 1;
        } else {
          failures := failures + 1;
        }
      } else {
        var summary := target.pool.MigrateDatabase(dryRun, target.condition.Answers?, target.canAlter, target.failAt);
        if summary.None? {
          failures := failures + 1;
        }
      }
    }
    assert targets[..|targets|] == targets;
  }

  /** Target k is a working connection to this database, with no failing statement. */
  predicate Completes(target: Target, pool: Pool) {
    target.pool == pool && target.condition.Answers? && target.failAt.None?
  }

  /**
   However many targets name a database, and whatever fails at the others: it ends migrated once if any of its
   targets gets through, and untouched otherwise.
   */
  lemma {:induction false} MigratedOnce(pool: Pool, t: Table, targets: seq<Target>, n: nat, dryRun: bool)
    requires n <= |targets|
    ensures TableAt(pool, t, targets, n, dryRun) ==
            if !dryRun && exists k :: 0 <= k < n && Completes(targets[k], pool) then MigratedTable(t) else t
  {
    if n > 0 {
      MigratedOnce(pool, t, targets, n - 1, dryRun);
    }
  }

  /** Target k finds both columns in place: from the start, or because an earlier target got through. */
  ghost predicate FindsMigrated(t: Table, targets: seq<Target>, k: nat, dryRun: bool)
    requires k < |targets|
  {
    || (t.hasFlag && t.hasChangedAt)
    || (!dryRun && exists j :: 0 <= j < k && Completes(targets[j], targets[k].pool))
  }

  /** When target k counts as failed, in terms of the first table and of what the run meets. */
  lemma FailsInWords(t: Table, targets: seq<Target>, k: nat, dryRun: bool)
    requires k < |targets|
    ensures
      var target := targets[k];
      Fails(TableAt(target.pool, t, targets, k, dryRun), target, dryRun) <==>
      match target.condition
      case Missing => !target.skipIfMissing
      case Unreachable => true
      case Answers => !FindsMigrated(t, targets, k, dryRun) && if dryRun then !target.canAlter else target.failAt.Some?
  {
    hide TableAt;
    MigratedOnce(targets[k].pool, t, targets, k, dryRun);
  }

  lemma {:induction false} SkippedCounted(targets: seq<Target>)
    ensures CountSkipped(targets) ==
            |set k | 0 <= k < |targets| && targets[k].condition.Missing? && targets[k].skipIfMissing|
  {
    if targets != [] {
      var n := |targets| - 1;
      var init := targets[..n];
      SkippedCounted(init);
      assert (set k | 0 <= k < |targets| && targets[k].condition.Missing? && targets[k].skipIfMissing)
          == (set k | 0 <= k < |init| && init[k].condition.Missing? && init[k].skipIfMissing)
             + (if targets[n].condition.Missing? && targets[n].skipIfMissing then {n} else {});
    }
  }

  /** A target that shares its database with no other ends, and fails or not, as if it were the only one. */
  lemma {:induction false} OnlyTarget(t: Table, targets: seq<Target>, i: nat, n: nat, dryRun: bool)
    requires i < |targets| && n <= |targets|
    requires forall k :: 0 <= k < |targets| && k != i ==> targets[k].pool != targets[i].pool
    ensures TableAt(targets[i].pool, t, targets, n, dryRun) ==
            if n <= i then t else TableAfter(t, targets[i], dryRun)
  {
    hide MigratedTable;
    if n > 0 {
      OnlyTarget(t, targets, i, n - 1, dryRun);
    }
  }

  // ----- Followed by the rollout

  /**
   Right after a migration that created the flag column, the rollout finds no employee left to flag, whoever is
   skipped.
   */
  lemma NoEmployeeLeftToFlag(t: Table, skip: seq<string>)
    requires !t.hasFlag
    ensures SelectedIds(Employees, MigratedTable(t).users, skip) == {}
  {
    var after := MigratedTable(t).users;
    forall id | id in after ensures !Selected(Employees, after[id], skip) {
      SelectedMeaning(Employees, after[id], skip);
      BackfilledMeaning(t.users[id]);
    }
  }

  /** Who must change their password after the migration and then a rollout over both groups. */
  lemma MigrationThenRollout(t: Table, skip: seq<string>, id: nat)
    requires !t.hasFlag && id in t.users
    ensures
      var u, migrated := t.users[id], MigratedTable(t).users;
      var after := Applied(Db(migrated, None), All, skip).users;
      && id in after
      && (after[id].mustChange <==>
          && NonPending(u)
          && (|| InGroup(Employees, u)
              || (InGroup(Admins, u) && migrated[id].changedAt.None?
                  && (skip == [] || (u.employeeId.Some? && u.employeeId.value !in skip)))))
  {
    var migrated := MigratedTable(t).users;
    AppliedMeaning(Db(migrated, None), All, skip);
    BackfilledMeaning(t.users[id]);
    SelectedMeaning(Employees, migrated[id], skip);
    SelectedMeaning(Admins, migrated[id], skip);
    assert OpenGroups(Db(migrated, None), All) == {Employees, Admins};
  }
}
