/**
 The one-time rollout over many databases: preflight every database, then apply them one after
 another, stopping at the first failure. This file has one run at a time; overlapping runs on
 one database are in `RolloutHistory`.
 */
module Rollout {
  import opened Wrappers
  import opened Accounts

  datatype Scope = All | OnlyEmployees | OnlyAdmins

  /** One row of the marker table; `completed_at` is left out. */
  datatype Marker = Marker(scope: Scope, flaggedCount: nat, flaggedIds: set<nat>)

  /** `markers` is `None` while the marker table does not exist. */
  datatype Db = Db(users: Users, markers: Option<map<Group, Marker>>)

  function GroupsFor(scope: Scope): seq<Group> {
    match scope
    case All => [Employees, Admins]
    case OnlyEmployees => [Employees]
    case OnlyAdmins => [Admins]
  }

  function MarkersOf(db: Db): map<Group, Marker> {
    if db.markers.Some? then db.markers.value else map[]
  }

  // ----- One database

  /** One round of the loop in `applyDatabase`. */
  function ApplyGroup(db: Db, g: Group, scope: Scope, skip: seq<string>): Db {
    if g in MarkersOf(db) then db
    else
      var ids := SelectedIds(g, db.users, skip);
      Db(FlagUsers(db.users, ids), Some(MarkersOf(db)[g := Marker(scope, |ids|, ids)]))
  }

  function ApplyGroups(db: Db, groups: seq<Group>, scope: Scope, skip: seq<string>): Db {
    if groups == [] then db
    else ApplyGroup(ApplyGroups(db, groups[..|groups| - 1], scope, skip), groups[|groups| - 1], scope, skip)
  }

  lemma ApplyGroupsNone(db: Db, groups: seq<Group>, scope: Scope, skip: seq<string>)
    ensures ApplyGroups(db, groups[..0], scope, skip) == db
  {
  }

  lemma ApplyGroupsStep(db: Db, groups: seq<Group>, k: nat, scope: Scope, skip: seq<string>)
    requires k < |groups|
    ensures ApplyGroups(db, groups[..k + 1], scope, skip)
         == ApplyGroup(ApplyGroups(db, groups[..k], scope, skip), groups[k], scope, skip)
  {
    assert groups[..k + 1][..k] == groups[..k];
  }

  /** The committed effect of `applyDatabase`. */
  function Applied(db: Db, scope: Scope, skip: seq<string>): Db {
    ApplyGroups(db.(markers := Some(MarkersOf(db))), GroupsFor(scope), scope, skip)
  }

  /** The groups `preflightDatabase` reports as open. */
  function OpenGroups(db: Db, scope: Scope): set<Group> {
    set g | g in GroupsFor(scope) && g !in MarkersOf(db)
  }

  predicate HasOpen(db: Db, scope: Scope) {
    OpenGroups(db, scope) != {}
  }

  /** The accounts that these groups select on the original data. */
  function SelectedBy(groups: set<Group>, users: Users, skip: seq<string>): set<nat> {
    set id | id in users && exists g :: g in groups && Selected(g, users[id], skip)
  }

  /** `applyDatabase` in one formula: each open group is flagged by what it selects on the original data. */
  lemma AppliedMeaning(db: Db, scope: Scope, skip: seq<string>)
    ensures
      var after, open := Applied(db, scope, skip), OpenGroups(db, scope);
      && after.markers.Some?
      && after.markers.value.Keys == MarkersOf(db).Keys + open
      && (forall g :: g in MarkersOf(db) ==> after.markers.value[g] == MarkersOf(db)[g])
      && (forall g :: g in open ==>
            var ids := SelectedIds(g, db.users, skip);
            after.markers.value[g] == Marker(scope, |ids|, ids))
      && after.users == FlagUsers(db.users, SelectedBy(open, db.users, skip))
  {
    hide Selected;
    var start := db.(markers := Some(MarkersOf(db)));
    match scope
    case OnlyEmployees => OneGroupMeaning(start, Employees, scope, skip);
    case OnlyAdmins => OneGroupMeaning(start, Admins, scope, skip);
    case All =>
      assert GroupsFor(All)[..1] == GroupsFor(OnlyEmployees);
      OneGroupMeaning(start, Employees, scope, skip);
      FlaggingKeepsOtherGroup(db.users, Employees, Admins, skip);
  }

  lemma OneGroupMeaning(db: Db, g: Group, scope: Scope, skip: seq<string>)
    ensures ApplyGroups(db, [g], scope, skip) == ApplyGroup(db, g, scope, skip)
  {
    assert [g][..0] == [];
    assert ApplyGroups(db, [], scope, skip) == db;
  }

  /** A database with no open group is left exactly as it is. */
  lemma NothingOpenNothingDone(db: Db, scope: Scope, skip: seq<string>)
    requires !HasOpen(db, scope)
    ensures Applied(db, scope, skip) == db
  {
    AppliedMeaning(db, scope, skip);
    var g := GroupsFor(scope)[0];
    assert g in GroupsFor(scope) && g !in OpenGroups(db, scope);
    var after := Applied(db, scope, skip);
    assert after.users == db.users;
    assert after.markers.value == MarkersOf(db);
  }

  /**
   After it is applied, a database has no open group, so applying it again changes nothing, whatever the skip list.
   */
  lemma AppliedIsDone(db: Db, scope: Scope, skip: seq<string>, skip': seq<string>)
    ensures !HasOpen(Applied(db, scope, skip), scope)
    ensures Applied(Applied(db, scope, skip), scope, skip') == Applied(db, scope, skip)
  {
    AppliedMeaning(db, scope, skip);
    NothingOpenNothingDone(Applied(db, scope, skip), scope, skip');
  }

  function WithoutScope(m: map<Group, Marker>): map<Group, (nat, set<nat>)> {
    map g | g in m :: (m[g].flaggedCount, m[g].flaggedIds)
  }

  /** Once the employees are flagged, the admins group still selects the same accounts. */
  lemma AdminsUnaffected(db: Db, skip: seq<string>)
    ensures SelectedIds(Admins, Applied(db, OnlyEmployees, skip).users, skip) == SelectedIds(Admins, db.users, skip)
  {
    hide Selected, Applied;
    AppliedMeaning(db, OnlyEmployees, skip);
    var first := Applied(db, OnlyEmployees, skip);
    var e := OpenGroups(db, OnlyEmployees);
    forall id | id in db.users
      ensures Selected(Admins, first.users[id], skip) <==> Selected(Admins, db.users[id], skip)
    {
      if id in SelectedBy(e, db.users, skip) {
        NotInBoth(db.users[id], skip);
      }
    }
  }

  lemma StagedMarkers(db: Db, skip: seq<string>)
    ensures
      var staged, all := Applied(Applied(db, OnlyEmployees, skip), OnlyAdmins, skip), Applied(db, All, skip);
      WithoutScope(MarkersOf(staged)) == WithoutScope(MarkersOf(all))
  {
    hide Selected, SelectedIds, FlagUsers, Applied;
    var first := Applied(db, OnlyEmployees, skip);
    AppliedMeaning(db, OnlyEmployees, skip);
    AppliedMeaning(db, All, skip);
    AppliedMeaning(first, OnlyAdmins, skip);
    AdminsUnaffected(db, skip);
  }

  lemma StagedUsers(db: Db, skip: seq<string>)
    ensures Applied(Applied(db, OnlyEmployees, skip), OnlyAdmins, skip).users == Applied(db, All, skip).users
  {
    hide Selected, Applied;
    var first := Applied(db, OnlyEmployees, skip);
    AppliedMeaning(db, OnlyEmployees, skip);
    AppliedMeaning(db, All, skip);
    AppliedMeaning(first, OnlyAdmins, skip);
    AdminsUnaffected(db, skip);
    var e, a := OpenGroups(db, OnlyEmployees), OpenGroups(first, OnlyAdmins);
    assert OpenGroups(db, All) == e + a;
    forall id | id in db.users ensures id in SelectedBy(a, first.users, skip) <==> id in SelectedBy(a, db.users, skip) {
      assert id in SelectedIds(Admins, first.users, skip) <==> id in SelectedIds(Admins, db.users, skip);
    }
    assert SelectedBy(e + a, db.users, skip) == SelectedBy(e, db.users, skip) + SelectedBy(a, db.users, skip);
  }

  /** Staging: employees first and admins later gives the flags and the marker ids of a single run over both. */
  lemma StagedEqualsAll(db: Db, skip: seq<string>)
    ensures
      var staged, all := Applied(Applied(db, OnlyEmployees, skip), OnlyAdmins, skip), Applied(db, All, skip);
      staged.users == all.users && WithoutScope(MarkersOf(staged)) == WithoutScope(MarkersOf(all))
  {
    StagedUsers(db, skip);
    StagedMarkers(db, skip);
  }

  lemma NotInBoth(u: User, skip: seq<string>)
    requires Selected(Employees, u, skip)
    ensures !Selected(Admins, u, skip) && !Selected(Admins, u.(mustChange := true), skip)
  {
    SelectedMeaning(Employees, u, skip);
    SelectedMeaning(Admins, u, skip);
    SelectedMeaning(Admins, u.(mustChange := true), skip);
  }

  // ----- In words

  predicate Covers(scope: Scope, g: Group) {
    match scope
    case All => true
    case OnlyEmployees => g.Employees?
    case OnlyAdmins => g.Admins?
  }

  /** Nothing has recorded this group yet, be it for want of the table or of the row. */
  predicate Unrecorded(db: Db, g: Group) {
    db.markers.None? || g !in db.markers.value
  }

  lemma OpenInWords(db: Db, scope: Scope, g: Group)
    ensures g in OpenGroups(db, scope) <==> Covers(scope, g) && Unrecorded(db, g)
  {
  }

  /**
   One transaction, account by account and group by group: an account is flagged exactly when a covered, unrecorded
   group selects it, nothing else about it changes, and each such group records exactly the accounts it selects.
   */
  lemma AppliedInWords(db: Db, scope: Scope, skip: seq<string>, id: nat, g: Group)
    ensures
      var after := Applied(db, scope, skip);
      && (id in after.users <==> id in db.users)
      && (id in db.users ==>
            var u := db.users[id];
            after.users[id] ==
              if exists h :: Covers(scope, h) && Unrecorded(db, h) && Selected(h, u, skip)
              then User(u.employeeId, u.role, u.access, u.status, true, u.changedAt) else u)
      && after.markers.Some?
      && (!Unrecorded(db, g) ==> g in after.markers.value && after.markers.value[g] == db.markers.value[g])
      && (Unrecorded(db, g) ==> (g in after.markers.value <==> Covers(scope, g)))
      && (Unrecorded(db, g) && Covers(scope, g) ==>
            var ids := set i | i in db.users && Selected(g, db.users[i], skip);
            after.markers.value[g] == Marker(scope, |ids|, ids))
  {
    hide Selected, Applied;
    AppliedMeaning(db, scope, skip);
    forall h ensures h in OpenGroups(db, scope) <==> Covers(scope, h) && Unrecorded(db, h) {
      OpenInWords(db, scope, h);
    }
    assert SelectedIds(g, db.users, skip) == set i | i in db.users && Selected(g, db.users[i], skip);
  }
}
