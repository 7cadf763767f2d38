/**
 The `users` rows the password scripts read, and their SQL conditions under three-valued logic.
 A column that may be NULL is an `Option`.
 */
module Accounts {
  import opened Wrappers

  // ----- Three-valued logic

  datatype Tri = True | False | Unknown

  function Not(a: Tri): Tri {
    match a case True => False case False => True case Unknown => Unknown
  }

  function And(a: Tri, b: Tri): Tri {
    if a.False? || b.False? then False else if a.True? && b.True? then True else Unknown
  }

  function Or(a: Tri, b: Tri): Tri {
    Not(And(Not(a), Not(b)))
  }

  function Lift(b: bool): Tri {
    if b then True else False
  }

  function Eq(column: Option<string>, value: string): Tri {
    if column.None? then Unknown else Lift(column.value == value)
  }

  /** `x IN (a, b, ...)` and `x = ANY(array)`: false over an empty array, even for NULL. */
  function EqAny(column: Option<string>, values: seq<string>): Tri {
    if values == [] then False else Or(Eq(column, values[0]), EqAny(column, values[1..]))
  }

  function Coalesce(column: Option<string>, default: string): Option<string> {
    if column.None? then Some(default) else column
  }

  /** A WHERE clause keeps a row only when the condition is true, not when it is unknown. */
  predicate Holds(a: Tri) {
    a.True?
  }

  lemma {:induction false} EqAnyMeaning(column: Option<string>, values: seq<string>)
    ensures EqAny(column, values) ==
            if values == [] then False
            else if column.None? then Unknown
            else Lift(column.value in values)
  {
    if values != [] {
      EqAnyMeaning(column, values[1..]);
    }
  }

  // ----- Rows

  datatype User = User(employeeId: Option<string>, role: Option<string>, access: Option<string>, status: Option<string>,
                       mustChange: bool, changedAt: Option<nat>)

  type Users = map<nat, User>

  datatype Group = Employees | Admins

  const ADMIN_TIERS := ["admin", "super_admin"]

  function AdminTier(u: User): Tri {
    EqAny(Coalesce(u.access, "employee"), ADMIN_TIERS)
  }

  /** The two `GROUPS[name].where` conditions. */
  function Where(g: Group, u: User): Tri {
    match g
    case Employees => And(Eq(u.role, "employee"), Not(AdminTier(u)))
    case Admins => Or(Eq(u.role, "admin"), AdminTier(u))
  }

  /** `ELIGIBLE`. */
  function Eligible(u: User): Tri {
    And(And(Lift(!u.mustChange), Lift(u.changedAt.None?)), Not(Eq(u.status, "pending")))
  }

  /** `NOT_SKIPPED`. */
  function NotSkipped(u: User, skip: seq<string>): Tri {
    Not(EqAny(u.employeeId, skip))
  }

  predicate Selected(g: Group, u: User, skip: seq<string>) {
    Holds(And(And(Eligible(u), Where(g, u)), NotSkipped(u, skip)))
  }

  /** The first migration's `BACKFILL_WHERE`. */
  predicate Backfilled(u: User) {
    Holds(And(And(Eq(u.role, "employee"), Not(AdminTier(u))), Not(Eq(u.status, "pending"))))
  }

  // ----- What the conditions say in two-valued terms

  predicate IsAdmin(u: User) {
    u.role == Some("admin") || u.access == Some("admin") || u.access == Some("super_admin")
  }

  predicate InGroup(g: Group, u: User) {
    match g
    case Employees => u.role == Some("employee") && !IsAdmin(u)
    case Admins => IsAdmin(u)
  }

  predicate NonPending(u: User) {
    u.status.Some? && u.status.value != "pending"
  }

  lemma AdminTierMeaning(u: User)
    ensures AdminTier(u) == Lift(u.access == Some("admin") || u.access == Some("super_admin"))
  {
    EqAnyMeaning(Coalesce(u.access, "employee"), ADMIN_TIERS);
  }

  lemma WhereMeaning(g: Group, u: User)
    ensures Holds(Where(g, u)) <==> InGroup(g, u)
  {
    AdminTierMeaning(u);
  }

  /**
   Exactly which accounts a rollout selects, for every combination of NULLs. In a database without the NOT NULL
   constraints a NULL status would exclude the account, and so would a NULL employee id as soon as any id is skipped.
   */
  lemma SelectedMeaning(g: Group, u: User, skip: seq<string>)
    ensures Selected(g, u, skip) <==>
            && InGroup(g, u) && NonPending(u) && !u.mustChange && u.changedAt.None?
            && (skip == [] || (u.employeeId.Some? && u.employeeId.value !in skip))
  {
    WhereMeaning(g, u);
    EqAnyMeaning(u.employeeId, skip);
  }

  /** Where the columns are NOT NULL, as in the repository's own schemas, the selection has no such exception. */
  lemma SelectedUnderSchema(g: Group, u: User, skip: seq<string>)
    requires u.employeeId.Some? && u.status.Some?
    ensures Selected(g, u, skip) <==>
            && InGroup(g, u) && u.status != Some("pending") && !u.mustChange && u.changedAt.None?
            && u.employeeId.value !in skip
  {
    SelectedMeaning(g, u, skip);
  }

  /** The same without the vocabulary of this file: every column and constant the two conditions mention. */
  lemma SelectedInWords(u: User, skip: seq<string>)
    ensures
      var open := u.status.Some? && u.status.value != "pending" && !u.mustChange && u.changedAt.None?
                  && (skip == [] || (u.employeeId.Some? && u.employeeId.value !in skip));
      var admin := u.role == Some("admin") || u.access == Some("admin") || u.access == Some("super_admin");
      && (Selected(Employees, u, skip) <==> open && u.role == Some("employee") && !admin)
      && (Selected(Admins, u, skip) <==> open && admin)
  {
    SelectedMeaning(Employees, u, skip);
    SelectedMeaning(Admins, u, skip);
  }

  lemma BackfilledInWords(u: User)
    ensures Backfilled(u) <==>
            && u.role == Some("employee") && u.access != Some("admin") && u.access != Some("super_admin")
            && u.status.Some? && u.status.value != "pending"
  {
    BackfilledMeaning(u);
  }

  lemma BackfilledMeaning(u: User)
    ensures Backfilled(u) <==> InGroup(Employees, u) && NonPending(u)
  {
    AdminTierMeaning(u);
  }

  /** The groups never overlap, and together they hold every account whose role is set. */
  lemma GroupsPartition(u: User)
    ensures !(Holds(Where(Employees, u)) && Holds(Where(Admins, u)))
    ensures u.role == Some("employee") || u.role == Some("admin") ==>
              Holds(Where(Employees, u)) || Holds(Where(Admins, u))
  {
    WhereMeaning(Employees, u);
    WhereMeaning(Admins, u);
  }

  // ----- Updates

  /** Any other writer's insert, update or delete of one row. */
  function SetRow(users: Users, id: nat, row: Option<User>): Users {
    if row.None? then users - {id} else users[id := row.value]
  }

  function RowOf(users: Users, id: nat): Option<User> {
    if id in users then Some(users[id]) else None
  }

  /** One such write in a history: the row this id has from then on. */
  datatype RowEdit = RowEdit(id: nat, row: Option<User>)

  /** The row as the other writers alone would have left it, in a history whose edits `editOf` picks out. */
  function EditedRow<Event>(row: Option<User>, tr: seq<Event>, editOf: Event -> Option<RowEdit>, id: nat): Option<User>
  {
    if tr == [] then row
    else
      var last := editOf(tr[|tr| - 1]);
      if last.Some? && last.value.id == id then last.value.row else EditedRow(row, tr[..|tr| - 1], editOf, id)
  }

  function SelectedIds(g: Group, users: Users, skip: seq<string>): set<nat> {
    set id | id in users && Selected(g, users[id], skip)
  }

  /** `SET must_change_password = TRUE` for these ids. */
  function FlagUsers(users: Users, ids: set<nat>): (r: Users)
    ensures r.Keys == users.Keys
  {
    map id | id in users :: if id in ids then users[id].(mustChange := true) else users[id]
  }

  /** Flagging one group does not change which accounts the other group's UPDATE selects. */
  lemma FlaggingKeepsOtherGroup(users: Users, g: Group, h: Group, skip: seq<string>)
    requires g != h
    ensures SelectedIds(h, FlagUsers(users, SelectedIds(g, users, skip)), skip) == SelectedIds(h, users, skip)
  {
    var flagged := FlagUsers(users, SelectedIds(g, users, skip));
    forall id | id in users ensures Selected(h, flagged[id], skip) <==> Selected(h, users[id], skip) {
      SelectedMeaning(g, users[id], skip);
      SelectedMeaning(h, users[id], skip);
      SelectedMeaning(h, users[id].(mustChange := true), skip);
    }
  }
}
