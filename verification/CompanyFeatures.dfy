/**
 Giving every existing company every feature. The inserts are separate statements, so runs, owners and
 crashes may come between any two of them.
 */
module CompanyFeatures {
  import opened Wrappers

  /** Primary key of `company_features`; the row's value is `enabled`. */
  datatype Key = Key(company: nat, feature: string)

  type Rows = map<Key, bool>

  predicate HasRows(rows: Rows, company: nat) {
    exists k :: k in rows && k.company == company
  }

  predicate Complete(rows: Rows, catalog: seq<string>, company: nat) {
    forall f :: f in catalog ==> Key(company, f) in rows
  }

  /** `INSERT ... ON CONFLICT DO NOTHING`. */
  function InsertIfAbsent(rows: Rows, key: Key): Rows {
    if key in rows then rows else rows[key := true]
  }

  ghost predicate Ascending(ids: seq<nat>) {
    forall i, j :: 0 <= i < j < |ids| ==> ids[i] < ids[j]
  }

  /** The companies without any row, by id. */
  ghost predicate IsSelection(rows: Rows, companies: set<nat>, selected: seq<nat>) {
    Ascending(selected) && forall c :: c in selected <==> c in companies && !HasRows(rows, c)
  }

  /** What an undisturbed run leaves: TRUE for every feature of every selected company, everything else as it was. */
  function BackfilledRows(rows: Rows, selected: seq<nat>, catalog: seq<string>): Rows {
    (map c, f | c in selected && f in catalog :: Key(c, f) := true) + rows
  }

  // ----- One run by itself

  class Platform {
    var rows: Rows
    const companies: set<nat>
    const catalog: seq<string>

    constructor (companies: set<nat>, catalog: seq<string>)
      ensures rows == map[] && this.companies == companies && this.catalog == catalog
    {
      rows := map[];
      this.companies, this.catalog := companies, catalog;
    }

    /** `selected` is what the `SELECT ... ORDER BY` over companies without rows returns. */
    method BackfillExistingCompanies(selected: seq<nat>) returns (backfilled: nat)
      requires IsSelection(rows, companies, selected)
      modifies this
      ensures backfilled == |selected|
      ensures rows == BackfilledRows(old(rows), selected, catalog)
      ensures forall c :: c in companies && !HasRows(old(rows), c) ==> Complete(rows, catalog, c)
    {
      for i := 0 to |selected|
        invariant rows == BackfilledRows(old(rows), selected[..i], catalog)
      {
        ghost var before := rows;
        for j := 0 to |catalog|
          invariant rows == BackfilledRows(before, [selected[i]], catalog[..j])
        {
          InsertOne(before, selected[i], catalog, j);
          rows := InsertIfAbsent(rows, Key(selected[i], catalog[j]));
        }
        assert catalog[..|catalog|] == catalog;
        AnotherCompany(old(rows), selected, i, catalog);
      }
      assert selected[..|selected|] == selected;
      backfilled := |selected|;
    }
  }

  lemma InsertOne(rows: Rows, company: nat, catalog: seq<string>, j: nat)
    requires j < |catalog|
    ensures InsertIfAbsent(BackfilledRows(rows, [company], catalog[..j]), Key(company, catalog[j]))
         == BackfilledRows(rows, [company], catalog[..j + 1])
  {
    hide BackfilledRows;
    var a := InsertIfAbsent(BackfilledRows(rows, [company], catalog[..j]), Key(company, catalog[j]));
    var b := BackfilledRows(rows, [company], catalog[..j + 1]);
    assert catalog[..j + 1] == catalog[..j] + [catalog[j]];
    forall k ensures (k in a <==> k in b) && (k in a ==> a[k] == b[k]) {
      BackfilledKey(rows, [company], catalog[..j], k);
      BackfilledKey(rows, [company], catalog[..j + 1], k);
    }
    assert a == b;
  }

  lemma BackfilledKey(rows: Rows, selected: seq<nat>, catalog: seq<string>, k: Key)
    ensures
      var after := BackfilledRows(rows, selected, catalog);
      && (k in after <==> k in rows || (k.company in selected && k.feature in catalog))
      && (k in after ==> after[k] == if k in rows then rows[k] else true)
  {
  }

  lemma AnotherCompany(rows: Rows, selected: seq<nat>, i: nat, catalog: seq<string>)
    requires i < |selected|
    ensures BackfilledRows(BackfilledRows(rows, selected[..i], catalog), [selected[i]], catalog)
         == BackfilledRows(rows, selected[..i + 1], catalog)
  {
    hide BackfilledRows;
    var before := BackfilledRows(rows, selected[..i], catalog);
    var a, b := BackfilledRows(before, [selected[i]], catalog), BackfilledRows(rows, selected[..i + 1], catalog);
    assert selected[..i + 1] == selected[..i] + [selected[i]];
    forall k ensures (k in a <==> k in b) && (k in a ==> a[k] == b[k]) {
      BackfilledKey(rows, selected[..i], catalog, k);
      BackfilledKey(before, [selected[i]], catalog, k);
      BackfilledKey(rows, selected[..i + 1], catalog, k);
    }
    assert a == b;
  }

  /** An undisturbed run completes a company exactly when it had no row at all, or was complete already. */
  lemma CompletedExactly(rows: Rows, companies: set<nat>, selected: seq<nat>, catalog: seq<string>, c: nat)
    requires IsSelection(rows, companies, selected) && c in companies
    ensures Complete(BackfilledRows(rows, selected, catalog), catalog, c) <==>
            !HasRows(rows, c) || Complete(rows, catalog, c)
  {
    var after := BackfilledRows(rows, selected, catalog);
    if HasRows(rows, c) {
      forall f | f in catalog ensures Key(c, f) in after <==> Key(c, f) in rows {
        assert c !in selected;
      }
    }
  }

  // ----- Overlapping runs, owners and crashes

  function KeysFor(company: nat, catalog: seq<string>): seq<Key> {
    seq(|catalog|, i requires 0 <= i < |catalog| => Key(company, catalog[i]))
  }

  /** The order in which the two nested loops insert. */
  function InsertOrder(selected: seq<nat>, catalog: seq<string>): seq<Key> {
    if selected == [] then [] else KeysFor(selected[0], catalog) + InsertOrder(selected[1..], catalog)
  }

  datatype Run = Run(selected: seq<nat>, todo: seq<Key>)

  /** A crashed run leaves `runs`; a finished one stays with nothing to do. */
  datatype Sys = Sys(rows: Rows, companies: set<nat>, runs: map<nat, Run>)

  datatype Event =
    | Start(p: nat, selected: seq<nat>)
    | Insert(p: nat)
    | Crash(p: nat)
    | Owner(company: nat, wanted: set<string>)
    | AddCompany(company: nat)

  ghost predicate Enabled(s: Sys, e: Event) {
    match e
    case Start(p, selected) => p !in s.runs && IsSelection(s.rows, s.companies, selected)
    case Insert(p) => p in s.runs && s.runs[p].todo != []
    case Crash(p) => p in s.runs
    case Owner(_, _) => true
    case AddCompany(_) => true
  }

  /** The owner's screen writes an explicit row for every feature, in one transaction. */
  function OwnerRows(rows: Rows, catalog: seq<string>, company: nat, wanted: set<string>): Rows {
    rows + map f | f in catalog :: Key(company, f) := f in wanted
  }

  ghost function Next(s: Sys, catalog: seq<string>, e: Event): Sys
    requires Enabled(s, e)
  {
    match e
    case Start(p, selected) => s.(runs := s.runs[p := Run(selected, InsertOrder(selected, catalog))])
    case Insert(p) =>
      var run := s.runs[p];
      s.(rows := InsertIfAbsent(s.rows, run.todo[0]), runs := s.runs[p := run.(todo := run.todo[1..])])
    case Crash(p) => s.(runs := s.runs - {p})
    case Owner(company, wanted) => s.(rows := OwnerRows(s.rows, catalog, company, wanted))
    case AddCompany(company) => s.(companies := s.companies + {company})
  }

  ghost function After(s: Sys, catalog: seq<string>, tr: seq<Event>): Option<Sys> {
    if tr == [] then Some(s)
    else
      match After(s, catalog, tr[..|tr| - 1])
      case None => None
      case Some(before) => if Enabled(before, tr[|tr| - 1]) then Some(Next(before, catalog, tr[|tr| - 1])) else None
  }

  /** Whatever a run has selected is stored already or still to be inserted. */
  ghost predicate RunValid(rows: Rows, catalog: seq<string>, run: Run) {
    forall c, f :: c in run.selected && f in catalog ==> Key(c, f) in rows || Key(c, f) in run.todo
  }

  ghost predicate Valid(s: Sys, catalog: seq<string>) {
    forall p :: p in s.runs ==> RunValid(s.rows, catalog, s.runs[p])
  }

  lemma {:induction false} InsertOrderHasAll(selected: seq<nat>, catalog: seq<string>, c: nat, f: string)
    ensures Key(c, f) in InsertOrder(selected, catalog) <==> c in selected && f in catalog
  {
    if selected != [] {
      InsertOrderHasAll(selected[1..], catalog, c, f);
      var keys := KeysFor(selected[0], catalog);
      if c == selected[0] && f in catalog {
        var i :| 0 <= i < |catalog| && catalog[i] == f;
        assert keys[i] == Key(c, f);
      }
    }
  }

  lemma NextValid(s: Sys, catalog: seq<string>, e: Event)
    requires Valid(s, catalog) && Enabled(s, e)
    ensures Valid(Next(s, catalog, e), catalog)
  {
    var s' := Next(s, catalog, e);
    forall q | q in s'.runs ensures RunValid(s'.rows, catalog, s'.runs[q]) {
      if e.Start? && q == e.p {
        forall c, f | c in e.selected && f in catalog ensures Key(c, f) in s'.runs[q].todo {
          InsertOrderHasAll(e.selected, catalog, c, f);
        }
      } else {
        assert RunValid(s.rows, catalog, s.runs[q]);
        if e.Insert? && q == e.p {
          assert s.runs[q].todo == [s.runs[q].todo[0]] + s'.runs[q].todo;
        }
      }
    }
  }

  lemma {:induction false} AfterValid(s: Sys, catalog: seq<string>, tr: seq<Event>)
    requires Valid(s, catalog) && After(s, catalog, tr).Some?
    ensures Valid(After(s, catalog, tr).value, catalog)
  {
    hide Valid, Next;
    if tr != [] {
      AfterValid(s, catalog, tr[..|tr| - 1]);
      NextValid(After(s, catalog, tr[..|tr| - 1]).value, catalog, tr[|tr| - 1]);
    }
  }

  /**
   Every company a finished run selected has a row for every feature, whatever other runs and owners did meanwhile.
   */
  lemma FinishedRunCompletes(s: Sys, catalog: seq<string>, tr: seq<Event>, p: nat, c: nat)
    requires Valid(s, catalog) && After(s, catalog, tr).Some?
    requires p in After(s, catalog, tr).value.runs && After(s, catalog, tr).value.runs[p].todo == []
    requires c in After(s, catalog, tr).value.runs[p].selected
    ensures Complete(After(s, catalog, tr).value.rows, catalog, c)
  {
    AfterValid(s, catalog, tr);
    var after := After(s, catalog, tr).value;
    assert RunValid(after.rows, catalog, after.runs[p]);
  }

  /** The companies are those of the start and those added since. */
  lemma {:induction false} CompaniesGrow(s: Sys, catalog: seq<string>, tr: seq<Event>, c: nat)
    requires After(s, catalog, tr).Some?
    ensures c in After(s, catalog, tr).value.companies <==> c in s.companies || AddCompany(c) in tr
  {
    if tr != [] {
      var n := |tr| - 1;
      CompaniesGrow(s, catalog, tr[..n], c);
      assert tr == tr[..n] + [tr[n]];
    }
  }

  /** The k-th insert of a run nobody interferes with. */
  lemma {:induction false} LoneInserts(s: Sys, catalog: seq<string>, p: nat, k: nat)
    requires p in s.runs && k <= |s.runs[p].todo|
    ensures
      var after := After(s, catalog, seq(k, _ => Insert(p)));
      && after.Some? && after.value.companies == s.companies
      && after.value.runs == s.runs[p := s.runs[p].(todo := s.runs[p].todo[k..])]
      && Inserted(s.rows, after.value.rows, s.runs[p].todo[..k])
  {
    hide Inserted, InsertIfAbsent;
    var tr := seq(k, _ => Insert(p));
    if k == 0 {
      assert tr == [] && s.runs[p].todo[..0] == [];
      NothingInserted(s.rows);
    } else {
      LoneInserts(s, catalog, p, k - 1);
      assert tr[..k - 1] == seq(k - 1, _ => Insert(p));
      var todo := s.runs[p].todo;
      assert todo[k - 1..][0] == todo[k - 1] && todo[k - 1..][1..] == todo[k..];
      assert todo[..k] == todo[..k - 1] + [todo[k - 1]];
      OneMoreInserted(s.rows, After(s, catalog, tr[..k - 1]).value.rows, todo[..k - 1], todo[k - 1]);
    }
  }

  /** These keys have a row now, TRUE unless they had one before, and every other key is as it was. */
  ghost predicate Inserted(before: Rows, after: Rows, keys: seq<Key>) {
    && (forall k :: k in after <==> k in before || k in keys)
    && (forall k :: k in after ==> after[k] == if k in before then before[k] else true)
  }

  lemma NothingInserted(rows: Rows)
    ensures Inserted(rows, rows, [])
  {
  }

  lemma OneMoreInserted(before: Rows, now: Rows, keys: seq<Key>, key: Key)
    requires Inserted(before, now, keys)
    ensures Inserted(before, InsertIfAbsent(now, key), keys + [key])
  {
  }

  /** Insert by insert or in one formula, a run that nobody interferes with comes to the same, and to its end. */
  lemma UndisturbedRunIsBackfilled(s: Sys, catalog: seq<string>, p: nat, selected: seq<nat>)
    requires Enabled(s, Start(p, selected))
    ensures
      var begun := Next(s, catalog, Start(p, selected));
      var after := After(begun, catalog, seq(|begun.runs[p].todo|, _ => Insert(p)));
      && after.Some? && after.value.runs[p].todo == []
      && after.value.rows == BackfilledRows(s.rows, selected, catalog)
  {
    hide BackfilledRows, After, IsSelection;
    var begun := Next(s, catalog, Start(p, selected));
    var todo := begun.runs[p].todo;
    LoneInserts(begun, catalog, p, |todo|);
    assert todo[..|todo|] == todo;
    var a := After(begun, catalog, seq(|todo|, _ => Insert(p))).value.rows;
    var b := BackfilledRows(s.rows, selected, catalog);
    forall key ensures (key in a <==> key in b) && (key in a ==> a[key] == b[key]) {
      InsertOrderHasAll(selected, catalog, key.company, key.feature);
      BackfilledKey(s.rows, selected, catalog, key);
    }
    assert a == b;
  }

  /** The value the owners alone decide: their last write, else the row as it was, else TRUE. */
  function OwnersValue(rows: Rows, catalog: seq<string>, tr: seq<Event>, k: Key): bool {
    if tr == [] then (if k in rows then rows[k] else true)
    else
      var e := tr[|tr| - 1];
      if e.Owner? && e.company == k.company && k.feature in catalog then k.feature in e.wanted
      else OwnersValue(rows, catalog, tr[..|tr| - 1], k)
  }

  /**
   No run ever changes or removes an existing row: over every history each row holds the owner's last decision,
   or what it held at the start, or TRUE if a run created it. A feature the owner switched off stays off.
   */
  lemma {:induction false} OwnersDecide(s: Sys, catalog: seq<string>, tr: seq<Event>, k: Key)
    requires After(s, catalog, tr).Some?
    ensures
      var after := After(s, catalog, tr).value;
      && (k in s.rows ==> k in after.rows)
      && (k in after.rows ==> after.rows[k] == OwnersValue(s.rows, catalog, tr, k))
      && (k !in after.rows ==> OwnersValue(s.rows, catalog, tr, k))
  {
    if tr != [] {
      OwnersDecide(s, catalog, tr[..|tr| - 1], k);
    }
  }

  /** No run in progress still has this company to do. */
  ghost predicate Untouched(s: Sys, c: nat) {
    forall p, k :: p in s.runs && k in s.runs[p].todo ==> k.company != c
  }

  /**
   The documentation calls the script safe to repeat, but a crash between two inserts of one company is not repaired:
   that company has rows now, so no later run selects it, and its missing features stay missing until an owner acts.
   */
  lemma {:induction false} InterruptedCompanyStaysIncomplete(s: Sys, catalog: seq<string>, tr: seq<Event>, c: nat)
    requires After(s, catalog, tr).Some? && HasRows(s.rows, c) && Untouched(s, c)
    requires forall i :: 0 <= i < |tr| ==> !(tr[i].Owner? && tr[i].company == c)
    ensures
      var after := After(s, catalog, tr).value;
      && Untouched(after, c)
      && (forall k: Key :: k.company == c ==> (k in after.rows <==> k in s.rows))
  {
    if tr != [] {
      var init, e := tr[..|tr| - 1], tr[|tr| - 1];
      InterruptedCompanyStaysIncomplete(s, catalog, init, c);
      StaysIncomplete(After(s, catalog, init).value, catalog, e, s.rows, c);
    }
  }

  lemma StaysIncomplete(s: Sys, catalog: seq<string>, e: Event, rows: Rows, c: nat)
    requires Enabled(s, e) && Untouched(s, c) && HasRows(rows, c) && !(e.Owner? && e.company == c)
    requires forall k: Key :: k.company == c ==> (k in s.rows <==> k in rows)
    ensures Untouched(Next(s, catalog, e), c)
    ensures forall k: Key :: k.company == c ==> (k in Next(s, catalog, e).rows <==> k in rows)
  {
    var s' := Next(s, catalog, e);
    if e.Start? {
      var k0 :| k0 in rows && k0.company == c;
      assert HasRows(s.rows, c);
      forall k | k in s'.runs[e.p].todo ensures k.company != c {
        InsertOrderHasAll(e.selected, catalog, k.company, k.feature);
      }
    }
  }

  lemma AfterSnoc(s: Sys, catalog: seq<string>, tr: seq<Event>, e: Event)
    requires After(s, catalog, tr).Some? && Enabled(After(s, catalog, tr).value, e)
    ensures After(s, catalog, tr + [e]) == Some(Next(After(s, catalog, tr).value, catalog, e))
  {
    assert (tr + [e])[..|tr|] == tr;
  }

  lemma AfterNothing(s: Sys, catalog: seq<string>)
    ensures After(s, catalog, []) == Some(s)
  {
  }

  lemma TwoFeatures()
    ensures InsertOrder([1], ["dashboard", "reports"]) == [Key(1, "dashboard"), Key(1, "reports")]
    ensures InsertOrder([], ["dashboard", "reports"]) == []
  {
    assert InsertOrder([1], ["dashboard", "reports"])
        == KeysFor(1, ["dashboard", "reports"]) + InsertOrder([], ["dashboard", "reports"]);
  }

  lemma Selections(rows: Rows)
    ensures IsSelection(map[], {1}, [1])
    ensures HasRows(rows, 1) ==> IsSelection(rows, {1}, [])
  {
    assert !HasRows(map[], 1);
  }

  /** The crash comes after the first of the two inserts. */
  lemma CrashAfterOneInsert()
    ensures
      var catalog, start := ["dashboard", "reports"], Sys(map[], {1}, map[]);
      After(start, catalog, [Start(0, [1]), Insert(0), Crash(0)])
      == Some(Sys(map[Key(1, "dashboard") := true], {1}, map[]))
  {
    hide After, InsertOrder, IsSelection;
    var catalog, s0 := ["dashboard", "reports"], Sys(map[], {1}, map[]);
    TwoFeatures();
    Selections(map[]);
    AfterNothing(s0, catalog);
    AfterSnoc(s0, catalog, [], Start(0, [1]));
    assert [] + [Start(0, [1])] == [Start(0, [1])];
    AfterSnoc(s0, catalog, [Start(0, [1])], Insert(0));
    assert [Start(0, [1])] + [Insert(0)] == [Start(0, [1]), Insert(0)];
    AfterSnoc(s0, catalog, [Start(0, [1]), Insert(0)], Crash(0));
    assert [Start(0, [1]), Insert(0)] + [Crash(0)] == [Start(0, [1]), Insert(0), Crash(0)];
  }

  /**
   The smallest such history: one company, two features, a crash after the first insert, then a complete second
   run.
   */
  lemma CrashThenRerunLosesAFeature()
    ensures
      var catalog := ["dashboard", "reports"];
      var start := Sys(map[], {1}, map[]);
      var tr := [Start(0, [1]), Insert(0), Crash(0), Start(1, [])];
      var after := After(start, catalog, tr);
      && after.Some? && after.value.runs == map[1 := Run([], [])]
      && HasRows(after.value.rows, 1) && !Complete(after.value.rows, catalog, 1)
  {
    hide After, InsertOrder, IsSelection;
    var catalog, s0 := ["dashboard", "reports"], Sys(map[], {1}, map[]);
    var rows := map[Key(1, "dashboard") := true];
    assert Key(1, "dashboard") in rows && HasRows(rows, 1);
    TwoFeatures();
    Selections(rows);
    CrashAfterOneInsert();
    AfterSnoc(s0, catalog, [Start(0, [1]), Insert(0), Crash(0)], Start(1, []));
    assert [Start(0, [1]), Insert(0), Crash(0)] + [Start(1, [])] == [Start(0, [1]), Insert(0), Crash(0), Start(1, [])];
    assert "reports" == catalog[1] && Key(1, "reports") !in rows;
  }
}
