/**
 What every history of one sheet, and every interleaving over all sheets, guarantees.
 */
module SheetLaws {
  import opened Wrappers
  import opened SheetKeys
  import opened SheetDoc
  import opened SheetStore
  import opened SheetWorld

  // ----- In call order

  ghost function OneByOne(d: Option<Doc>, ops: seq<Op>, limits: Limits): Option<Doc> {
    if ops == [] then d
    else Execute(OneByOne(d, ops[..|ops| - 1], limits), ops[|ops| - 1], false, limits).0
  }

  lemma {:induction false} TurnsOnly(s: nat, d: Option<Doc>, calls: seq<Op>, marks: seq<Mark>, limits: Limits)
    requires forall i :: 0 <= i < |marks| ==> marks[i] == Turn(false, limits)
    requires Turns(marks) <= |calls|
    ensures Turns(marks) == |marks|
    ensures Replay(s, d, Scheduled(calls, marks)) == OneByOne(d, calls[..|marks|], limits)
  {
    if marks != [] {
      var n := |marks| - 1;
      TurnsOnly(s, d, calls, marks[..n], limits);
      ReplaySnoc(s, d, Scheduled(calls, marks[..n]), Ran(calls[n], false, limits));
      assert calls[..n + 1][..n] == calls[..n];
    }
  }

  /** Once the queue is drained, with no failure or admin change in between, call order is all that matters. */
  lemma DrainedInCallOrder(w: World, tr: seq<Event>, s: nat, limits: Limits)
    requires Possible(w, tr) && QueueOf(After(w, tr), s) == []
    requires forall i :: 0 <= i < |Marks(tr, s, w.nextSheetId)| ==>
             Marks(tr, s, w.nextSheetId)[i] == Turn(false, limits)
    ensures DocOf(After(w, tr), s) == OneByOne(DocOf(w, s), QueueOf(w, s) + Calls(tr, s), limits)
  {
    Serializable(w, tr, s);
    var calls, marks := QueueOf(w, s) + Calls(tr, s), Marks(tr, s, w.nextSheetId);
    TurnsOnly(s, DocOf(w, s), calls, marks, limits);
    assert |calls[Turns(marks)..]| == 0;
    assert calls[..|marks|] == calls;
  }

  // ----- Revisions

  /** The guard of the failing branch: an unknown kind on a writable sheet has raised the revision when it fails. */
  predicate BreaksOff(d: Option<Doc>, op: Op, fail: bool) {
    op.Unknown? && !fail && Writable(d)
  }

  /** Entry k of the log breaks off. */
  ghost predicate BreaksOffAt(s: nat, d: Option<Doc>, log: seq<Entry>, k: nat)
    requires k < |log|
  {
    log[k].Ran? && BreaksOff(Replay(s, d, log[..k]), log[k].op, log[k].fail)
  }

  /** Entries that raise the revision: accepted operations, and those that break off. */
  ghost function Bumps(s: nat, d: Option<Doc>, log: seq<Entry>): nat {
    if log == [] then 0
    else
      var n := |log| - 1;
      Bumps(s, d, log[..n]) +
      (if log[n].Ran? && (OutcomeAt(s, d, log, n).Accepted? || BreaksOffAt(s, d, log, n)) then 1 else 0)
  }

  ghost function Accepts(s: nat, d: Option<Doc>, log: seq<Entry>): nat {
    if log == [] then 0
    else
      var n := |log| - 1;
      Accepts(s, d, log[..n]) + (if log[n].Ran? && OutcomeAt(s, d, log, n).Accepted? then 1 else 0)
  }

  ghost predicate NoBirth(log: seq<Entry>) {
    forall k :: 0 <= k < |log| ==> !log[k].Born?
  }

  lemma OutcomePrefix(s: nat, d: Option<Doc>, log: seq<Entry>, n: nat, k: nat)
    requires k < n <= |log| && log[k].Ran?
    ensures OutcomeAt(s, d, log[..n], k) == OutcomeAt(s, d, log, k)
  {
    assert log[..n][..k] == log[..k];
  }

  lemma ExecuteRevision(d: Option<Doc>, op: Op, fail: bool, limits: Limits)
    ensures
      var (d', o) := Execute(d, op, fail, limits);
      && (d'.Some? <==> d.Some?)
      && (d.Some? ==> d'.value.revision ==
                      d.value.revision + (if o.Accepted? || BreaksOff(d, op, fail) then 1 else 0))
      && (o.Accepted? ==> d.Some? && o.revision == d.value.revision + 1)
      && (o == Rejected(ApplyIsNotAFunction) <==> BreaksOff(d, op, fail))
  {
  }

  lemma {:induction false} RevisionIsBumps(s: nat, d: Option<Doc>, log: seq<Entry>)
    requires d.Some? && NoBirth(log)
    ensures Replay(s, d, log).Some?
    ensures Replay(s, d, log).value.revision == d.value.revision + Bumps(s, d, log)
  {
    hide Execute;
    if log != [] {
      var n := |log| - 1;
      RevisionIsBumps(s, d, log[..n]);
      assert !log[n].Born?;
      if log[n].Ran? {
        ExecuteRevision(Replay(s, d, log[..n]), log[n].op, log[n].fail, log[n].limits);
      }
    }
  }

  ghost predicate NoneBreaksOff(s: nat, d: Option<Doc>, log: seq<Entry>) {
    forall k :: 0 <= k < |log| ==> !BreaksOffAt(s, d, log, k)
  }

  lemma BreaksOffInPrefix(s: nat, d: Option<Doc>, log: seq<Entry>, n: nat, k: nat)
    requires k < n <= |log|
    ensures BreaksOffAt(s, d, log[..n], k) == BreaksOffAt(s, d, log, k)
  {
    assert log[..n][..k] == log[..k];
  }

  lemma {:induction false} BumpsAreAccepts(s: nat, d: Option<Doc>, log: seq<Entry>)
    ensures Bumps(s, d, log) >= Accepts(s, d, log)
    ensures Bumps(s, d, log) == Accepts(s, d, log) <==> NoneBreaksOff(s, d, log)
  {
    hide Execute, Replay, BreaksOffAt, BreaksOff;
    if log != [] {
      var n := |log| - 1;
      BumpsAreAccepts(s, d, log[..n]);
      forall k | 0 <= k < n ensures BreaksOffAt(s, d, log[..n], k) == BreaksOffAt(s, d, log, k) {
        BreaksOffInPrefix(s, d, log, n, k);
      }
      AcceptedDoesNotBreakOff(s, d, log, n);
    }
  }

  lemma AcceptedDoesNotBreakOff(s: nat, d: Option<Doc>, log: seq<Entry>, k: nat)
    requires k < |log|
    ensures BreaksOffAt(s, d, log, k) ==> log[k].Ran? && !OutcomeAt(s, d, log, k).Accepted?
  {
    hide Replay;
  }

  /**
   In one sheet's log an accepted operation returns the starting revision plus the bumps up to and including it.
   It returns the number of accepted ones exactly when no earlier entry was an unknown operation on the writable
   sheet. `SheetOutcomes` has this over traces.
   */
  lemma AcceptedRevisionsConsecutive(s: nat, d: Option<Doc>, log: seq<Entry>, k: nat)
    requires d.Some? && NoBirth(log)
    requires k < |log| && log[k].Ran? && OutcomeAt(s, d, log, k).Accepted?
    ensures OutcomeAt(s, d, log, k).revision == d.value.revision + Bumps(s, d, log[..k]) + 1
    ensures OutcomeAt(s, d, log, k).revision == d.value.revision + Accepts(s, d, log[..k]) + 1
            <==> NoneBreaksOff(s, d, log[..k])
  {
    hide Execute, Bumps, Accepts, Replay, NoneBreaksOff;
    var before := log[..k];
    assert NoBirth(before) by {
      forall i | 0 <= i < k ensures !before[i].Born? {
        assert before[i] == log[i];
      }
    }
    RevisionIsBumps(s, d, before);
    ExecuteRevision(Replay(s, d, before), log[k].op, log[k].fail, log[k].limits);
    BumpsAreAccepts(s, d, before);
  }

  /**
   An operation that is refused leaves the document exactly as it was, with one exception: an unknown
   kind that reaches a writable sheet has already raised the revision.
   */
  lemma RefusedLeavesNoTrace(d: Option<Doc>, op: Op, fail: bool, limits: Limits)
    requires Execute(d, op, fail, limits).1.Rejected?
    ensures Execute(d, op, fail, limits).0 == d <==> !BreaksOff(d, op, fail)
  {
    if Writable(d) {
      assert d.value.(revision := d.value.revision + 1) != d.value;
    }
  }

  // ----- Well-formed worksheets

  ghost predicate NamesDistinct(tabs: seq<Tab>) {
    forall i, j :: 0 <= i < j < |tabs| ==> tabs[i].name.lower != tabs[j].name.lower
  }

  ghost predicate TabsValid(tabs: seq<Tab>) {
    KeysDistinct(tabs) && NamesDistinct(tabs)
  }

  lemma EditedKeysDistinct(d: Doc, op: Op, limits: Limits)
    requires KeysDistinct(d.tabs) && !op.Unknown? && Edited(d, op, limits).Success?
    ensures KeysDistinct(Edited(d, op, limits).value)
  {
    if op.AddWorksheet? && FindTab(d.tabs, op.ws).None? {
      InsertKeys(d.tabs, InsertIndex(|d.tabs|, op.index), NewTab(op.ws, op.name));
    }
  }

  lemma EditedNamesDistinct(d: Doc, op: Op, limits: Limits)
    requires NamesDistinct(d.tabs) && !op.Unknown? && Edited(d, op, limits).Success?
    ensures NamesDistinct(Edited(d, op, limits).value)
  {
    var after := Edited(d, op, limits).value;
    if op.AddWorksheet? && FindTab(d.tabs, op.ws).None? {
      InsertNames(d.tabs, InsertIndex(|d.tabs|, op.index), NewTab(op.ws, op.name));
    } else if op.RenameWorksheet? {
      var t := FindTab(d.tabs, op.ws).value;
      forall i | 0 <= i < |d.tabs| && i != t ensures after[i] == d.tabs[i] && d.tabs[i].name.lower != op.name.lower {
      }
    }
  }

  lemma InsertNames(tabs: seq<Tab>, t: nat, tab: Tab)
    requires NamesDistinct(tabs) && t <= |tabs| && !NameTaken(tabs, tab.name, -1)
    ensures NamesDistinct(InsertAt(tabs, t, tab))
  {
    forall i | 0 <= i < |tabs| ensures tabs[i].name.lower != tab.name.lower {
    }
  }

  // ----- Growth

  ghost predicate Fits(tabs: seq<Tab>, limits: Limits) {
    CountCells(tabs) <= limits.maxCells && CountBytes(tabs) <= limits.maxBytes
  }

  function Max(a: nat, b: nat): nat {
    if a >= b then a else b
  }

  /** No operation takes a sheet past a limit it was within; over a limit, it can only shrink on that measure. */
  lemma GrowthBounded(d: Doc, op: Op, limits: Limits)
    requires !op.Unknown? && Edited(d, op, limits).Success?
    ensures
      var after := Edited(d, op, limits).value;
      && CountCells(after) <= Max(CountCells(d.tabs), limits.maxCells)
      && CountBytes(after) <= Max(CountBytes(d.tabs), limits.maxBytes)
      && |after| <= Max(|d.tabs|, MAX_WORKSHEETS)
  {
    hide WriteAll, CountCells, CountBytes, Resize, NameTaken, OutsideGrid;
    match op
    case Cells(_, _) =>
    case AddWorksheet(ws, name, index) =>
      if FindTab(d.tabs, ws).None? {
        CountInsert(d.tabs, InsertIndex(|d.tabs|, index), NewTab(ws, name));
      }
    case RenameWorksheet(ws, name) =>
      var t := FindTab(d.tabs, ws).value;
      CountReplace(d.tabs, t, d.tabs[t].(name := name));
    case SetLayout(ws, columnWidths, rowHeights) =>
      var t := FindTab(d.tabs, ws).value;
      CountReplace(d.tabs, t, Edited(d, op, limits).value[t]);
  }

  // ----- Every reachable state

  ghost predicate SheetGood(d: Doc, bound: Limits) {
    TabsValid(d.tabs) && Fits(d.tabs, bound)
  }

  /** No sheet id is reused. */
  ghost predicate WorldValid(w: World) {
    forall s :: s in w.docs ==> s < w.nextSheetId
  }

  predicate Within(limits: Limits, bound: Limits) {
    limits.maxCells <= bound.maxCells && limits.maxBytes <= bound.maxBytes
  }

  /** If this event creates sheet s, it does so with distinct names; `createSheet` itself checks nothing. */
  ghost predicate BornWellFormed(e: Event, s: nat, next: nat) {
    e.Create? && next == s ==> NamesDistinct(DefTabs(s, e.def.tabs))
  }

  /**
   This event keeps sheet s within a bound: it is created within it, and no looser limits are in force when it is
   written.
   */
  ghost predicate KeepsWithin(e: Event, s: nat, next: nat, bound: Limits) {
    && (e.Create? && next == s ==> Fits(DefTabs(s, e.def.tabs), bound))
    && (e.Run? && e.s == s ==> Within(e.limits, bound))
  }

  ghost predicate BornWellFormedAt(tr: seq<Event>, k: nat, s: nat, next: nat)
    requires k < |tr|
  {
    BornWellFormed(tr[k], s, next + Creates(tr[..k]))
  }

  ghost predicate KeepsWithinAt(tr: seq<Event>, k: nat, s: nat, next: nat, bound: Limits)
    requires k < |tr|
  {
    KeepsWithin(tr[k], s, next + Creates(tr[..k]), bound)
  }

  lemma GeneratedKeysDistinct(id: nat, defs: seq<TabDef>)
    ensures KeysDistinct(DefTabs(id, defs))
  {
    forall p, q | 0 <= p < q < |defs| ensures GeneratedKey(id, p) != GeneratedKey(id, q) {
      GeneratedKeyInjective(id, p, q);
    }
  }

  lemma GeneratedKeyInjective(id: nat, p: nat, q: nat)
    ensures GeneratedKey(id, p) == GeneratedKey(id, q) <==> p == q
  {
    var n := |"ws" + Decimal.Print(id) + "x"|;
    assert GeneratedKey(id, p)[n..] == Decimal.Print(p);
    assert GeneratedKey(id, q)[n..] == Decimal.Print(q);
    if GeneratedKey(id, p) == GeneratedKey(id, q) {
      Decimal.PrintInjective(p, q);
    }
  }

  lemma ExecuteWellFormed(d: Option<Doc>, op: Op, fail: bool, limits: Limits)
    requires d.Some? ==> TabsValid(d.value.tabs)
    ensures Execute(d, op, fail, limits).0.Some? <==> d.Some?
    ensures d.Some? ==> TabsValid(Execute(d, op, fail, limits).0.value.tabs)
  {
    if !fail && Writable(d) && !op.Unknown? && Edited(d.value, op, limits).Success? {
      EditedKeysDistinct(d.value, op, limits);
      EditedNamesDistinct(d.value, op, limits);
    }
  }

  lemma ExecuteFits(d: Option<Doc>, op: Op, fail: bool, limits: Limits, bound: Limits)
    requires d.Some? ==> Fits(d.value.tabs, bound)
    requires Within(limits, bound)
    ensures Execute(d, op, fail, limits).0.Some? <==> d.Some?
    ensures d.Some? ==> Fits(Execute(d, op, fail, limits).0.value.tabs, bound)
  {
    if !fail && Writable(d) && !op.Unknown? && Edited(d.value, op, limits).Success? {
      GrowthBounded(d.value, op, limits);
    }
  }

  /**
   Per sheet, whatever the other sheets, the limits and the number of its worksheets are: keys and names
   (ignoring case) stay unique.
   */
  lemma {:induction false} EveryReachableSheetIsWellFormed(w: World, tr: seq<Event>, s: nat, n: nat)
    requires n <= |tr| && (s in w.docs ==> TabsValid(w.docs[s].tabs))
    requires forall k :: 0 <= k < |tr| ==> BornWellFormedAt(tr, k, s, w.nextSheetId)
    ensures s in After(w, tr[..n]).docs ==> TabsValid(After(w, tr[..n]).docs[s].tabs)
  {
    hide Execute, TabsValid, BornWellFormed, Step;
    if n == 0 {
      assert tr[..0] == [];
    } else {
      EveryReachableSheetIsWellFormed(w, tr, s, n - 1);
      NextAfter(w, tr[..n - 1]);
      assert BornWellFormedAt(tr, n - 1, s, w.nextSheetId);
      StepWellFormed(After(w, tr[..n - 1]), tr[n - 1], s);
      assert tr[..n][..n - 1] == tr[..n - 1];
    }
  }

  lemma StepWellFormed(w: World, e: Event, s: nat)
    requires s in w.docs ==> TabsValid(w.docs[s].tabs)
    requires BornWellFormed(e, s, w.nextSheetId)
    ensures s in Step(w, e).docs ==> TabsValid(Step(w, e).docs[s].tabs)
  {
    hide Execute;
    if e.Create? && w.nextSheetId == s {
      GeneratedKeysDistinct(s, e.def.tabs);
    } else if e.Run? && e.s == s && Enabled(w, e) {
      ExecuteWellFormed(DocOf(w, s), QueueOf(w, s)[0], e.fail, e.limits);
    }
  }

  /**
   Per sheet, whatever happens to the others: a sheet created within a bound, and written under limits no
   looser than it, is within the bound in every reachable state, with unique keys and names. With the bound
   `LIMITS` this is why opening it is never refused for size.
   */
  lemma EveryReachableSheetIsGood(w: World, tr: seq<Event>, s: nat, bound: Limits)
    requires s in w.docs ==> SheetGood(w.docs[s], bound)
    requires forall k :: 0 <= k < |tr| ==> BornWellFormedAt(tr, k, s, w.nextSheetId)
    requires forall k :: 0 <= k < |tr| ==> KeepsWithinAt(tr, k, s, w.nextSheetId, bound)
    ensures s in After(w, tr).docs ==> SheetGood(After(w, tr).docs[s], bound)
  {
    hide TabsValid, Fits, BornWellFormedAt, KeepsWithinAt;
    EveryReachableSheetIsWellFormed(w, tr, s, |tr|);
    EveryReachableSheetFits(w, tr, s, bound, |tr|);
    assert tr[..|tr|] == tr;
  }

  lemma {:induction false} EveryReachableSheetFits(w: World, tr: seq<Event>, s: nat, bound: Limits, n: nat)
    requires n <= |tr| && (s in w.docs ==> Fits(w.docs[s].tabs, bound))
    requires forall k :: 0 <= k < |tr| ==> KeepsWithinAt(tr, k, s, w.nextSheetId, bound)
    ensures s in After(w, tr[..n]).docs ==> Fits(After(w, tr[..n]).docs[s].tabs, bound)
  {
    hide Execute, Fits, KeepsWithin, Step;
    if n == 0 {
      assert tr[..0] == [];
    } else {
      EveryReachableSheetFits(w, tr, s, bound, n - 1);
      NextAfter(w, tr[..n - 1]);
      assert KeepsWithinAt(tr, n - 1, s, w.nextSheetId, bound);
      StepFits(After(w, tr[..n - 1]), tr[n - 1], s, bound);
      assert tr[..n][..n - 1] == tr[..n - 1];
    }
  }

  lemma StepFits(w: World, e: Event, s: nat, bound: Limits)
    requires s in w.docs ==> Fits(w.docs[s].tabs, bound)
    requires KeepsWithin(e, s, w.nextSheetId, bound)
    ensures s in Step(w, e).docs ==> Fits(Step(w, e).docs[s].tabs, bound)
  {
    hide Execute, DefTabs;
    if e.Run? && e.s == s && Enabled(w, e) {
      ExecuteFits(DocOf(w, s), QueueOf(w, s)[0], e.fail, e.limits, bound);
    }
  }

  // ----- Growth over whole traces

  /** What a sheet may grow to when it starts with these worksheets. */
  ghost function MaxBound(tabs: seq<Tab>, limits: Limits): Limits {
    Limits(Max(CountCells(tabs), limits.maxCells), Max(CountBytes(tabs), limits.maxBytes))
  }

  lemma StepTabCount(w: World, e: Event, s: nat)
    requires WorldValid(w) && s in w.docs
    ensures WorldValid(Step(w, e)) && s in Step(w, e).docs
    ensures |Step(w, e).docs[s].tabs| <= Max(|w.docs[s].tabs|, MAX_WORKSHEETS)
  {
    hide Edited, DefTabs;
    if e.Run? && e.s == s && Enabled(w, e) && !e.fail && Writable(DocOf(w, s)) && !QueueOf(w, s)[0].Unknown?
       && Edited(w.docs[s], QueueOf(w, s)[0], e.limits).Success? {
      GrowthBounded(w.docs[s], QueueOf(w, s)[0], e.limits);
    }
  }

  lemma {:induction false} TabCountBounded(w: World, tr: seq<Event>, s: nat)
    requires WorldValid(w) && s in w.docs
    ensures WorldValid(After(w, tr)) && s in After(w, tr).docs
    ensures |After(w, tr).docs[s].tabs| <= Max(|w.docs[s].tabs|, MAX_WORKSHEETS)
  {
    hide WorldValid, Step;
    if tr != [] {
      TabCountBounded(w, tr[..|tr| - 1], s);
      StepTabCount(After(w, tr[..|tr| - 1]), tr[|tr| - 1], s);
    }
  }

  /**
   In every reachable state, however large a sheet was at the start: its worksheets, cells and bytes are each at
   most the larger of what it had and the limit, for any limits no looser than which it is written.
   */
  lemma GrowthBoundedEverywhere(w: World, tr: seq<Event>, s: nat, limits: Limits)
    requires WorldValid(w) && s in w.docs
    requires forall k :: 0 <= k < |tr| && tr[k].Run? && tr[k].s == s ==> Within(tr[k].limits, limits)
    ensures s in After(w, tr).docs
    ensures
      var before, after := w.docs[s].tabs, After(w, tr).docs[s].tabs;
      && |after| <= Max(|before|, MAX_WORKSHEETS)
      && CountCells(after) <= Max(CountCells(before), limits.maxCells)
      && CountBytes(after) <= Max(CountBytes(before), limits.maxBytes)
  {
    hide Execute, After, Creates;
    TabCountBounded(w, tr, s);
    var bound := MaxBound(w.docs[s].tabs, limits);
    forall k | 0 <= k < |tr| ensures KeepsWithinAt(tr, k, s, w.nextSheetId, bound) {
    }
    EveryReachableSheetFits(w, tr, s, bound, |tr|);
    assert tr[..|tr|] == tr;
  }

  /** After a soft delete nothing changes the sheet any more: not even operations queued before the delete. */
  lemma {:induction false} DeletedIsFrozen(w: World, tr: seq<Event>, s: nat)
    requires WorldValid(w) && s in w.docs && w.docs[s].deletedAt.Some?
    ensures WorldValid(After(w, tr)) && DocOf(After(w, tr), s) == DocOf(w, s)
  {
    if tr != [] {
      DeletedIsFrozen(w, tr[..|tr| - 1], s);
    }
  }

  /**
   The same, starting at the delete itself: a live sheet that is soft-deleted keeps everything but gets its
   deletion date, and stays exactly like that whatever happens next.
   */
  lemma DeletedForGood(w: World, s: nat, now: nat, tr: seq<Event>)
    requires WorldValid(w) && s in w.docs && w.docs[s].deletedAt.None?
    ensures DocOf(After(Step(w, Delete(s, now)), tr), s) == Some(w.docs[s].(deletedAt := Some(now)))
  {
    DeletedIsFrozen(Step(w, Delete(s, now)), tr, s);
  }

  /** No update in the trace sets the status of sheet s to active. */
  predicate NotReactivated(tr: seq<Event>, s: nat) {
    forall k :: 0 <= k < |tr| && tr[k].Update? && tr[k].s == s && tr[k].fields.status.Some? ==>
                  tr[k].fields.status.value != "active"
  }

  /** While a sheet is archived, no operation changes its worksheets or its revision, queued ones included. */
  lemma {:induction false} ArchivedIsFrozen(w: World, tr: seq<Event>, s: nat)
    requires WorldValid(w) && s in w.docs && w.docs[s].status != "active" && NotReactivated(tr, s)
    ensures WorldValid(After(w, tr)) && s in After(w, tr).docs
    ensures
      var before, after := w.docs[s], After(w, tr).docs[s];
      after.status != "active" && after.tabs == before.tabs && after.revision == before.revision
  {
    hide DefDoc;
    if tr != [] {
      assert NotReactivated(tr[..|tr| - 1], s);
      ArchivedIsFrozen(w, tr[..|tr| - 1], s);
      assert tr[|tr| - 1].Update? && tr[|tr| - 1].s == s ==> tr[|tr| - 1].fields.status != Some("active");
    }
  }
}
