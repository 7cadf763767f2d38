/** Where a cell's content comes from: the last accepted operation that wrote it. */
module SheetHistory {
  import opened Wrappers
  import opened SheetKeys
  import opened SheetDoc
  import opened SheetStore
  import opened SheetWorld
  import opened SheetLaws

  function CellAt(d: Option<Doc>, key: string, pos: Pos): Option<Stored> {
    if d.None? then None
    else
      match FindTab(d.value.tabs, key)
      case None => None
      case Some(t) => if pos in d.value.tabs[t].cells then Some(d.value.tabs[t].cells[pos]) else None
  }

  /** Entry k is an accepted operation that wrote (or cleared) this cell. */
  ghost predicate Wrote(s: nat, d: Option<Doc>, log: seq<Entry>, k: nat, key: string, pos: Pos)
    requires k < |log|
  {
    && log[k].Ran? && log[k].op.Cells? && log[k].op.ws == key
    && Touches(log[k].op.writes, pos)
    && OutcomeAt(s, d, log, k).Accepted?
  }

  ghost function LastWriter(s: nat, d: Option<Doc>, log: seq<Entry>, key: string, pos: Pos): (r: Option<nat>)
    ensures r.Some? ==> r.value < |log| && Wrote(s, d, log, r.value, key, pos)
  {
    if log == [] then None
    else
      var n := |log| - 1;
      if Wrote(s, d, log, n, key, pos) then Some(n)
      else
        var r := LastWriter(s, d, log[..n], key, pos);
        assert r.Some? ==> Wrote(s, d, log, r.value, key, pos) by {
          if r.Some? {
            OutcomePrefix(s, d, log, n, r.value);
          }
        }
        r
  }

  /** The entry of an operation that addresses this cell. */
  ghost function EntryFor(writes: seq<Write>, pos: Pos): Write
    requires Touches(writes, pos)
  {
    var i :| 0 <= i < |writes| && writes[i].pos == pos;
    writes[i]
  }

  lemma {:induction false} WriteAllGives(m: map<Pos, Stored>, writes: seq<Write>, revision: nat, pos: Pos)
    requires DistinctPositions(writes) && Touches(writes, pos)
    ensures
      var m', v := WriteAll(m, writes, revision), StoredOf(EntryFor(writes, pos), revision);
      (pos in m' <==> v.Some?) && (v.Some? ==> m'[pos] == v.value)
  {
    var n := |writes| - 1;
    var init := writes[..n];
    var i :| 0 <= i < |writes| && writes[i].pos == pos && writes[i] == EntryFor(writes, pos);
    if i < n {
      assert init[i].pos == pos;
      WriteAllGives(m, init, revision, pos);
      var j :| 0 <= j < |init| && init[j].pos == pos && init[j] == EntryFor(init, pos);
      assert writes[j].pos == writes[i].pos;
      assert writes[n].pos != pos;
    }
  }

  lemma SameTabsSameCells(d: Option<Doc>, d': Option<Doc>, key: string, pos: Pos)
    requires d.Some? && d'.Some? && d'.value.tabs == d.value.tabs
    ensures CellAt(d', key, pos) == CellAt(d, key, pos)
  {
  }

  /** Adding a worksheet moves tabs around but no cell changes hands. */
  lemma InsertKeepsCells(d: Doc, d': Doc, t: nat, tab: Tab, key: string, pos: Pos)
    requires KeysDistinct(d.tabs) && t <= |d.tabs| && FindTab(d.tabs, tab.key).None? && tab.cells == map[]
    requires d'.tabs == InsertAt(d.tabs, t, tab)
    ensures CellAt(Some(d'), key, pos) == CellAt(Some(d), key, pos)
  {
    InsertKeys(d.tabs, t, tab);
    match FindTab(d.tabs, key)
    case Some(i) => FindTabUnique(d'.tabs, key, if i < t then i else i + 1);
    case None =>
  }

  /** Replacing one tab by one with the same key affects that tab's cells only. */
  lemma ReplaceKeepsCells(d: Doc, d': Doc, t: nat, tab: Tab, key: string, pos: Pos)
    requires KeysDistinct(d.tabs) && t < |d.tabs| && tab.key == d.tabs[t].key
    requires d'.tabs == d.tabs[t := tab]
    ensures KeysDistinct(d'.tabs)
    ensures CellAt(Some(d'), key, pos) ==
            if key == tab.key then (if pos in tab.cells then Some(tab.cells[pos]) else None)
            else CellAt(Some(d), key, pos)
    ensures key == tab.key ==>
              CellAt(Some(d), key, pos) == if pos in d.tabs[t].cells then Some(d.tabs[t].cells[pos]) else None
  {
    if key == tab.key {
      FindTabUnique(d.tabs, key, t);
      FindTabUnique(d'.tabs, key, t);
    } else {
      match FindTab(d.tabs, key)
      case Some(i) => FindTabUnique(d'.tabs, key, i);
      case None =>
    }
  }

  lemma ExecuteCell(d: Option<Doc>, op: Op, fail: bool, limits: Limits, key: string, pos: Pos)
    requires d.Some? && KeysDistinct(d.value.tabs)
    requires op.Cells? ==> DistinctPositions(op.writes)
    ensures
      var (d', o) := Execute(d, op, fail, limits);
      && d'.Some? && KeysDistinct(d'.value.tabs)
      && CellAt(d', key, pos) ==
         if o.Accepted? && op.Cells? && op.ws == key && Touches(op.writes, pos)
         then StoredOf(EntryFor(op.writes, pos), o.revision)
         else CellAt(d, key, pos)
  {
    hide CellAt, FindTab, KeysDistinct, WriteAll, NameTaken, Overgrown, OutsideGrid, Resize;
    var (d', o) := Execute(d, op, fail, limits);
    if o.Rejected? {
      SameTabsSameCells(d, d', key, pos);
    } else {
      EditedKeysDistinct(d.value, op, limits);
      match op
      case Cells(ws, writes) =>
        var t := FindTab(d.value.tabs, ws).value;
        ReplaceKeepsCells(d.value, d'.value, t, d'.value.tabs[t], key, pos);
        if Touches(writes, pos) {
          WriteAllGives(d.value.tabs[t].cells, writes, o.revision, pos);
        } else {
          WriteAllFrame(d.value.tabs[t].cells, writes, o.revision, pos);
        }
      case AddWorksheet(ws, name, index) =>
        if FindTab(d.value.tabs, ws).Some? {
          SameTabsSameCells(d, d', key, pos);
        } else {
          InsertKeepsCells(d.value, d'.value, InsertIndex(|d.value.tabs|, index), NewTab(ws, name), key, pos);
        }
      case RenameWorksheet(ws, _) =>
        var t := FindTab(d.value.tabs, ws).value;
        ReplaceKeepsCells(d.value, d'.value, t, d'.value.tabs[t], key, pos);
      case SetLayout(ws, _, _) =>
        var t := FindTab(d.value.tabs, ws).value;
        ReplaceKeepsCells(d.value, d'.value, t, d'.value.tabs[t], key, pos);
    }
  }

  ghost predicate WritesDistinct(log: seq<Entry>) {
    forall k :: 0 <= k < |log| && log[k].Ran? && log[k].op.Cells? ==> DistinctPositions(log[k].op.writes)
  }

  /**
   Last write wins: after any history, a cell holds the value and revision of the last accepted
   operation that wrote it, is absent if that operation cleared it, and is untouched if there was none.
   */
  lemma {:induction false} LastWriteWins(s: nat, d: Option<Doc>, log: seq<Entry>, key: string, pos: Pos)
    requires d.Some? && KeysDistinct(d.value.tabs) && NoBirth(log) && WritesDistinct(log)
    ensures Replay(s, d, log).Some? && KeysDistinct(Replay(s, d, log).value.tabs)
    ensures CellAt(Replay(s, d, log), key, pos) ==
            match LastWriter(s, d, log, key, pos)
            case None => CellAt(d, key, pos)
            case Some(k) => StoredOf(EntryFor(log[k].op.writes, pos), OutcomeAt(s, d, log, k).revision)
  {
    hide Execute, CellAt;
    if log != [] {
      var n := |log| - 1;
      var before := Replay(s, d, log[..n]);
      LastWriteWins(s, d, log[..n], key, pos);
      var r := LastWriter(s, d, log[..n], key, pos);
      if r.Some? {
        OutcomePrefix(s, d, log, n, r.value);
      }
      assert !log[n].Born?;
      if !log[n].Ran? {
        SameTabsSameCells(before, Replay(s, d, log), key, pos);
      } else {
        ExecuteCell(before, log[n].op, log[n].fail, log[n].limits, key, pos);
      }
    }
  }

  // ----- Under any interleaving

  /** What the validator in front of the store guarantees: no coordinate twice in one operation. */
  ghost predicate OpValid(op: Op) {
    op.Cells? ==> DistinctPositions(op.writes)
  }

  ghost predicate CallsDistinct(ops: seq<Op>) {
    forall i :: 0 <= i < |ops| ==> OpValid(ops[i])
  }

  ghost predicate NoBirthMark(marks: seq<Mark>) {
    forall i :: 0 <= i < |marks| && marks[i].Other? ==> marks[i].entry.Changed? || marks[i].entry.Removed?
  }

  lemma {:induction false} ExistingSheetIsNotBorn(tr: seq<Event>, s: nat, next: nat)
    requires s < next
    ensures NoBirthMark(Marks(tr, s, next))
  {
    if tr != [] {
      ExistingSheetIsNotBorn(tr[..|tr| - 1], s, next);
    }
  }

  lemma {:induction false} ScheduledShape(calls: seq<Op>, marks: seq<Mark>)
    requires Turns(marks) <= |calls| && NoBirthMark(marks) && CallsDistinct(calls)
    ensures NoBirth(Scheduled(calls, marks)) && WritesDistinct(Scheduled(calls, marks))
  {
    if marks != [] {
      var n := |marks| - 1;
      assert NoBirthMark(marks[..n]) by {
        forall i | 0 <= i < n && marks[..n][i].Other?
          ensures marks[..n][i].entry.Changed? || marks[..n][i].entry.Removed?
        {
          assert marks[i].Other?;
        }
      }
      ScheduledShape(calls, marks[..n]);
      assert marks[n].Other? ==> marks[n].entry.Changed? || marks[n].entry.Removed?;
    }
  }

  /**
   Last write wins under any interleaving over any number of sheets: the content of a cell is decided by
   the last accepted operation among the sheet's own calls, taken in call order.
   */
  lemma LastWriteWinsEverywhere(w: World, tr: seq<Event>, s: nat, key: string, pos: Pos)
    requires Possible(w, tr) && WorldValid(w) && s in w.docs && KeysDistinct(w.docs[s].tabs)
    requires CallsDistinct(QueueOf(w, s) + Calls(tr, s))
    ensures
      var calls, marks, d := QueueOf(w, s) + Calls(tr, s), Marks(tr, s, w.nextSheetId), DocOf(w, s);
      && Turns(marks) <= |calls|
      && var log := Scheduled(calls, marks);
      CellAt(DocOf(After(w, tr), s), key, pos) ==
        match LastWriter(s, d, log, key, pos)
        case None => CellAt(d, key, pos)
        case Some(k) => StoredOf(EntryFor(log[k].op.writes, pos), OutcomeAt(s, d, log, k).revision)
  {
    hide CellAt, LastWriter, Replay, Scheduled, Execute;
    Serializable(w, tr, s);
    ExistingSheetIsNotBorn(tr, s, w.nextSheetId);
    var calls, marks := QueueOf(w, s) + Calls(tr, s), Marks(tr, s, w.nextSheetId);
    ScheduledShape(calls, marks);
    LastWriteWins(s, DocOf(w, s), Scheduled(calls, marks), key, pos);
  }
}
