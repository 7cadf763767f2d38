/**
 What each operation does to a sheet, said worksheet by worksheet and cell by cell: where a new worksheet stands,
 which name, size or cell ends up where, what stays, and exactly when which refusal comes back. The laws are about
 `Execute` and `Edited`, but none of the conclusions is put in terms of the functions those are made of.
 */
module SheetMeaning {
  import opened Wrappers
  import opened SheetKeys
  import opened SheetDoc
  import opened SheetStore
  import opened SheetLaws
  import opened SheetHistory

  // ----- Refusals

  /** Which operations reach the store's branches at all: an archived, deleted or absent sheet is not written. */
  lemma NotWritableExactly(d: Option<Doc>, op: Op, fail: bool, limits: Limits)
    ensures
      var o := Execute(d, op, fail, limits).1;
      && (o == Rejected(DatabaseFailure) <==> fail)
      && (o == Rejected(SheetNotWritable) <==>
            !fail && (d.None? || d.value.status != "active" || d.value.deletedAt.Some?))
      && (o == Rejected(ApplyIsNotAFunction) <==>
            !fail && d.Some? && d.value.status == "active" && d.value.deletedAt.None? && op.Unknown?)
  {
  }

  predicate NoTab(tabs: seq<Tab>, ws: string) {
    forall i :: 0 <= i < |tabs| ==> tabs[i].key != ws
  }

  /** Some entry names a row or a column at or beyond the size of the worksheet with this key. */
  ghost predicate Outside(tabs: seq<Tab>, ws: string, writes: seq<Write>) {
    exists t, i :: 0 <= t < |tabs| && 0 <= i < |writes| && tabs[t].key == ws
      && (writes[i].pos.r >= tabs[t].rows || writes[i].pos.c >= tabs[t].columns)
  }

  /** Some worksheet other than the one with this key has the name, ignoring case. */
  ghost predicate NamedElsewhere(tabs: seq<Tab>, ws: string, name: Name) {
    exists i :: 0 <= i < |tabs| && tabs[i].key != ws && tabs[i].name.lower == name.lower
  }

  /** The four refusals that do not depend on sizes, each with its exact condition. */
  lemma RefusedExactly(d: Doc, op: Op, limits: Limits)
    requires KeysDistinct(d.tabs) && !op.Unknown?
    ensures
      var r := Edited(d, op, limits);
      && (r == Failure(WorksheetNotFound) <==> !op.AddWorksheet? && NoTab(d.tabs, op.ws))
      && (r == Failure(InvalidCellCoordinate) <==> op.Cells? && Outside(d.tabs, op.ws, op.writes))
      && (r == Failure(TooManyWorksheets) <==> op.AddWorksheet? && NoTab(d.tabs, op.ws) && |d.tabs| >= 50)
      && (r == Failure(WorksheetNameExists) <==>
            || (op.AddWorksheet? && NoTab(d.tabs, op.ws) && |d.tabs| < 50 && NamedElsewhere(d.tabs, op.ws, op.name))
            || (op.RenameWorksheet? && !NoTab(d.tabs, op.ws) && NamedElsewhere(d.tabs, op.ws, op.name)))
      && (r.Failure? ==>
            r.error in {WorksheetNotFound, InvalidCellCoordinate, TooManyWorksheets, WorksheetNameExists, SheetFull})
  {
    hide WriteAll, Overgrown, InsertAt, Resize, CountCells, CountBytes;
    match FindTab(d.tabs, op.ws)
    case None =>
    case Some(t) =>
      forall i | 0 <= i < |d.tabs| ensures d.tabs[i].key == op.ws <==> i == t {
      }
  }

  /** The size refusal: one of the two sizes would end above both what it was and its limit. */
  lemma FullExactly(d: Doc, t: nat, writes: seq<Write>, limits: Limits)
    requires KeysDistinct(d.tabs) && t < |d.tabs| && DistinctPositions(writes)
    ensures
      var before, ws := d.tabs, d.tabs[t].key;
      var grid := WriteAll(before[t].cells, writes, d.revision + 1);
      var after := before[t := before[t].(cells := grid)];
      && GridWritten(before[t].cells, grid, writes, d.revision + 1)
      && (Edited(d, Cells(ws, writes), limits) == Failure(SheetFull) <==>
            && !Outside(before, ws, writes)
            && (|| CountCells(after) > Max(CountCells(before), limits.maxCells)
                || CountBytes(after) > Max(CountBytes(before), limits.maxBytes)))
  {
    hide WriteAll, CountCells, CountBytes;
    FindTabUnique(d.tabs, d.tabs[t].key, t);
    RefusedExactly(d, Cells(d.tabs[t].key, writes), limits);
    WriteAllMeaning(d.tabs[t].cells, writes, d.revision + 1);
  }

  // ----- Accepted operations

  /** An accepted operation changes the revision, by one, and the worksheets; the rest of the record stays. */
  lemma AcceptedRecord(d: Option<Doc>, op: Op, fail: bool, limits: Limits)
    requires Execute(d, op, fail, limits).1.Accepted?
    ensures
      var (d', o) := Execute(d, op, fail, limits);
      && d.Some? && d'.Some? && !op.Unknown? && o.revision == d.value.revision + 1
      && d'.value == Doc(d.value.name, d.value.status, d.value.revision + 1, d.value.createdBy, None, d.value.source,
                         d'.value.tabs)
      && Edited(d.value, op, limits) == Success(d'.value.tabs)
  {
  }

  /** Every written cell holds its new content, or is gone when that is empty; every other cell is as it was. */
  ghost predicate GridWritten(grid: map<Pos, Stored>, grid': map<Pos, Stored>, writes: seq<Write>, revision: nat) {
    && (forall k :: 0 <= k < |writes| && writes[k].cell.None? ==> writes[k].pos !in grid')
    && (forall k :: 0 <= k < |writes| && writes[k].cell.Some? ==>
          && writes[k].pos in grid'
          && var cell := writes[k].cell.value;
          grid'[writes[k].pos] == Stored(cell, revision, |cell.json|))
    && (forall p :: !Touches(writes, p) ==> (p in grid' <==> p in grid) && (p in grid ==> grid'[p] == grid[p]))
  }

  lemma WriteAllMeaning(grid: map<Pos, Stored>, writes: seq<Write>, revision: nat)
    requires DistinctPositions(writes)
    ensures GridWritten(grid, WriteAll(grid, writes, revision), writes, revision)
  {
    hide WriteAll, StoredOf;
    var grid' := WriteAll(grid, writes, revision);
    forall k | 0 <= k < |writes|
      ensures writes[k].pos in grid' <==> StoredOf(writes[k], revision).Some?
      ensures writes[k].pos in grid' ==> grid'[writes[k].pos] == StoredOf(writes[k], revision).value
    {
      assert Touches(writes, writes[k].pos) && EntryFor(writes, writes[k].pos) == writes[k];
      WriteAllGives(grid, writes, revision, writes[k].pos);
    }
    forall p | !Touches(writes, p)
      ensures p in grid' <==> p in grid
      ensures p in grid ==> grid'[p] == grid[p]
    {
      WriteAllFrame(grid, writes, revision, p);
    }
    forall k | 0 <= k < |writes| ensures StoredOf(writes[k], revision).Some? <==> writes[k].cell.Some? {
      WrittenAs(writes[k], revision);
    }
    forall k | 0 <= k < |writes| && writes[k].cell.Some?
      ensures grid'[writes[k].pos] == Stored(writes[k].cell.value, revision, |writes[k].cell.value.json|)
    {
      WrittenAs(writes[k], revision);
    }
  }

  lemma WrittenAs(w: Write, revision: nat)
    ensures StoredOf(w, revision).Some? <==> w.cell.Some?
    ensures w.cell.Some? ==> StoredOf(w, revision).value == Stored(w.cell.value, revision, |w.cell.value.json|)
  {
  }

  ghost predicate Written(before: seq<Tab>, after: seq<Tab>, ws: string, writes: seq<Write>, revision: nat) {
    && |after| == |before|
    && (forall i :: 0 <= i < |before| && before[i].key != ws ==> after[i] == before[i])
    && (forall i :: 0 <= i < |before| && before[i].key == ws ==>
          && after[i] == before[i].(cells := after[i].cells)
          && GridWritten(before[i].cells, after[i].cells, writes, revision))
  }

  lemma CellsMeaning(d: Doc, ws: string, writes: seq<Write>, limits: Limits)
    requires KeysDistinct(d.tabs) && DistinctPositions(writes) && Edited(d, Cells(ws, writes), limits).Success?
    ensures Written(d.tabs, Edited(d, Cells(ws, writes), limits).value, ws, writes, d.revision + 1)
  {
    hide WriteAll, Overgrown, GridWritten;
    var t := FindTab(d.tabs, ws).value;
    WriteAllMeaning(d.tabs[t].cells, writes, d.revision + 1);
  }

  /**
   A new, empty worksheet of the default size stands at the index asked for, or at the end when there is none or it
   is too large. The worksheets before that place keep their index, the others move up by one.
   */
  ghost predicate Inserted(before: seq<Tab>, after: seq<Tab>, ws: string, name: Name, index: Option<nat>) {
    var n := |before|;
    var place := if index.Some? && index.value <= n then index.value else n;
    && |after| == n + 1
    && after[place] == Tab(ws, name, 1000, 26, Layout(None, None), map[])
    && (forall i :: 0 <= i < place ==> after[i] == before[i])
    && (forall i :: place <= i < n ==> after[i + 1] == before[i])
  }

  lemma AddMeaning(d: Doc, ws: string, name: Name, index: Option<nat>, limits: Limits)
    requires Edited(d, AddWorksheet(ws, name, index), limits).Success?
    ensures
      var after := Edited(d, AddWorksheet(ws, name, index), limits).value;
      if NoTab(d.tabs, ws) then Inserted(d.tabs, after, ws, name, index) else after == d.tabs
  {
  }

  ghost predicate Renamed(before: seq<Tab>, after: seq<Tab>, ws: string, name: Name) {
    && |after| == |before|
    && (forall i :: 0 <= i < |before| && before[i].key != ws ==> after[i] == before[i])
    && (forall i :: 0 <= i < |before| && before[i].key == ws ==>
          after[i] == Tab(ws, name, before[i].rows, before[i].columns, before[i].layout, before[i].cells))
  }

  lemma RenameMeaning(d: Doc, ws: string, name: Name, limits: Limits)
    requires KeysDistinct(d.tabs) && Edited(d, RenameWorksheet(ws, name), limits).Success?
    ensures Renamed(d.tabs, Edited(d, RenameWorksheet(ws, name), limits).value, ws, name)
  {
  }

  /** A null removes the size, a number sets it, and every size not mentioned is as it was. */
  ghost predicate SizesEdited(before: Option<Sizes>, after: Option<Sizes>, edits: map<string, Option<int>>) {
    && after.Some?
    && (forall k :: k in edits && edits[k].None? ==> k !in after.value)
    && (forall k :: k in edits && edits[k].Some? ==> k in after.value && after.value[k] == edits[k].value)
    && (forall k :: k !in edits ==> (k in after.value <==> before.Some? && k in before.value))
    && (forall k :: k !in edits && k in after.value ==> after.value[k] == before.value[k])
  }

  lemma ResizeMeaning(before: Option<Sizes>, edits: map<string, Option<int>>)
    ensures SizesEdited(before, Some(Resize(before, edits)), edits)
  {
  }

  ghost predicate LaidOut(before: seq<Tab>, after: seq<Tab>, ws: string, columnWidths: map<string, Option<int>>,
                          rowHeights: map<string, Option<int>>) {
    && |after| == |before|
    && (forall i :: 0 <= i < |before| && before[i].key != ws ==> after[i] == before[i])
    && (forall i :: 0 <= i < |before| && before[i].key == ws ==>
          && after[i] == before[i].(layout := after[i].layout)
          && SizesEdited(before[i].layout.columnWidths, after[i].layout.columnWidths, columnWidths)
          && SizesEdited(before[i].layout.rowHeights, after[i].layout.rowHeights, rowHeights))
  }

  lemma LayoutMeaning(d: Doc, ws: string, columnWidths: map<string, Option<int>>, rowHeights: map<string, Option<int>>,
                      limits: Limits)
    requires KeysDistinct(d.tabs) && Edited(d, SetLayout(ws, columnWidths, rowHeights), limits).Success?
    ensures LaidOut(d.tabs, Edited(d, SetLayout(ws, columnWidths, rowHeights), limits).value,
                    ws, columnWidths, rowHeights)
  {
    hide Resize, SizesEdited;
    var t := FindTab(d.tabs, ws).value;
    ResizeMeaning(d.tabs[t].layout.columnWidths, columnWidths);
    ResizeMeaning(d.tabs[t].layout.rowHeights, rowHeights);
  }
}
