/**
 The in-memory spreadsheet store. Its fields are the maps and the list the program keeps;
 `docs` is the ghost view of every sheet as an ideal document. Each method is shown to take one
 step of `SheetWorld`, and `StartsTraces` gives what the laws of traces assume of the world they start in. So what is
 proved in `SheetWorld`, `SheetLaws`, `SheetOutcomes` and `SheetHistory` holds of any sequence of calls.
 */
module MemoryStore {
  import opened Wrappers
  import opened SheetKeys
  import opened SheetDoc
  import opened SheetCounters
  import opened SheetStore
  import opened SheetWorld
  import opened SheetLoad
  import opened SheetCreate
  import opened SheetSteps
  import SheetLaws
  import opened SheetHistory
  import opened SheetMeaning

  ghost predicate QueuesValid(queues: map<nat, seq<Op>>) {
    forall s, i :: s in queues && 0 <= i < |queues[s]| ==> OpValid(queues[s][i])
  }

  lemma QueueHead(queues: map<nat, seq<Op>>, s: nat)
    requires QueuesValid(queues) && s in queues && queues[s] != []
    ensures OpValid(queues[s][0]) && QueuesValid(queues[s := queues[s][1..]])
  {
  }

  /** A store's own state meets what the laws of traces assume of their first world. */
  lemma StartsTraces(st: SheetStore.Store, docs: map<nat, Doc>, queues: map<nat, seq<Op>>)
    requires Represents(st, docs) && QueuesValid(queues)
    ensures
      var w := World(docs, queues, st.nextSheetId);
      && SheetLaws.WorldValid(w)
      && forall s :: s in docs ==> KeysDistinct(docs[s].tabs) && CallsDistinct(QueueOf(w, s))
  {
    hide RecordMatches, TabsMatch, IdsValid, KeysDistinct, OpValid;
    forall s | s in docs ensures s < st.nextSheetId && KeysDistinct(docs[s].tabs) {
      StoredKeysDistinct(st, docs, s);
    }
  }

  lemma StoredKeysDistinct(st: SheetStore.Store, docs: map<nat, Doc>, s: nat)
    requires Represents(st, docs) && s in docs
    ensures KeysDistinct(docs[s].tabs)
  {
    hide RecordMatches, TabsMatch, IdsValid, KeysDistinct;
    assert SheetMatches(st, s, docs[s]);
  }

  class Store {
    var sheets: map<nat, Sheet>
    var worksheets: seq<Worksheet>
    var cells: map<string, Stored>
    var queues: map<nat, seq<Op>>
    var nextSheetId: nat
    var nextWorksheetId: nat
    var failWrites: bool
    var limits: Option<Limits>
    var writes: nat

    ghost var docs: map<nat, Doc>

    /** The stored data. */
    ghost function Data(): SheetStore.Store
      reads this
    {
      SheetStore.Store(sheets, worksheets, cells, nextSheetId, nextWorksheetId)
    }

    /** The same sheets and queues as an ideal world. */
    ghost function Ideal(): World
      reads this
    {
      World(docs, queues, nextSheetId)
    }

    ghost predicate Valid()
      reads this
    {
      Represents(Data(), docs) && QueuesValid(queues)
    }

    /** `store.limits || LIMITS`. */
    function CurrentLimits(): Limits
      reads this
    {
      if limits.Some? then limits.value else LIMITS
    }

    constructor ()
      ensures Valid() && Ideal() == World(map[], map[], 1)
    {
      sheets, worksheets, cells, queues := map[], [], map[], map[];
      nextSheetId, nextWorksheetId := 1, 1;
      failWrites, limits, writes := false, None, 0;
      docs := map[];
    }

    method CreateSheet(def: SheetDef) returns (id: nat)
      requires Valid() && DefValid(def)
      modifies this
      ensures Valid()
      ensures id == old(nextSheetId) && id !in old(docs)
      ensures Ideal() == Step(old(Ideal()), Create(def))
      ensures id in sheets && sheets[id] == Sheet(def.name, "active", 0, GivenCount(def.tabs), GivenBytes(def.tabs),
                                                  def.userId, None, def.source)
      ensures forall s :: s in old(docs) ==> Load(Data(), s) == old(Load(Data(), s))
      ensures failWrites == old(failWrites) && limits == old(limits) && writes == old(writes)
    {
      hide Represents, DefTabs, QueuesValid, Own, Load, GivenCount, GivenBytes, DistinctCells, CountsMatch;
      id := nextSheetId;
      ghost var d := DefDoc(id, def.(tabs := []));
      var sheet := Sheet(def.name, "active", 0, 0, 0, def.userId, None, def.source);
      NewSheetRepresents(Data(), docs, sheet, d);
      nextSheetId := nextSheetId + 1;
      sheets := sheets[id := sheet];
      docs := docs[id := d];
      for position := 0 to |def.tabs|
        invariant Valid() && id in docs && nextSheetId == old(nextSheetId) + 1 && queues == old(queues)
        invariant docs == old(docs)[id := d.(tabs := DefTabs(id, def.tabs[..position]))]
        invariant forall s :: s != id ==> Own(worksheets, s) == Own(old(worksheets), s)
        invariant failWrites == old(failWrites) && limits == old(limits) && writes == old(writes)
      {
        AddDefinedTab(id, position, def.tabs[position]);
        DefTabsSnoc(id, def.tabs, position);
      }
      assert def.tabs[..|def.tabs|] == def.tabs;
      CreatedRecord(Data(), docs, id, def);
      forall s | s in old(docs) ensures Load(Data(), s) == old(Load(Data(), s)) {
        LoadDetermined(old(Data()), old(docs), Data(), docs, s);
      }
    }

    /** One round of `sheetDefs.forEach`: push the worksheet, then store its cells one by one. */
    method AddDefinedTab(id: nat, position: nat, def: TabDef)
      requires Valid() && id in docs && position == |docs[id].tabs| && DistinctCells(def.cells)
      requires forall i :: 0 <= i < position ==> docs[id].tabs[i].key == GeneratedKey(id, i)
      modifies `sheets, `worksheets, `cells, `nextWorksheetId, `docs
      ensures Valid()
      ensures docs == old(docs)[id := old(docs)[id].(tabs := old(docs)[id].tabs + [DefTab(id, position, def)])]
      ensures forall s :: s != id ==> Own(worksheets, s) == Own(old(worksheets), s)
    {
      hide Represents, WithCells, DefCells, Own;
      ghost var docs0, d0 := docs, docs[id];
      var worksheet := Worksheet(nextWorksheetId, id, GeneratedKey(id, position), def.name, position,
                                 if def.rowCount == 0 then DEFAULT_ROWS else def.rowCount,
                                 if def.columnCount == 0 then DEFAULT_COLUMNS else def.columnCount,
                                 if def.layout.Some? then def.layout.value else EMPTY_LAYOUT);
      forall i | 0 <= i < position ensures d0.tabs[i].key != worksheet.key {
        SheetLaws.GeneratedKeyInjective(id, i, position);
      }
      AppendFills(Data(), docs, worksheet);
      forall s | s != id ensures Own(worksheets + [worksheet], s) == Own(worksheets, s) {
        OwnPush(worksheets, worksheet, s);
      }
      worksheets := worksheets + [worksheet];
      nextWorksheetId := nextWorksheetId + 1;
      ghost var d := WithEmptyTab(d0, worksheet);
      for j := 0 to |def.cells|
        invariant worksheets == old(worksheets) + [worksheet]
        invariant Represents(Data(), Filling(docs0, d, worksheet, def.cells[..j]))
      {
        var entry := def.cells[j];
        FillStep(Data(), docs0, d, worksheet, def.cells, j);
        cells := cells[CellKey(worksheet.id, entry.pos) := DefStored(entry)];
        sheets := sheets[id := sheets[id].(cellCount := sheets[id].cellCount + 1,
                                           dataBytes := sheets[id].dataBytes + DefBytes(entry))];
      }
      assert def.cells[..|def.cells|] == def.cells;
      docs := Filling(docs0, d, worksheet, def.cells);
      FilledTab(d0, worksheet, position, def);
    }

    method LoadWorkbook(sheetId: nat) returns (r: LoadResult)
      requires Valid()
      ensures r == Load(Data(), sheetId)
      ensures r.NoSuchSheet? <==> sheetId !in docs
      ensures r.Workbook? ==> sheetId in docs && ShowsDoc(r, docs[sheetId])
      ensures sheetId in docs ==>
                (r.WorkbookTooLarge? <==>
                 CountCells(docs[sheetId].tabs) > 200000 || CountBytes(docs[sheetId].tabs) > 25 * 1024 * 1024)
    {
      LoadShowsDoc(Data(), docs, sheetId);
      if sheetId !in sheets {
        return NoSuchSheet;
      }
      var sheet := sheets[sheetId];
      if sheet.cellCount > LIMITS.maxCells || sheet.dataBytes > LIMITS.maxBytes {
        return WorkbookTooLarge;
      }
      r := Workbook(sheet, LoadTabs(SortByPosition(Own(worksheets, sheetId)), cells));
    }

    method UpdateSheet(sheetId: nat, fields: Fields) returns (ok: bool)
      requires Valid()
      modifies `sheets, `docs
      ensures Valid()
      ensures ok == (sheetId in old(sheets) && old(sheets)[sheetId].deletedAt.None?)
      ensures !ok ==> sheets == old(sheets)
      ensures ok ==>
                var was := old(sheets)[sheetId];
                sheets == old(sheets)[sheetId := was.(name := if fields.name.Some? then fields.name.value else was.name,
                                                      status := if fields.status.Some? then fields.status.value
                                                                else was.status)]
      ensures Ideal() == Step(old(Ideal()), Update(sheetId, fields))
    {
      hide Represents;
      RepresentsRecord(Data(), docs, sheetId);
      if sheetId !in sheets || sheets[sheetId].deletedAt.Some? {
        return false;
      }
      var sheet := sheets[sheetId];
      var sheet' := sheet.(name := if fields.name.Some? then fields.name.value else sheet.name,
                           status := if fields.status.Some? then fields.status.value else sheet.status);
      RecordRepresents(Data(), docs, sheetId, sheet', Updated(docs[sheetId], fields));
      sheets := sheets[sheetId := sheet'];
      docs := docs[sheetId := Updated(docs[sheetId], fields)];
      ok := true;
    }

    method SoftDeleteSheet(sheetId: nat, now: nat) returns (ok: bool)
      requires Valid()
      modifies `sheets, `docs
      ensures Valid()
      ensures ok == (sheetId in old(sheets) && old(sheets)[sheetId].deletedAt.None?)
      ensures !ok ==> sheets == old(sheets)
      ensures ok ==> sheets == old(sheets)[sheetId := old(sheets)[sheetId].(deletedAt := Some(now))]
      ensures Ideal() == Step(old(Ideal()), Delete(sheetId, now))
    {
      hide Represents;
      RepresentsRecord(Data(), docs, sheetId);
      if sheetId !in sheets || sheets[sheetId].deletedAt.Some? {
        return false;
      }
      var sheet' := sheets[sheetId].(deletedAt := Some(now));
      RecordRepresents(Data(), docs, sheetId, sheet', docs[sheetId].(deletedAt := Some(now)));
      sheets := sheets[sheetId := sheet'];
      docs := docs[sheetId := docs[sheetId].(deletedAt := Some(now))];
      ok := true;
    }

    /** The call itself only joins the sheet's queue. */
    method ApplyOperation(sheetId: nat, op: Op)
      requires Valid() && OpValid(op)
      modifies `queues
      ensures Valid()
      ensures queues == old(queues)[sheetId := (if sheetId in old(queues) then old(queues)[sheetId] else []) + [op]]
      ensures Ideal() == Step(old(Ideal()), Call(sheetId, op))
    {
      var previous := if sheetId in queues then queues[sheetId] else [];
      queues := queues[sheetId := previous + [op]];
    }

    /** The event loop runs the head of one sheet's queue. */
    method RunNext(sheetId: nat) returns (outcome: Outcome)
      requires Valid() && QueueOf(Ideal(), sheetId) != []
      modifies `sheets, `worksheets, `cells, `queues, `nextWorksheetId, `writes, `docs
      ensures Valid()
      ensures
        var max := if limits.Some? then limits.value else LIMITS;
        && Ideal() == Step(old(Ideal()), Run(sheetId, failWrites, max))
        && outcome == Execute(DocOf(old(Ideal()), sheetId), old(queues[sheetId][0]), failWrites, max).1
      ensures queues == old(queues)[sheetId := old(queues)[sheetId][1..]]
      ensures outcome == Rejected(SheetNotWritable) <==>
              !failWrites && (sheetId !in old(sheets) || old(sheets)[sheetId].status != "active"
                              || old(sheets)[sheetId].deletedAt.Some?)
      ensures writes == old(writes) + (if outcome.Accepted? then 1 else 0)
      ensures outcome.Rejected? && !old(queues[sheetId][0]).Unknown? ==> Data() == old(Data())
    {
      hide Represents, Edited, Own, DefDoc, DefTabs, Updated, QueuesValid;
      QueueHead(queues, sheetId);
      var op := queues[sheetId][0];
      queues := queues[sheetId := queues[sheetId][1..]];
      RepresentsRecord(Data(), docs, sheetId);
      NotWritableExactly(DocOf(Ideal(), sheetId), op, failWrites, CurrentLimits());
      assert Assign(docs, sheetId, DocOf(Ideal(), sheetId)) == docs;
      if failWrites {
        return Rejected(DatabaseFailure);
      }
      if sheetId !in sheets || sheets[sheetId].status != "active" || sheets[sheetId].deletedAt.Some? {
        return Rejected(SheetNotWritable);
      }
      if op.Unknown? {
        var _ := RaiseRevision(sheetId);
        return Rejected(ApplyIsNotAFunction);
      }
      outcome := Serve(sheetId, op);
    }

    /** The kinds of operation the store knows, on a writable sheet. */
    method Serve(sheetId: nat, op: Op) returns (outcome: Outcome)
      requires Valid() && sheetId in docs && OpValid(op) && !op.Unknown?
      modifies `sheets, `worksheets, `cells, `nextWorksheetId, `writes, `docs
      ensures Valid() && Executed(sheetId, op, outcome)
    {
      hide Represents, Edited, QueuesValid, Own;
      match op
      case Cells(ws, entries) => outcome := WriteCells(sheetId, ws, entries);
      case AddWorksheet(ws, name, index) => outcome := AddTab(sheetId, ws, name, index);
      case RenameWorksheet(ws, name) => outcome := RenameTab(sheetId, ws, name);
      case SetLayout(ws, columnWidths, rowHeights) => outcome := LayOutTab(sheetId, ws, columnWidths, rowHeights);
    }

    /** `sheet.revision += 1`, which happens before `apply` is called. */
    method RaiseRevision(sheetId: nat) returns (revision: nat)
      requires Valid() && sheetId in docs
      modifies `sheets, `docs
      ensures Valid()
      ensures docs == old(docs)[sheetId := old(docs)[sheetId].(revision := old(docs)[sheetId].revision + 1)]
      ensures revision == docs[sheetId].revision && sheetId in old(sheets)
      ensures sheets == old(sheets)[sheetId := old(sheets)[sheetId].(revision := old(sheets)[sheetId].revision + 1)]
    {
      hide Represents;
      RepresentsRecord(Data(), docs, sheetId);
      var sheet' := sheets[sheetId].(revision := sheets[sheetId].revision + 1);
      RecordRepresents(Data(), docs, sheetId, sheet', docs[sheetId].(revision := docs[sheetId].revision + 1));
      sheets := sheets[sheetId := sheet'];
      docs := docs[sheetId := docs[sheetId].(revision := docs[sheetId].revision + 1)];
      revision := sheet'.revision;
    }

    /** What each kind of operation promises on a writable sheet. */
    twostate predicate Executed(sheetId: nat, op: Op, outcome: Outcome)
      requires sheetId in old(docs) && !op.Unknown?
      reads this
    {
      && (match Edited(old(docs)[sheetId], op, CurrentLimits())
          case Failure(error) =>
            outcome == Rejected(error) && Data() == old(Data()) && docs == old(docs) && writes == old(writes)
          case Success(tabs) =>
            var next := old(docs)[sheetId].revision + 1;
            && outcome == Accepted(next) && writes == old(writes) + 1
            && docs == old(docs)[sheetId := old(docs)[sheetId].(revision := next, tabs := tabs)])
    }

    method RenameTab(sheetId: nat, ws: string, name: Name) returns (outcome: Outcome)
      requires Valid() && sheetId in docs
      modifies `sheets, `worksheets, `writes, `docs
      ensures Valid() && Executed(sheetId, RenameWorksheet(ws, name), outcome)
      ensures outcome.Accepted? ==> Renamed(old(docs)[sheetId].tabs, docs[sheetId].tabs, ws, name)
    {
      hide Represents, QueuesValid, Own, FindTab, NameInUse, NameTaken, InsertAt, EditAll, WriteAll, Overgrown,
           OutsideGrid, Resize, Renamed;
      ghost var d := docs[sheetId];
      StoredKeysDistinct(Data(), docs, sheetId);
      var own := Own(worksheets, sheetId);
      SheetSearch(Data(), docs, sheetId, ws);
      var found := FindByKey(own, ws);
      if found.None? {
        return Rejected(WorksheetNotFound);
      }
      var worksheet := found.value;
      SheetNames(Data(), docs, sheetId, name, found);
      if NameInUse(own, name, Some(worksheet.id)) {
        return Rejected(WorksheetNameExists);
      }
      var revision := RaiseRevision(sheetId);
      EditRepresents(Data(), docs, worksheet, Rename(worksheet.id, name));
      worksheets := EditAll(worksheets, Rename(worksheet.id, name));
      docs := docs[sheetId := WithTab(docs[sheetId], worksheet.position, Rename(worksheet.id, name))];
      assert docs == old(docs)[sheetId := docs[sheetId]];
      writes := writes + 1;
      outcome := Accepted(revision);
      RenameMeaning(d, ws, name, CurrentLimits());
    }

    method WriteCells(sheetId: nat, ws: string, entries: seq<Write>) returns (outcome: Outcome)
      requires Valid() && sheetId in docs && DistinctPositions(entries)
      modifies `sheets, `cells, `writes, `docs
      ensures Valid() && Executed(sheetId, Cells(ws, entries), outcome)
      ensures outcome.Accepted? ==>
                Written(old(docs)[sheetId].tabs, docs[sheetId].tabs, ws, entries, old(docs)[sheetId].revision + 1)
    {
      hide Represents, QueuesValid, Own, FindTab, CellsMatch, WriteAll, Overgrown, NameTaken, InsertAt, Resize,
           NewCount, ExistingCount, NewBytes, ExistingBytes, Written;
      ghost var d := docs[sheetId];
      StoredKeysDistinct(Data(), docs, sheetId);
      var own := Own(worksheets, sheetId);
      SheetSearch(Data(), docs, sheetId, ws);
      RepresentsRecord(Data(), docs, sheetId);
      var found := FindByKey(own, ws);
      if found.None? {
        return Rejected(WorksheetNotFound);
      }
      var worksheet := found.value;
      ghost var t, grid := worksheet.position, d.tabs[worksheet.position].cells;
      if exists i :: 0 <= i < |entries| && (entries[i].pos.r >= worksheet.rows
                                            || entries[i].pos.c >= worksheet.columns) {
        assert OutsideGrid(d.tabs[t], entries);
        return Rejected(InvalidCellCoordinate);
      }
      assert !OutsideGrid(d.tabs[t], entries);
      var max := CurrentLimits();
      var deltaCells, deltaBytes := CountDeltas(worksheet.id, entries, grid);
      GrowthCheck(sheets[sheetId], d, t, entries, d.revision + 1, max);
      if (deltaCells > 0 && sheets[sheetId].cellCount + deltaCells > max.maxCells)
         || (deltaBytes > 0 && sheets[sheetId].dataBytes + deltaBytes > max.maxBytes) {
        return Rejected(SheetFull);
      }
      var revision := CommitCells(sheetId, worksheet, entries, deltaCells, deltaBytes);
      outcome := Accepted(revision);
      CellsMeaning(d, ws, entries, max);
    }

    /** The part of a cells operation after its validation. */
    method CommitCells(sheetId: nat, worksheet: Worksheet, entries: seq<Write>, deltaCells: int, deltaBytes: int)
      returns (revision: nat)
      requires Valid() && sheetId in docs && DistinctPositions(entries)
      requires worksheet in worksheets && worksheet.sheetId == sheetId && worksheet.position < |docs[sheetId].tabs|
      requires deltaCells == NewCount(entries) - ExistingCount(docs[sheetId].tabs[worksheet.position].cells, entries)
      requires deltaBytes == NewBytes(entries) - ExistingBytes(docs[sheetId].tabs[worksheet.position].cells, entries)
      modifies `sheets, `cells, `writes, `docs
      ensures Valid() && writes == old(writes) + 1
      ensures
        var d, t := old(docs)[sheetId], worksheet.position;
        && revision == d.revision + 1
        && docs == old(docs)[sheetId := WithCells(d.(revision := revision), t,
                                                  WriteAll(d.tabs[t].cells, entries, revision))]
    {
      hide Represents, QueuesValid, WriteAll, KeyWrites, NewCount, ExistingCount, NewBytes, ExistingBytes;
      revision := RaiseRevision(sheetId);
      CellsRepresent(Data(), docs, worksheet, entries, revision);
      StoreCells(worksheet.id, entries, revision);
      sheets := sheets[sheetId := sheets[sheetId].(cellCount := sheets[sheetId].cellCount + deltaCells,
                                                   dataBytes := sheets[sheetId].dataBytes + deltaBytes)];
      docs := docs[sheetId := WithCells(docs[sheetId], worksheet.position,
                                        WriteAll(docs[sheetId].tabs[worksheet.position].cells, entries, revision))];
      assert docs == old(docs)[sheetId := docs[sheetId]];
      writes := writes + 1;
    }

    /** The counting loop: what the operation replaces and what it brings. */
    method CountDeltas(id: nat, entries: seq<Write>, ghost grid: map<Pos, Stored>)
      returns (deltaCells: int, deltaBytes: int)
      requires CellsMatch(id, grid, cells)
      ensures deltaCells == NewCount(entries) - ExistingCount(grid, entries)
      ensures deltaBytes == NewBytes(entries) - ExistingBytes(grid, entries)
    {
      var existingCount, existingBytes, newCount, newBytes := 0, 0, 0, 0;
      for i := 0 to |entries|
        invariant existingCount == ExistingCount(grid, entries[..i])
                  && existingBytes == ExistingBytes(grid, entries[..i])
        invariant newCount == NewCount(entries[..i]) && newBytes == NewBytes(entries[..i])
      {
        var key := CellKey(id, entries[i].pos);
        if key in cells {
          existingCount := existingCount + 1;
          existingBytes := existingBytes + cells[key].bytes;
        }
        if entries[i].cell.Some? {
          newCount := newCount + 1;
          newBytes := newBytes + CellStorageBytes(entries[i].cell.value);
        }
        assert entries[..i + 1][..i] == entries[..i];
      }
      assert entries[..|entries|] == entries;
      deltaCells, deltaBytes := newCount - existingCount, newBytes - existingBytes;
    }

    /** The storing loop of a cells operation. */
    method StoreCells(id: nat, entries: seq<Write>, revision: nat)
      modifies `cells
      ensures cells == KeyWrites(old(cells), id, entries, revision)
    {
      for i := 0 to |entries|
        invariant cells == KeyWrites(old(cells), id, entries[..i], revision)
      {
        var entry := entries[i];
        var key := CellKey(id, entry.pos);
        if entry.cell.None? {
          cells := cells - {key};
        } else {
          cells := cells[key := Stored(entry.cell.value, revision, CellStorageBytes(entry.cell.value))];
        }
        assert entries[..i + 1][..i] == entries[..i];
      }
      assert entries[..|entries|] == entries;
    }

    method AddTab(sheetId: nat, ws: string, name: Name, index: Option<nat>) returns (outcome: Outcome)
      requires Valid() && sheetId in docs
      modifies `sheets, `worksheets, `nextWorksheetId, `writes, `docs
      ensures Valid() && Executed(sheetId, AddWorksheet(ws, name, index), outcome)
      ensures outcome.Accepted? ==>
                var before, after := old(docs)[sheetId].tabs, docs[sheetId].tabs;
                if NoTab(before, ws) then Inserted(before, after, ws, name, index) else after == before
    {
      hide Represents, QueuesValid, Own, FindTab, NameInUse, NameTaken, InsertAt, EditAll, WriteAll, Overgrown,
           OutsideGrid, Resize, Inserted, NoTab;
      ghost var d := docs[sheetId];
      var own := Own(worksheets, sheetId);
      SheetSearch(Data(), docs, sheetId, ws);
      SheetNames(Data(), docs, sheetId, name, None);
      var found := FindByKey(own, ws);
      if found.None? {
        if |own| >= MAX_WORKSHEETS {
          return Rejected(TooManyWorksheets);
        }
        if NameInUse(own, name, None) {
          return Rejected(WorksheetNameExists);
        }
      }
      var revision := RaiseRevision(sheetId);
      if found.None? {
        InsertTab(sheetId, ws, name, index, |own|);
      }
      assert docs == old(docs)[sheetId := docs[sheetId]];
      writes := writes + 1;
      outcome := Accepted(revision);
      AddMeaning(d, ws, name, index, CurrentLimits());
    }

    /** The part of adding a worksheet after its validation. */
    method InsertTab(sheetId: nat, ws: string, name: Name, index: Option<nat>, append: nat)
      requires Valid() && sheetId in docs && append == |Own(worksheets, sheetId)| == |docs[sheetId].tabs|
      requires FindTab(docs[sheetId].tabs, ws).None?
      modifies `worksheets, `nextWorksheetId, `docs
      ensures Valid()
      ensures
        var d := old(docs)[sheetId];
        docs == old(docs)[sheetId := d.(tabs := InsertAt(d.tabs, InsertIndex(|d.tabs|, index), NewTab(ws, name)))]
    {
      hide Represents, QueuesValid, Own, FindTab, InsertAt, EditAll;
      var position := if index.None? then append else if index.value <= append then index.value else append;
      var worksheet := Worksheet(nextWorksheetId, sheetId, ws, name, position, DEFAULT_ROWS, DEFAULT_COLUMNS,
                                 EMPTY_LAYOUT);
      InsertRepresents(Data(), docs, worksheet);
      MovePositionsUp(sheetId, position);
      worksheets := worksheets + [worksheet];
      nextWorksheetId := nextWorksheetId + 1;
      docs := docs[sheetId := WithNewTab(docs[sheetId], worksheet)];
    }

    /** `own.forEach((w) => { if (w.position >= position) w.position += 1; })`. */
    method MovePositionsUp(sheetId: nat, position: nat)
      modifies `worksheets
      ensures worksheets == EditAll(old(worksheets), Shift(sheetId, position))
    {
      for i := 0 to |worksheets|
        invariant |worksheets| == |old(worksheets)|
        invariant forall k :: 0 <= k < i ==> worksheets[k] == ApplyEdit(Shift(sheetId, position), old(worksheets)[k])
        invariant forall k :: i <= k < |worksheets| ==> worksheets[k] == old(worksheets)[k]
      {
        var w := worksheets[i];
        if w.sheetId == sheetId && w.position >= position {
          worksheets := worksheets[i := w.(position := w.position + 1)];
        }
      }
    }

    method LayOutTab(sheetId: nat, ws: string, columnWidths: map<string, Option<int>>,
                     rowHeights: map<string, Option<int>>)
      returns (outcome: Outcome)
      requires Valid() && sheetId in docs
      modifies `sheets, `worksheets, `writes, `docs
      ensures Valid() && Executed(sheetId, SetLayout(ws, columnWidths, rowHeights), outcome)
      ensures outcome.Accepted? ==>
                LaidOut(old(docs)[sheetId].tabs, docs[sheetId].tabs, ws, columnWidths, rowHeights)
    {
      hide Represents, QueuesValid, Own, FindTab, NameTaken, InsertAt, EditAll, WriteAll, Overgrown, OutsideGrid,
           Resize, LaidOut;
      ghost var d := docs[sheetId];
      StoredKeysDistinct(Data(), docs, sheetId);
      var own := Own(worksheets, sheetId);
      SheetSearch(Data(), docs, sheetId, ws);
      var found := FindByKey(own, ws);
      if found.None? {
        return Rejected(WorksheetNotFound);
      }
      var worksheet := found.value;
      var revision := RaiseRevision(sheetId);
      var widths := ResizeEntries(worksheet.layout.columnWidths, columnWidths);
      var heights := ResizeEntries(worksheet.layout.rowHeights, rowHeights);
      var e := Relayout(worksheet.id, Layout(Some(widths), Some(heights)));
      EditRepresents(Data(), docs, worksheet, e);
      worksheets := EditAll(worksheets, e);
      docs := docs[sheetId := WithTab(docs[sheetId], worksheet.position, e)];
      assert docs == old(docs)[sheetId := docs[sheetId]];
      writes := writes + 1;
      outcome := Accepted(revision);
      LayoutMeaning(d, ws, columnWidths, rowHeights, CurrentLimits());
    }

    /** `Object.entries(edits)`: a null deletes the size, anything else sets it, in any order. */
    static method ResizeEntries(current: Option<Sizes>, edits: map<string, Option<int>>) returns (sizes: Sizes)
      ensures sizes == Resize(current, edits)
    {
      sizes := if current.Some? then current.value else map[];
      var todo := edits.Keys;
      ghost var before := sizes;
      while todo != {}
        invariant todo <= edits.Keys
        invariant forall k :: k in sizes <==>
                    if k in edits.Keys - todo then edits[k].Some? else k in before
        invariant forall k :: k in sizes ==> sizes[k] == if k in edits.Keys - todo then edits[k].value else before[k]
      {
        var k :| k in todo;
        if edits[k].None? {
          sizes := sizes - {k};
        } else {
          sizes := sizes[k := edits[k].value];
        }
        todo := todo - {k};
      }
    }
  }
}
