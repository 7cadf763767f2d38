/** `createSheet`, one stored cell at a time: at every point the data represents the part created so far. */
module SheetCreate {
  import opened Wrappers
  import opened SheetKeys
  import opened SheetDoc
  import opened SheetStore
  import opened SheetWorld
  import opened SheetLoad
  import Decimal

  /** Storing one more cell of a new worksheet raises the counts by one cell and by its bytes. */
  lemma NewCellCounts(d: Doc, t: nat, defs: seq<CellDef>, j: nat)
    requires t < |d.tabs| && j < |defs| && DistinctCells(defs)
    ensures
      var before := WithCells(d, t, DefCells(defs[..j])).tabs;
      var after := WithCells(d, t, DefCells(defs[..j + 1])).tabs;
      && CountCells(after) == CountCells(before) + 1
      && CountBytes(after) == CountBytes(before) + DefBytes(defs[j])
  {
    var m, m' := DefCells(defs[..j]), DefCells(defs[..j + 1]);
    assert defs[..j + 1][..j] == defs[..j];
    DefCellsOnly(defs[..j], defs[j].pos);
    assert m' - {defs[j].pos} == m;
    assert m'.Keys == m.Keys + {defs[j].pos};
    BytesRemove(m', defs[j].pos);
    CountReplace(d.tabs, t, d.tabs[t].(cells := m));
    CountReplace(d.tabs, t, d.tabs[t].(cells := m'));
  }

  lemma {:induction false} DefCellsOnly(defs: seq<CellDef>, pos: Pos)
    requires forall i :: 0 <= i < |defs| ==> defs[i].pos != pos
    ensures pos !in DefCells(defs)
  {
    if defs != [] {
      DefCellsOnly(defs[..|defs| - 1], pos);
    }
  }

  lemma NewSheetRepresents(st: Store, docs: map<nat, Doc>, sheet: Sheet, d: Doc)
    requires Represents(st, docs) && RecordMatches(sheet, d) && d.tabs == [] && sheet.cellCount == 0
             && sheet.dataBytes == 0
    ensures Represents(WithSheet(st, sheet), docs[st.nextSheetId := d])
    ensures st.nextSheetId !in docs
  {
    NewSheetRefines(st, docs, sheet, d);
  }

  function WithEmptyTab(d: Doc, w: Worksheet): Doc {
    d.(tabs := d.tabs + [EmptyTab(w)])
  }

  /** The documents, with worksheet w's tab holding only the cells `defs`. */
  function Filling(docs: map<nat, Doc>, d: Doc, w: Worksheet, defs: seq<CellDef>): map<nat, Doc>
    requires w.position < |d.tabs|
  {
    docs[w.sheetId := WithCells(d, w.position, DefCells(defs))]
  }

  lemma AppendFills(st: Store, docs: map<nat, Doc>, w: Worksheet)
    requires Represents(st, docs)
    requires w.id == st.nextWorksheetId && w.sheetId in docs && w.position == |docs[w.sheetId].tabs|
    requires forall i :: 0 <= i < |docs[w.sheetId].tabs| ==> docs[w.sheetId].tabs[i].key != w.key
    ensures Represents(st.(worksheets := st.worksheets + [w], nextWorksheetId := st.nextWorksheetId + 1),
                       Filling(docs, WithEmptyTab(docs[w.sheetId], w), w, []))
  {
    hide Shape;
    var d := docs[w.sheetId];
    AppendRefines(st, docs, w);
    CountInsert(d.tabs, w.position, EmptyTab(w));
    assert InsertAt(d.tabs, w.position, EmptyTab(w)) == WithEmptyTab(d, w).tabs;
    assert WithCells(WithEmptyTab(d, w), w.position, DefCells([])) == WithEmptyTab(d, w);
  }

  function Filled(st: Store, w: Worksheet, entry: CellDef): Store
    requires w.sheetId in st.sheets
  {
    var sheet := st.sheets[w.sheetId];
    st.(cells := st.cells[CellKey(w.id, entry.pos) := DefStored(entry)],
        sheets := st.sheets[w.sheetId := sheet.(cellCount := sheet.cellCount + 1,
                                                dataBytes := sheet.dataBytes + DefBytes(entry))])
  }

  lemma FillStep(st: Store, docs: map<nat, Doc>, d: Doc, w: Worksheet, defs: seq<CellDef>, j: nat)
    requires j < |defs| && DistinctCells(defs) && w in st.worksheets && w.position < |d.tabs|
    requires Represents(st, Filling(docs, d, w, defs[..j]))
    ensures w.sheetId in st.sheets
    ensures Represents(Filled(st, w, defs[j]), Filling(docs, d, w, defs[..j + 1]))
  {
    FillShape(st, docs, d, w, defs, j);
    FillCounts(st, docs, d, w, defs, j);
  }

  lemma FillShape(st: Store, docs: map<nat, Doc>, d: Doc, w: Worksheet, defs: seq<CellDef>, j: nat)
    requires j < |defs| && w in st.worksheets && w.position < |d.tabs|
    requires Shape(st, Filling(docs, d, w, defs[..j]))
    ensures w.sheetId in st.sheets
    ensures Shape(Filled(st, w, defs[j]), Filling(docs, d, w, defs[..j + 1]))
  {
    hide Shape;
    ShapeRecord(st, Filling(docs, d, w, defs[..j]), w.sheetId);
    var before, after := DefCells(defs[..j]), DefCells(defs[..j + 1]);
    assert after == Assign(before, defs[j].pos, Some(DefStored(defs[j]))) by {
      assert defs[..j + 1][..j] == defs[..j];
    }
    var docs' := Filling(docs, d, w, defs[..j + 1]);
    var st1 := st.(cells := st.cells[CellKey(w.id, defs[j].pos) := DefStored(defs[j])]);
    AssignStep(st, docs, d, w, before, defs[j].pos, Some(DefStored(defs[j])));
    var sheet := Filled(st, w, defs[j]).sheets[w.sheetId];
    assert Filled(st, w, defs[j]) == st1.(sheets := st1.sheets[w.sheetId := sheet]);
    RecordRefines(st1, docs', w.sheetId, sheet, docs'[w.sheetId]);
    assert docs'[w.sheetId := docs'[w.sheetId]] == docs';
  }

  lemma FillCounts(st: Store, docs: map<nat, Doc>, d: Doc, w: Worksheet, defs: seq<CellDef>, j: nat)
    requires j < |defs| && DistinctCells(defs) && w.position < |d.tabs| && w.sheetId in st.sheets
    requires forall r :: r in Filling(docs, d, w, defs[..j]) ==>
                           r in st.sheets && CountsMatch(st.sheets[r], Filling(docs, d, w, defs[..j])[r])
    ensures forall r :: r in Filling(docs, d, w, defs[..j + 1]) ==>
                          CountsMatch(Filled(st, w, defs[j]).sheets[r], Filling(docs, d, w, defs[..j + 1])[r])
  {
    NewCellCounts(d, w.position, defs, j);
    var before, after := Filling(docs, d, w, defs[..j]), Filling(docs, d, w, defs[..j + 1]);
    forall r | r in after ensures CountsMatch(Filled(st, w, defs[j]).sheets[r], after[r]) {
      assert r in before;
      assert CountsMatch(st.sheets[r], before[r]);
    }
  }

  lemma DefTabsSnoc(id: nat, defs: seq<TabDef>, n: nat)
    requires n < |defs|
    ensures DefTabs(id, defs[..n + 1]) == DefTabs(id, defs[..n]) + [DefTab(id, n, defs[n])]
  {
  }

  /** Once all its cells are stored, the tab is the one the definition describes. */
  lemma FilledTab(d: Doc, w: Worksheet, position: nat, def: TabDef)
    requires w.position == position == |d.tabs|
    requires EmptyTab(w).(cells := DefCells(def.cells)) == DefTab(w.sheetId, position, def)
    ensures WithCells(WithEmptyTab(d, w), position, DefCells(def.cells))
         == d.(tabs := d.tabs + [DefTab(w.sheetId, position, def)])
  {
  }

  // ----- What the counters start with

  /** The number of cells given. */
  function GivenCount(defs: seq<TabDef>): nat {
    if defs == [] then 0 else GivenCount(defs[..|defs| - 1]) + |defs[|defs| - 1].cells|
  }

  /** The given sizes, or the length of the JSON text where none is given. */
  function BytesOf(cells: seq<CellDef>): nat {
    if cells == [] then 0
    else
      var last := cells[|cells| - 1];
      BytesOf(cells[..|cells| - 1]) + (if last.bytes.Some? then last.bytes.value else |last.cell.json|)
  }

  function GivenBytes(defs: seq<TabDef>): nat {
    if defs == [] then 0 else GivenBytes(defs[..|defs| - 1]) + BytesOf(defs[|defs| - 1].cells)
  }

  lemma {:induction false} GivenCellsCounted(cells: seq<CellDef>)
    requires DistinctCells(cells)
    ensures |DefCells(cells)| == |cells| && BytesIn(DefCells(cells)) == BytesOf(cells)
  {
    if cells != [] {
      var n := |cells| - 1;
      GivenCellsCounted(cells[..n]);
      DefCellsOnly(cells[..n], cells[n].pos);
      var m, m' := DefCells(cells[..n]), DefCells(cells);
      assert m' - {cells[n].pos} == m && m'.Keys == m.Keys + {cells[n].pos};
      BytesRemove(m', cells[n].pos);
    }
  }

  lemma {:induction false} GivenCounted(id: nat, defs: seq<TabDef>)
    requires forall i :: 0 <= i < |defs| ==> DistinctCells(defs[i].cells)
    ensures CountCells(DefTabs(id, defs)) == GivenCount(defs) && CountBytes(DefTabs(id, defs)) == GivenBytes(defs)
  {
    hide DefCells, BytesIn, BytesOf, DistinctCells, DefTabs, DefTab;
    if defs == [] {
      assert DefTabs(id, defs) == [];
    } else {
      var n := |defs| - 1;
      GivenCounted(id, defs[..n]);
      DefTabsSnoc(id, defs, n);
      assert defs[..n + 1] == defs;
      GivenCellsCounted(defs[n].cells);
      CellsOfDefTab(id, n, defs[n]);
      assert DefTabs(id, defs)[..n] == DefTabs(id, defs[..n]);
    }
  }

  lemma CellsOfDefTab(id: nat, p: nat, def: TabDef)
    ensures DefTab(id, p, def).cells == DefCells(def.cells)
  {
  }

  /** The record of a sheet right after its creation, counters included. */
  lemma CreatedRecord(st: Store, docs: map<nat, Doc>, id: nat, def: SheetDef)
    requires Represents(st, docs) && id in docs && docs[id] == DefDoc(id, def) && DefValid(def)
    ensures id in st.sheets
    ensures st.sheets[id] == Sheet(def.name, "active", 0, GivenCount(def.tabs), GivenBytes(def.tabs), def.userId, None,
                                   def.source)
  {
    hide Represents, DefTabs, DistinctCells, GivenCount, GivenBytes, CountCells, CountBytes;
    RepresentsRecord(st, docs, id);
    GivenCounted(id, def.tabs);
  }

  // ----- Create, then load

  function GivenCells(defs: seq<CellDef>): set<LoadedCell> {
    set i | 0 <= i < |defs| :: LoadedCell(defs[i].pos.r, defs[i].pos.c, defs[i].cell)
  }

  ghost predicate Defines(defs: seq<CellDef>, p: Pos) {
    exists i :: 0 <= i < |defs| && defs[i].pos == p
  }

  lemma {:induction false} DefinedOnly(defs: seq<CellDef>, p: Pos)
    requires p in DefCells(defs)
    ensures Defines(defs, p)
  {
    var n := |defs| - 1;
    if p == defs[n].pos {
      assert defs[n].pos == p;
    } else {
      DefinedOnly(defs[..n], p);
      var i :| 0 <= i < n && defs[..n][i].pos == p;
      assert defs[i].pos == p;
    }
  }

  lemma {:induction false} DefinedAs(defs: seq<CellDef>, i: nat)
    requires DistinctCells(defs) && i < |defs|
    ensures defs[i].pos in DefCells(defs) && DefCells(defs)[defs[i].pos] == DefStored(defs[i])
  {
    var n := |defs| - 1;
    if i < n {
      DefinedAs(defs[..n], i);
      assert defs[i].pos != defs[n].pos;
    }
  }

  lemma GivenCellsLoaded(tab: Tab, defs: seq<CellDef>)
    requires DistinctCells(defs) && tab.cells == DefCells(defs)
    ensures TabEntries(tab) == GivenCells(defs)
  {
    forall e | e in TabEntries(tab) ensures e in GivenCells(defs) {
      var p :| p in tab.cells && e == LoadedCell(p.r, p.c, tab.cells[p].cell);
      DefinedOnly(defs, p);
      var i :| 0 <= i < |defs| && defs[i].pos == p;
      DefinedAs(defs, i);
      assert e == LoadedCell(defs[i].pos.r, defs[i].pos.c, defs[i].cell);
    }
    forall e | e in GivenCells(defs) ensures e in TabEntries(tab) {
      var i :| 0 <= i < |defs| && e == LoadedCell(defs[i].pos.r, defs[i].pos.c, defs[i].cell);
      DefinedAs(defs, i);
      assert defs[i].pos in tab.cells;
    }
  }

  /**
   Loading a sheet right after creating it returns the given worksheets, in the given order, with exactly the given
   cells.
   */
  lemma CreatedThenLoaded(st: Store, docs: map<nat, Doc>, id: nat, def: SheetDef, p: nat)
    requires Represents(st, docs) && id in docs && docs[id] == DefDoc(id, def) && DefValid(def)
    requires GivenCount(def.tabs) <= LIMITS.maxCells && GivenBytes(def.tabs) <= LIMITS.maxBytes
    requires p < |def.tabs|
    ensures
      var r, given := Load(st, id), def.tabs[p];
      && r.Workbook? && |r.worksheets| == |def.tabs|
      && r.sheet == Sheet(def.name, "active", 0, GivenCount(def.tabs), GivenBytes(def.tabs), def.userId, None,
                          def.source)
      && r.worksheets[p].position == p && r.worksheets[p].name == given.name
      && r.worksheets[p].key == "ws" + Decimal.Print(id) + "x" + Decimal.Print(p)
      && r.worksheets[p].layout == (if given.layout.Some? then given.layout.value else Layout(None, None))
      && r.worksheets[p].cells == GivenCells(given.cells)
      && r.worksheets[p].rowCount == (if given.rowCount == 0 then 1000 else given.rowCount)
      && r.worksheets[p].columnCount == (if given.columnCount == 0 then 26 else given.columnCount)
  {
    hide Represents, GivenCount, GivenBytes;
    GivenCounted(id, def.tabs);
    CreatedRecord(st, docs, id, def);
    LoadShowsDoc(st, docs, id);
    GivenCellsLoaded(docs[id].tabs[p], def.tabs[p].cells);
    assert Shows(Load(st, id).worksheets[p], docs[id].tabs[p], p);
  }
}
