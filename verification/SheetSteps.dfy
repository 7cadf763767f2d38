/** The store's operations on its data, whole: searches agree with the document, mutations lead to the next one. */
module SheetSteps {
  import opened Wrappers
  import opened SheetKeys
  import opened SheetDoc
  import opened SheetCounters
  import opened SheetStore

  /** `own.find` by key finds the worksheet behind the tab with that key, if there is one. */
  lemma SheetSearch(st: Store, docs: map<nat, Doc>, s: nat, ws: string)
    requires Represents(st, docs) && s in docs
    ensures
      var own, tabs := Own(st.worksheets, s), docs[s].tabs;
      var found := FindByKey(own, ws);
      && |own| == |tabs|
      && (found.None? <==> FindTab(tabs, ws).None?)
      && (found.Some? ==> && found.value in own && found.value in st.worksheets && found.value.sheetId == s
                          && found.value.position < |tabs| && FindTab(tabs, ws) == Some(found.value.position)
                          && TabMatches(found.value, tabs[found.value.position], st.cells))
  {
    assert SheetMatches(st, s, docs[s]);
    hide IdsValid, CellsMatch, PositionsPermute;
    var own := Own(st.worksheets, s);
    FindAgrees(own, docs[s].tabs, st.cells, ws);
    if FindByKey(own, ws).Some? {
      OwnElements(st.worksheets, s, FindByKey(own, ws).value);
    }
  }

  lemma SheetNames(st: Store, docs: map<nat, Doc>, s: nat, name: Name, except: Option<Worksheet>)
    requires Represents(st, docs) && s in docs
    requires except.Some? ==> except.value in Own(st.worksheets, s)
    ensures NameInUse(Own(st.worksheets, s), name, if except.Some? then Some(except.value.id) else None)
            <==> NameTaken(docs[s].tabs, name, if except.Some? then except.value.position else -1)
  {
    assert SheetMatches(st, s, docs[s]);
    OwnElementsAll(st.worksheets, s);
    NameInUseAgrees(Own(st.worksheets, s), docs[s].tabs, st.cells, name, except);
  }

  lemma CountsOfOneChange(st: Store, st': Store, docs: map<nat, Doc>, s: nat, d: Doc)
    requires forall r :: r in docs ==> r in st.sheets && CountsMatch(st.sheets[r], docs[r])
    requires s in docs && s in st'.sheets && CountsMatch(st'.sheets[s], d)
    requires forall r :: r in docs && r != s ==> r in st'.sheets && st'.sheets[r] == st.sheets[r]
    ensures forall r :: r in docs[s := d] ==> CountsMatch(st'.sheets[r], docs[s := d][r])
  {
  }

  lemma EditRepresents(st: Store, docs: map<nat, Doc>, w: Worksheet, e: Edit)
    requires Represents(st, docs)
    requires w in st.worksheets && w.sheetId in docs && w.position < |docs[w.sheetId].tabs|
    requires (e.Rename? || e.Relayout?) && e.id == w.id
    ensures Represents(st.(worksheets := EditAll(st.worksheets, e)),
                       docs[w.sheetId := WithTab(docs[w.sheetId], w.position, e)])
  {
    hide Shape;
    var d := docs[w.sheetId];
    EditRefines(st, docs, w, e);
    CountReplace(d.tabs, w.position, WithTab(d, w.position, e).tabs[w.position]);
    RepresentsRecord(st, docs, w.sheetId);
    SheetRecords(st, docs);
    CountsOfOneChange(st, st.(worksheets := EditAll(st.worksheets, e)), docs, w.sheetId, WithTab(d, w.position, e));
  }

  lemma InsertRepresents(st: Store, docs: map<nat, Doc>, w: Worksheet)
    requires Represents(st, docs)
    requires w.id == st.nextWorksheetId && w.sheetId in docs && w.position <= |docs[w.sheetId].tabs|
    requires FindTab(docs[w.sheetId].tabs, w.key).None?
    ensures Represents(Pushed(st, w), docs[w.sheetId := WithNewTab(docs[w.sheetId], w)])
  {
    hide Shape;
    var d := docs[w.sheetId];
    InsertRefines(st, docs, w);
    CountInsert(d.tabs, w.position, EmptyTab(w));
    RepresentsRecord(st, docs, w.sheetId);
    SheetRecords(st, docs);
    CountsOfOneChange(st, Pushed(st, w), docs, w.sheetId, WithNewTab(d, w));
  }

  /** The loop that applies an operation's cells to the shared string-keyed map. */
  function KeyWrites(cells: map<string, Stored>, id: nat, writes: seq<Write>, revision: nat): map<string, Stored> {
    if writes == [] then cells
    else
      var w := writes[|writes| - 1];
      Assign(KeyWrites(cells, id, writes[..|writes| - 1], revision), CellKey(id, w.pos), StoredOf(w, revision))
  }

  lemma {:induction false} KeyWritesRefine(st: Store, docs: map<nat, Doc>, w: Worksheet, writes: seq<Write>,
                                           revision: nat)
    requires Shape(st, docs)
    requires w in st.worksheets && w.sheetId in docs && w.position < |docs[w.sheetId].tabs|
    ensures
      var d, t := docs[w.sheetId], w.position;
      Shape(st.(cells := KeyWrites(st.cells, w.id, writes, revision)),
            docs[w.sheetId := WithCells(d, t, WriteAll(d.tabs[t].cells, writes, revision))])
  {
    hide Shape;
    var d, t := docs[w.sheetId], w.position;
    if writes == [] {
      assert WithCells(d, t, d.tabs[t].cells) == d;
      assert docs[w.sheetId := d] == docs;
    } else {
      var init, last := writes[..|writes| - 1], writes[|writes| - 1];
      KeyWritesRefine(st, docs, w, init, revision);
      var st1 := st.(cells := KeyWrites(st.cells, w.id, init, revision));
      AssignStep(st1, docs, d, w, WriteAll(d.tabs[t].cells, init, revision), last.pos, StoredOf(last, revision));
    }
  }

  /** The data after a cells operation: the loop over the map, and both counters moved by the deltas. */
  function CellsWritten(st: Store, w: Worksheet, writes: seq<Write>, revision: nat, deltaCells: int,
                        deltaBytes: int): Store
    requires w.sheetId in st.sheets
  {
    var sheet := st.sheets[w.sheetId];
    st.(cells := KeyWrites(st.cells, w.id, writes, revision),
        sheets := st.sheets[w.sheetId := sheet.(cellCount := sheet.cellCount + deltaCells,
                                                dataBytes := sheet.dataBytes + deltaBytes)])
  }

  lemma CellsRepresent(st: Store, docs: map<nat, Doc>, w: Worksheet, writes: seq<Write>, revision: nat)
    requires Represents(st, docs) && DistinctPositions(writes)
    requires w in st.worksheets && w.sheetId in docs && w.position < |docs[w.sheetId].tabs|
    ensures
      var d, t := docs[w.sheetId], w.position;
      var grid := d.tabs[t].cells;
      && w.sheetId in st.sheets
      && Represents(CellsWritten(st, w, writes, revision, NewCount(writes) - ExistingCount(grid, writes),
                                 NewBytes(writes) - ExistingBytes(grid, writes)),
                    docs[w.sheetId := WithCells(d, t, WriteAll(grid, writes, revision))])
  {
    hide Shape, WriteAll, KeyWrites, NewCount, NewBytes, ExistingCount, ExistingBytes;
    var s, d, t := w.sheetId, docs[w.sheetId], w.position;
    var grid := d.tabs[t].cells;
    var d' := WithCells(d, t, WriteAll(grid, writes, revision));
    KeyWritesRefine(st, docs, w, writes, revision);
    SheetDeltas(d.tabs, t, writes, revision);
    RepresentsRecord(st, docs, s);
    SheetRecords(st, docs);
    var st1 := st.(cells := KeyWrites(st.cells, w.id, writes, revision));
    var st2 := CellsWritten(st, w, writes, revision, NewCount(writes) - ExistingCount(grid, writes),
                            NewBytes(writes) - ExistingBytes(grid, writes));
    RecordRefines(st1, docs[s := d'], s, st2.sheets[s], d');
    assert docs[s := d'][s := d'] == docs[s := d'];
    CountsOfOneChange(st, st2, docs, s, d');
  }

  /** The growth check on the deltas is the growth check on the document. */
  lemma GrowthCheck(sheet: Sheet, d: Doc, t: nat, writes: seq<Write>, revision: nat, limits: Limits)
    requires CountsMatch(sheet, d) && t < |d.tabs| && DistinctPositions(writes)
    ensures
      var grid := d.tabs[t].cells;
      var deltaCells := NewCount(writes) - ExistingCount(grid, writes);
      var deltaBytes := NewBytes(writes) - ExistingBytes(grid, writes);
      Overgrown(d.tabs, WithCells(d, t, WriteAll(grid, writes, revision)).tabs, limits) <==>
      || (deltaCells > 0 && sheet.cellCount + deltaCells > limits.maxCells)
      || (deltaBytes > 0 && sheet.dataBytes + deltaBytes > limits.maxBytes)
  {
    SheetDeltas(d.tabs, t, writes, revision);
  }
}
