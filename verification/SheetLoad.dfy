/** `loadWorkbook`: filter, sort by position, and one prefix scan of the cell map per worksheet. */
module SheetLoad {
  import opened Wrappers
  import opened SheetKeys
  import opened SheetDoc
  import opened SheetStore

  datatype LoadedCell = LoadedCell(r: nat, c: nat, cell: Cell)

  datatype LoadedTab = LoadedTab(id: nat, key: string, name: Name, position: nat, rowCount: nat, columnCount: nat,
                                 layout: Layout, cells: set<LoadedCell>)

  datatype LoadResult = NoSuchSheet | WorkbookTooLarge | Workbook(sheet: Sheet, worksheets: seq<LoadedTab>)

  /** The entries whose key starts with the worksheet's prefix, with `split(":")` and `Number` applied to the key. */
  function ScanCells(cells: map<string, Stored>, id: nat): set<LoadedCell> {
    set k | k in cells && StartsWith(k, ScanPrefix(id)) :: LoadedCell(DecodePos(k).r, DecodePos(k).c, cells[k].cell)
  }

  function LoadTab(w: Worksheet, cells: map<string, Stored>): LoadedTab {
    LoadedTab(w.id, w.key, w.name, w.position, w.rows, w.columns, w.layout, ScanCells(cells, w.id))
  }

  function LoadTabs(own: seq<Worksheet>, cells: map<string, Stored>): (r: seq<LoadedTab>)
    ensures |r| == |own| && forall i :: 0 <= i < |own| ==> r[i] == LoadTab(own[i], cells)
  {
    seq(|own|, i requires 0 <= i < |own| => LoadTab(own[i], cells))
  }

  function InsertSorted(w: Worksheet, sorted: seq<Worksheet>): seq<Worksheet> {
    if sorted == [] || sorted[|sorted| - 1].position <= w.position then sorted + [w]
    else InsertSorted(w, sorted[..|sorted| - 1]) + [sorted[|sorted| - 1]]
  }

  /** `sort((a, b) => a.position - b.position)`. */
  function SortByPosition(own: seq<Worksheet>): seq<Worksheet> {
    if own == [] then [] else InsertSorted(own[|own| - 1], SortByPosition(own[..|own| - 1]))
  }

  ghost predicate Ascending(s: seq<Worksheet>) {
    forall i, j :: 0 <= i < j < |s| ==> s[i].position < s[j].position
  }

  lemma AscendingSnoc(s: seq<Worksheet>, w: Worksheet)
    requires Ascending(s) && forall v :: v in s ==> v.position < w.position
    ensures Ascending(s + [w])
  {
    forall i | 0 <= i < |s| ensures s[i].position < w.position {
      assert s[i] in s;
    }
  }

  lemma {:induction false} InsertSortedAscending(w: Worksheet, sorted: seq<Worksheet>)
    requires Ascending(sorted) && forall i :: 0 <= i < |sorted| ==> sorted[i].position != w.position
    ensures
      var r := InsertSorted(w, sorted);
      && Ascending(r) && |r| == |sorted| + 1
      && (forall v :: v in r <==> v in sorted || v == w)
  {
    if sorted != [] && sorted[|sorted| - 1].position > w.position {
      var n := |sorted| - 1;
      InsertSortedAscending(w, sorted[..n]);
      var init := InsertSorted(w, sorted[..n]);
      forall v | v in init ensures v.position < sorted[n].position {
        assert v == w || v in sorted[..n];
      }
      AscendingSnoc(init, sorted[n]);
      assert sorted == sorted[..n] + [sorted[n]];
    }
  }

  lemma {:induction false} SortAscending(own: seq<Worksheet>)
    requires forall i, j :: 0 <= i < j < |own| ==> own[i].position != own[j].position
    ensures
      var r := SortByPosition(own);
      && Ascending(r) && |r| == |own|
      && (forall v :: v in r <==> v in own)
  {
    if own != [] {
      var n := |own| - 1;
      SortAscending(own[..n]);
      var init := SortByPosition(own[..n]);
      forall i | 0 <= i < |init| ensures init[i].position != own[n].position {
        assert init[i] in init;
      }
      InsertSortedAscending(own[n], init);
      assert own == own[..n] + [own[n]];
    }
  }

  lemma {:induction false} AscendingAtLeast(s: seq<Worksheet>, i: nat)
    requires Ascending(s) && i < |s|
    ensures s[i].position >= i
  {
    if i > 0 {
      AscendingAtLeast(s, i - 1);
    }
  }

  lemma {:induction false} AscendingAtMost(s: seq<Worksheet>, i: nat)
    requires Ascending(s) && i < |s| && s[|s| - 1].position < |s|
    ensures s[i].position <= i
    decreases |s| - i
  {
    if i < |s| - 1 {
      AscendingAtMost(s, i + 1);
    }
  }

  /** Sorting a permutation of positions puts every worksheet at its own position. */
  lemma SortedIsDisplayOrder(own: seq<Worksheet>, p: nat)
    requires PositionsPermute(own) && p < |own|
    ensures
      var r := SortByPosition(own);
      |r| == |own| && r[p].position == p && r[p] in own
  {
    SortAscending(own);
    var r := SortByPosition(own);
    assert r[|r| - 1] in own && r[p] in own;
    AscendingAtLeast(r, p);
    AscendingAtMost(r, p);
  }

  function TabEntries(tab: Tab): set<LoadedCell> {
    set p | p in tab.cells :: LoadedCell(p.r, p.c, tab.cells[p].cell)
  }

  /** The prefix scan returns exactly the worksheet's cells, with their coordinates recovered from the keys. */
  lemma ScanExact(st: Store, w: Worksheet, tab: Tab)
    requires IdsValid(st) && TabMatches(w, tab, st.cells)
    ensures ScanCells(st.cells, w.id) == TabEntries(tab)
  {
    forall k | k in st.cells && StartsWith(k, ScanPrefix(w.id))
      ensures DecodePos(k) in tab.cells && tab.cells[DecodePos(k)] == st.cells[k]
    {
      var id: nat, p :| id < st.nextWorksheetId && k == CellKey(id, p);
      CellScan(w.id, id, p);
      CellKeyDecodes(id, p);
    }
    forall p | p in tab.cells
      ensures LoadedCell(p.r, p.c, tab.cells[p].cell) in ScanCells(st.cells, w.id)
    {
      var k := CellKey(w.id, p);
      CellScan(w.id, w.id, p);
      CellKeyDecodes(w.id, p);
      assert k in st.cells && StartsWith(k, ScanPrefix(w.id));
    }
  }

  /** A loaded worksheet shows exactly this tab, at this position. */
  ghost predicate Shows(t: LoadedTab, tab: Tab, p: nat) {
    && t.position == p && t.key == tab.key && t.name == tab.name
    && t.rowCount == tab.rows && t.columnCount == tab.columns && t.layout == tab.layout
    && t.cells == TabEntries(tab)
  }

  /** A loaded workbook shows exactly this document, in display order. */
  ghost predicate ShowsDoc(r: LoadResult, d: Doc) {
    && r.Workbook?
    && RecordMatches(r.sheet, d) && CountsMatch(r.sheet, d)
    && |r.worksheets| == |d.tabs|
    && forall p :: 0 <= p < |d.tabs| ==> Shows(r.worksheets[p], d.tabs[p], p)
  }

  function Load(st: Store, s: nat): LoadResult {
    if s !in st.sheets then NoSuchSheet
    else if st.sheets[s].cellCount > LIMITS.maxCells || st.sheets[s].dataBytes > LIMITS.maxBytes then WorkbookTooLarge
    else Workbook(st.sheets[s], LoadTabs(SortByPosition(Own(st.worksheets, s)), st.cells))
  }

  /** What a reader gets is the ideal document, or a refusal exactly when the document itself is over a limit. */
  lemma LoadShowsDoc(st: Store, docs: map<nat, Doc>, s: nat)
    requires Represents(st, docs)
    ensures Load(st, s).NoSuchSheet? <==> s !in docs
    ensures s in docs ==> (Load(st, s).WorkbookTooLarge? <==>
                           CountCells(docs[s].tabs) > LIMITS.maxCells || CountBytes(docs[s].tabs) > LIMITS.maxBytes)
    ensures Load(st, s).Workbook? ==> s in docs && ShowsDoc(Load(st, s), docs[s])
  {
    if s in docs && Load(st, s).Workbook? {
      var own := Own(st.worksheets, s);
      assert SheetMatches(st, s, docs[s]);
      if own != [] {
        SortedIsDisplayOrder(own, 0);
      }
      forall p | 0 <= p < |own| ensures Shows(Load(st, s).worksheets[p], docs[s].tabs[p], p) {
        SortedIsDisplayOrder(own, p);
        ScanExact(st, SortByPosition(own)[p], docs[s].tabs[p]);
      }
    }
  }

  lemma RecordDetermined(sheet: Sheet, sheet': Sheet, d: Doc)
    requires RecordMatches(sheet, d) && CountsMatch(sheet, d) && RecordMatches(sheet', d) && CountsMatch(sheet', d)
    ensures sheet == sheet'
  {
  }

  /** A sheet whose document and worksheet records are the same loads to the same result, worksheet ids included. */
  lemma LoadDetermined(st: Store, docs: map<nat, Doc>, st': Store, docs': map<nat, Doc>, s: nat)
    requires Represents(st, docs) && Represents(st', docs')
    requires s in docs && s in docs' && docs[s] == docs'[s] && Own(st.worksheets, s) == Own(st'.worksheets, s)
    ensures Load(st, s) == Load(st', s)
  {
    hide Represents, RecordMatches, CountsMatch, SortByPosition;
    RepresentsRecord(st, docs, s);
    RepresentsRecord(st', docs', s);
    RecordDetermined(st.sheets[s], st'.sheets[s], docs[s]);
    if Load(st, s).Workbook? {
      LoadShowsDoc(st, docs, s);
      LoadShowsDoc(st', docs', s);
      var a, b := Load(st, s).worksheets, Load(st', s).worksheets;
      assert |a| == |b|;
      forall p | 0 <= p < |a| ensures a[p] == b[p] {
        assert Shows(a[p], docs[s].tabs[p], p) && Shows(b[p], docs[s].tabs[p], p);
      }
    }
  }
}
