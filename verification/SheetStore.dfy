/**
 The store's data as plain values, and the relation `Represents` between that data and the
 ideal documents of `SheetDoc`. Each lemma takes one mutation the store performs and
 shows which document it leads to. All sheets share one worksheet list and one string-keyed
 cell map, so every lemma also shows that the other sheets keep their documents.
 */
module SheetStore {
  import opened Wrappers
  import opened SheetKeys
  import opened SheetDoc

  datatype Sheet = Sheet(name: string, status: string, revision: nat, cellCount: int, dataBytes: int,
                         createdBy: nat, deletedAt: Option<nat>, source: Option<Source>)

  datatype Worksheet = Worksheet(id: nat, sheetId: nat, key: string, name: Name, position: nat,
                                 rows: nat, columns: nat, layout: Layout)

  datatype Store = Store(sheets: map<nat, Sheet>, worksheets: seq<Worksheet>, cells: map<string, Stored>,
                         nextSheetId: nat, nextWorksheetId: nat)

  /** `worksheets.filter((w) => w.sheet_id === sheetId)`. */
  function Own(worksheets: seq<Worksheet>, sheetId: nat): seq<Worksheet> {
    if worksheets == [] then []
    else
      var n := |worksheets| - 1;
      Own(worksheets[..n], sheetId) + (if worksheets[n].sheetId == sheetId then [worksheets[n]] else [])
  }

  /** The ways an existing worksheet record changes. */
  datatype Edit =
    | Shift(sheetId: nat, from: nat)
    | Rename(id: nat, name: Name)
    | Relayout(id: nat, layout: Layout)

  function ApplyEdit(e: Edit, w: Worksheet): Worksheet {
    match e
    case Shift(sheetId, from) =>
      if w.sheetId == sheetId && w.position >= from then w.(position := w.position + 1) else w
    case Rename(id, name) => if w.id == id then w.(name := name) else w
    case Relayout(id, layout) => if w.id == id then w.(layout := layout) else w
  }

  function EditAll(worksheets: seq<Worksheet>, e: Edit): (r: seq<Worksheet>)
    ensures |r| == |worksheets| && forall i :: 0 <= i < |r| ==> r[i] == ApplyEdit(e, worksheets[i])
  {
    seq(|worksheets|, i requires 0 <= i < |worksheets| => ApplyEdit(e, worksheets[i]))
  }

  // ----- The relation

  ghost predicate RecordMatches(sheet: Sheet, d: Doc) {
    && sheet.name == d.name && sheet.status == d.status && sheet.revision == d.revision
    && sheet.createdBy == d.createdBy && sheet.deletedAt == d.deletedAt && sheet.source == d.source
  }

  ghost predicate CellsMatch(id: nat, grid: map<Pos, Stored>, cells: map<string, Stored>) {
    && (forall p :: p in grid <==> CellKey(id, p) in cells)
    && (forall p :: p in grid ==> cells[CellKey(id, p)] == grid[p])
  }

  ghost predicate TabMatches(w: Worksheet, tab: Tab, cells: map<string, Stored>) {
    && w.key == tab.key && w.name == tab.name
    && w.rows == tab.rows && w.columns == tab.columns && w.layout == tab.layout
    && CellsMatch(w.id, tab.cells, cells)
  }

  ghost predicate Occupied(own: seq<Worksheet>, p: nat) {
    exists i :: 0 <= i < |own| && own[i].position == p
  }

  /** The stored positions are exactly 0..n-1, each used once. */
  ghost predicate PositionsPermute(own: seq<Worksheet>) {
    && (forall i :: 0 <= i < |own| ==> own[i].position < |own|)
    && (forall i, j :: 0 <= i < j < |own| ==> own[i].position != own[j].position)
    && (forall p :: 0 <= p < |own| ==> Occupied(own, p))
  }

  /** The worksheet at position p shows what tab p holds. */
  ghost predicate TabsMatch(own: seq<Worksheet>, tabs: seq<Tab>, cells: map<string, Stored>) {
    && |own| == |tabs|
    && PositionsPermute(own)
    && forall i :: 0 <= i < |own| ==> TabMatches(own[i], tabs[own[i].position], cells)
  }

  ghost predicate KeysDistinct(tabs: seq<Tab>) {
    forall i, j :: 0 <= i < j < |tabs| ==> tabs[i].key != tabs[j].key
  }

  ghost predicate KeyShape(key: string, bound: nat) {
    exists id: nat, p :: id < bound && key == CellKey(id, p)
  }

  /** Worksheet ids identify worksheets, and every cell key belongs to an id already given out. */
  ghost predicate IdsValid(st: Store) {
    && (forall w :: w in st.worksheets ==> w.id < st.nextWorksheetId && w.sheetId < st.nextSheetId)
    && (forall v, w :: v in st.worksheets && w in st.worksheets && v.id == w.id ==> v == w)
    && (forall k :: k in st.cells ==> KeyShape(k, st.nextWorksheetId))
  }

  ghost predicate SheetMatches(st: Store, s: nat, d: Doc) {
    && s < st.nextSheetId
    && s in st.sheets
    && RecordMatches(st.sheets[s], d)
    && TabsMatch(Own(st.worksheets, s), d.tabs, st.cells)
    && KeysDistinct(d.tabs)
  }

  /** Everything but the cached counters. */
  ghost predicate Shape(st: Store, docs: map<nat, Doc>) {
    && st.sheets.Keys == docs.Keys
    && IdsValid(st)
    && forall s :: s in docs ==> SheetMatches(st, s, docs[s])
  }

  /** `cell_count` and `data_bytes` agree with what they count. */
  ghost predicate CountsMatch(sheet: Sheet, d: Doc) {
    && sheet.cellCount == CountCells(d.tabs)
    && sheet.dataBytes == CountBytes(d.tabs)
  }

  ghost predicate Represents(st: Store, docs: map<nat, Doc>) {
    && Shape(st, docs)
    && forall s :: s in docs ==> CountsMatch(st.sheets[s], docs[s])
  }

  lemma OneDocChanges(st: Store, docs: map<nat, Doc>, s: nat, d: Doc)
    requires st.sheets.Keys == docs.Keys + {s} && IdsValid(st) && SheetMatches(st, s, d)
    requires forall r :: r in docs && r != s ==> SheetMatches(st, r, docs[r])
    ensures Shape(st, docs[s := d])
  {
  }

  lemma ShapeRecord(st: Store, docs: map<nat, Doc>, s: nat)
    requires Shape(st, docs) && s in docs
    ensures s < st.nextSheetId && s in st.sheets && RecordMatches(st.sheets[s], docs[s])
  {
    assert SheetMatches(st, s, docs[s]);
  }

  lemma RepresentsRecord(st: Store, docs: map<nat, Doc>, s: nat)
    requires Represents(st, docs)
    ensures s in docs <==> s in st.sheets
    ensures s in docs ==> RecordMatches(st.sheets[s], docs[s]) && CountsMatch(st.sheets[s], docs[s])
  {
    if s in docs {
      ShapeRecord(st, docs, s);
    }
  }

  lemma SheetRecords(st: Store, docs: map<nat, Doc>)
    requires Represents(st, docs)
    ensures forall r :: r in docs ==> r in st.sheets && CountsMatch(st.sheets[r], docs[r])
  {
  }

  // ----- Filtering

  lemma {:induction false} OwnElements(worksheets: seq<Worksheet>, s: nat, w: Worksheet)
    ensures w in Own(worksheets, s) <==> w in worksheets && w.sheetId == s
  {
    if worksheets != [] {
      var n := |worksheets| - 1;
      OwnElements(worksheets[..n], s, w);
      assert worksheets == worksheets[..n] + [worksheets[n]];
    }
  }

  lemma {:induction false} OwnNone(worksheets: seq<Worksheet>, s: nat)
    requires forall w :: w in worksheets ==> w.sheetId != s
    ensures Own(worksheets, s) == []
  {
    if worksheets != [] {
      OwnNone(worksheets[..|worksheets| - 1], s);
    }
  }

  lemma OwnElementsAll(worksheets: seq<Worksheet>, s: nat)
    ensures forall w :: w in Own(worksheets, s) <==> w in worksheets && w.sheetId == s
  {
    forall w ensures w in Own(worksheets, s) <==> w in worksheets && w.sheetId == s {
      OwnElements(worksheets, s, w);
    }
  }

  lemma {:induction false} OwnEdit(worksheets: seq<Worksheet>, e: Edit, s: nat)
    ensures Own(EditAll(worksheets, e), s) == EditAll(Own(worksheets, s), e)
  {
    if worksheets != [] {
      var n := |worksheets| - 1;
      OwnEdit(worksheets[..n], e, s);
      assert EditAll(worksheets, e)[..n] == EditAll(worksheets[..n], e);
    }
  }

  lemma OwnPush(worksheets: seq<Worksheet>, w: Worksheet, s: nat)
    ensures Own(worksheets + [w], s) == Own(worksheets, s) + (if w.sheetId == s then [w] else [])
  {
    assert (worksheets + [w])[..|worksheets|] == worksheets;
  }

  // ----- Searching

  lemma FindTabUnique(tabs: seq<Tab>, key: string, t: nat)
    requires KeysDistinct(tabs) && t < |tabs| && tabs[t].key == key
    ensures FindTab(tabs, key) == Some(t)
  {
  }

  lemma OwnerOf(own: seq<Worksheet>, tabs: seq<Tab>, cells: map<string, Stored>, t: nat) returns (w: Worksheet)
    requires TabsMatch(own, tabs, cells) && t < |tabs|
    ensures w in own && w.position == t && TabMatches(w, tabs[t], cells)
  {
    assert Occupied(own, t);
    var i :| 0 <= i < |own| && own[i].position == t;
    w := own[i];
  }

  /** `own.find((w) => w.ws_key === key)`. */
  function FindByKey(own: seq<Worksheet>, key: string): (r: Option<Worksheet>)
    ensures r.Some? ==> r.value in own && r.value.key == key
    ensures r.None? ==> forall w :: w in own ==> w.key != key
  {
    if own == [] then None else if own[0].key == key then Some(own[0]) else FindByKey(own[1..], key)
  }

  /** Searching the list by key finds the worksheet that stands for the tab with that key. */
  lemma FindAgrees(own: seq<Worksheet>, tabs: seq<Tab>, cells: map<string, Stored>, key: string)
    requires TabsMatch(own, tabs, cells) && KeysDistinct(tabs)
    ensures FindByKey(own, key).None? <==> FindTab(tabs, key).None?
    ensures FindByKey(own, key).Some? ==> FindTab(tabs, key) == Some(FindByKey(own, key).value.position)
  {
    match FindByKey(own, key)
    case Some(w) =>
      var i :| 0 <= i < |own| && own[i] == w;
      FindTabUnique(tabs, key, w.position);
    case None =>
      if FindTab(tabs, key).Some? {
        var w := OwnerOf(own, tabs, cells, FindTab(tabs, key).value);
      }
  }

  /** `own.some((w) => w.id !== except && w.name.toLowerCase() === name.toLowerCase())`. */
  predicate NameInUse(own: seq<Worksheet>, name: Name, except: Option<nat>) {
    exists w :: w in own && except != Some(w.id) && w.name.lower == name.lower
  }

  lemma NameInUseAgrees(own: seq<Worksheet>, tabs: seq<Tab>, cells: map<string, Stored>, name: Name,
                        except: Option<Worksheet>)
    requires TabsMatch(own, tabs, cells)
    requires forall v, w :: v in own && w in own && v.id == w.id ==> v == w
    requires except.Some? ==> except.value in own
    ensures NameInUse(own, name, if except.Some? then Some(except.value.id) else None)
            <==> NameTaken(tabs, name, if except.Some? then except.value.position else -1)
  {
    var id := if except.Some? then Some(except.value.id) else None;
    var t := if except.Some? then except.value.position else -1;
    if NameInUse(own, name, id) {
      var w :| w in own && id != Some(w.id) && w.name.lower == name.lower;
      var i :| 0 <= i < |own| && own[i] == w;
      assert tabs[w.position].name == w.name;
    }
    if NameTaken(tabs, name, t) {
      var p :| 0 <= p < |tabs| && p != t && tabs[p].name.lower == name.lower;
      var w := OwnerOf(own, tabs, cells, p);
    }
  }

  // ----- One cell

  lemma OtherTabKeeps(id: nat, grid: map<Pos, Stored>, cells: map<string, Stored>, target: nat, pos: Pos,
                      value: Option<Stored>)
    requires id != target && CellsMatch(id, grid, cells)
    ensures CellsMatch(id, grid, Assign(cells, CellKey(target, pos), value))
  {
    forall p ensures CellKey(id, p) != CellKey(target, pos) {
      CellKeyInjective(id, p, target, pos);
    }
  }

  lemma TargetTabGains(id: nat, grid: map<Pos, Stored>, cells: map<string, Stored>, pos: Pos, value: Option<Stored>)
    requires CellsMatch(id, grid, cells)
    ensures CellsMatch(id, Assign(grid, pos, value), Assign(cells, CellKey(id, pos), value))
  {
    forall p ensures CellKey(id, p) == CellKey(id, pos) <==> p == pos {
      CellKeyInjective(id, p, id, pos);
    }
  }

  function WithCells(d: Doc, t: nat, cells: map<Pos, Stored>): Doc
    requires t < |d.tabs|
  {
    d.(tabs := d.tabs[t := d.tabs[t].(cells := cells)])
  }

  /** Setting or deleting one string key changes one cell of one tab of one sheet, and nothing else. */
  lemma AssignRefines(st: Store, docs: map<nat, Doc>, w: Worksheet, pos: Pos, value: Option<Stored>)
    requires Shape(st, docs)
    requires w in st.worksheets && w.sheetId in docs && w.position < |docs[w.sheetId].tabs|
    ensures
      var d, t := docs[w.sheetId], w.position;
      Shape(st.(cells := Assign(st.cells, CellKey(w.id, pos), value)),
            docs[w.sheetId := WithCells(d, t, Assign(d.tabs[t].cells, pos, value))])
  {
    hide SheetMatches, IdsValid;
    TargetSheetGains(st, docs[w.sheetId], w, pos, value);
    forall r | r in docs && r != w.sheetId
      ensures SheetMatches(st.(cells := Assign(st.cells, CellKey(w.id, pos), value)), r, docs[r])
    {
      OthersKeepCells(st, r, docs[r], w, pos, value);
    }
    AssignIds(st, w, pos, value);
    OneDocChanges(st.(cells := Assign(st.cells, CellKey(w.id, pos), value)), docs, w.sheetId,
                  WithCells(docs[w.sheetId], w.position, Assign(docs[w.sheetId].tabs[w.position].cells, pos, value)));
  }

  lemma AssignIds(st: Store, w: Worksheet, pos: Pos, value: Option<Stored>)
    requires IdsValid(st) && w in st.worksheets
    ensures IdsValid(st.(cells := Assign(st.cells, CellKey(w.id, pos), value)))
  {
  }

  lemma TargetSheetGains(st: Store, d: Doc, w: Worksheet, pos: Pos, value: Option<Stored>)
    requires IdsValid(st) && SheetMatches(st, w.sheetId, d) && w in st.worksheets && w.position < |d.tabs|
    ensures SheetMatches(st.(cells := Assign(st.cells, CellKey(w.id, pos), value)), w.sheetId,
                         WithCells(d, w.position, Assign(d.tabs[w.position].cells, pos, value)))
  {
    OwnElementsAll(st.worksheets, w.sheetId);
    var own := Own(st.worksheets, w.sheetId);
    var d' := WithCells(d, w.position, Assign(d.tabs[w.position].cells, pos, value));
    forall i | 0 <= i < |own|
      ensures TabMatches(own[i], d'.tabs[own[i].position], Assign(st.cells, CellKey(w.id, pos), value))
    {
      assert own[i] in own;
      if own[i] == w {
        TargetTabGains(w.id, d.tabs[w.position].cells, st.cells, pos, value);
      } else {
        var k :| 0 <= k < |own| && own[k] == w;
        OtherTabKeeps(own[i].id, d.tabs[own[i].position].cells, st.cells, w.id, pos, value);
      }
    }
  }

  lemma OthersKeepCells(st: Store, r: nat, d: Doc, w: Worksheet, pos: Pos, value: Option<Stored>)
    requires IdsValid(st) && SheetMatches(st, r, d) && w in st.worksheets && w.sheetId != r
    ensures SheetMatches(st.(cells := Assign(st.cells, CellKey(w.id, pos), value)), r, d)
  {
    OwnElementsAll(st.worksheets, r);
    var own := Own(st.worksheets, r);
    forall i | 0 <= i < |own|
      ensures TabMatches(own[i], d.tabs[own[i].position], Assign(st.cells, CellKey(w.id, pos), value))
    {
      assert own[i] in own;
      OtherTabKeeps(own[i].id, d.tabs[own[i].position].cells, st.cells, w.id, pos, value);
    }
  }

  /** One more cell of a loop over cells: the document so far gains this cell. */
  lemma AssignStep(st: Store, docs: map<nat, Doc>, d: Doc, w: Worksheet, grid: map<Pos, Stored>, pos: Pos,
                   value: Option<Stored>)
    requires w in st.worksheets && w.position < |d.tabs|
    requires Shape(st, docs[w.sheetId := WithCells(d, w.position, grid)])
    ensures Shape(st.(cells := Assign(st.cells, CellKey(w.id, pos), value)),
                  docs[w.sheetId := WithCells(d, w.position, Assign(grid, pos, value))])
  {
    hide Shape;
    var docs' := docs[w.sheetId := WithCells(d, w.position, grid)];
    AssignRefines(st, docs', w, pos, value);
    var d' := docs'[w.sheetId];
    assert WithCells(d', w.position, Assign(grid, pos, value)) == WithCells(d, w.position, Assign(grid, pos, value));
    assert docs'[w.sheetId := WithCells(d, w.position, Assign(grid, pos, value))]
        == docs[w.sheetId := WithCells(d, w.position, Assign(grid, pos, value))];
  }

  // ----- Worksheet records

  /** Replacing worksheet `id`'s name or layout, seen from the sheet that owns it. */
  function WithTab(d: Doc, t: nat, e: Edit): Doc
    requires t < |d.tabs|
  {
    match e
    case Rename(_, name) => d.(tabs := d.tabs[t := d.tabs[t].(name := name)])
    case Relayout(_, layout) => d.(tabs := d.tabs[t := d.tabs[t].(layout := layout)])
    case Shift(_, _) => d
  }

  lemma EditIds(st: Store, e: Edit)
    requires IdsValid(st)
    ensures IdsValid(st.(worksheets := EditAll(st.worksheets, e)))
  {
    var after := EditAll(st.worksheets, e);
    forall i | 0 <= i < |after| ensures after[i].id == st.worksheets[i].id && st.worksheets[i] in st.worksheets {
    }
  }

  /** Renaming or re-laying-out one worksheet record changes that tab only. */
  lemma EditRefines(st: Store, docs: map<nat, Doc>, w: Worksheet, e: Edit)
    requires Shape(st, docs)
    requires w in st.worksheets && w.sheetId in docs && w.position < |docs[w.sheetId].tabs|
    requires (e.Rename? || e.Relayout?) && e.id == w.id
    ensures Shape(st.(worksheets := EditAll(st.worksheets, e)),
                  docs[w.sheetId := WithTab(docs[w.sheetId], w.position, e)])
  {
    hide SheetMatches, IdsValid;
    var st' := st.(worksheets := EditAll(st.worksheets, e));
    EditIds(st, e);
    forall r | r in docs
      ensures SheetMatches(st', r, if r == w.sheetId then WithTab(docs[r], w.position, e) else docs[r])
    {
      EditSheet(st, docs[r], r, w, e);
    }
    OneDocChanges(st', docs, w.sheetId, WithTab(docs[w.sheetId], w.position, e));
  }

  lemma EditSheet(st: Store, d: Doc, r: nat, w: Worksheet, e: Edit)
    requires IdsValid(st) && SheetMatches(st, r, d) && w in st.worksheets
    requires r == w.sheetId ==> w.position < |d.tabs|
    requires (e.Rename? || e.Relayout?) && e.id == w.id
    ensures SheetMatches(st.(worksheets := EditAll(st.worksheets, e)), r,
                         if r == w.sheetId then WithTab(d, w.position, e) else d)
  {
    hide TabsMatch, Own, IdsValid;
    OwnElementsAll(st.worksheets, r);
    OwnEdit(st.worksheets, e, r);
    var own := Own(st.worksheets, r);
    SameIdSameWorksheet(st, w);
    if r == w.sheetId {
      EditOwner(own, d, st.cells, w, e);
    } else {
      assert EditAll(own, e) == own;
    }
  }

  lemma SameIdSameWorksheet(st: Store, w: Worksheet)
    requires IdsValid(st) && w in st.worksheets
    ensures forall v :: v in st.worksheets && v.id == w.id ==> v == w
  {
  }

  lemma EditOwner(own: seq<Worksheet>, d: Doc, cells: map<string, Stored>, w: Worksheet, e: Edit)
    requires TabsMatch(own, d.tabs, cells) && w in own && w.position < |d.tabs|
    requires forall v :: v in own && v.id == w.id ==> v == w
    requires (e.Rename? || e.Relayout?) && e.id == w.id
    ensures TabsMatch(EditAll(own, e), WithTab(d, w.position, e).tabs, cells)
  {
    hide TabMatches, Occupied;
    var after, tabs := EditAll(own, e), WithTab(d, w.position, e).tabs;
    forall i | 0 <= i < |own| ensures TabMatches(after[i], tabs[after[i].position], cells) {
      assert own[i] in own;
      if own[i] == w {
        EditTab(w, d, cells, e);
      } else {
        var k :| 0 <= k < |own| && own[k] == w;
      }
    }
    PositionsAfter(own, after);
  }

  lemma EditTab(w: Worksheet, d: Doc, cells: map<string, Stored>, e: Edit)
    requires w.position < |d.tabs| && TabMatches(w, d.tabs[w.position], cells)
    requires (e.Rename? || e.Relayout?) && e.id == w.id
    ensures TabMatches(ApplyEdit(e, w), WithTab(d, w.position, e).tabs[w.position], cells)
  {
    hide CellsMatch;
  }

  lemma PositionsAfter(own: seq<Worksheet>, after: seq<Worksheet>)
    requires PositionsPermute(own) && |after| == |own|
    requires forall i :: 0 <= i < |own| ==> after[i].position == own[i].position
    ensures PositionsPermute(after)
  {
    forall p | 0 <= p < |after| ensures Occupied(after, p) {
      assert Occupied(own, p);
      var i :| 0 <= i < |own| && own[i].position == p;
      assert after[i].position == p;
    }
  }

  /** The tab a freshly pushed worksheet record stands for. */
  function EmptyTab(w: Worksheet): Tab {
    Tab(w.key, w.name, w.rows, w.columns, w.layout, map[])
  }

  function WithNewTab(d: Doc, w: Worksheet): Doc
    requires w.position <= |d.tabs|
  {
    d.(tabs := InsertAt(d.tabs, w.position, EmptyTab(w)))
  }

  /** `own.forEach((w) => { if (w.position >= position) w.position += 1; })`, then `worksheets.push(...)`. */
  function Pushed(st: Store, w: Worksheet): Store {
    st.(worksheets := EditAll(st.worksheets, Shift(w.sheetId, w.position)) + [w],
        nextWorksheetId := st.nextWorksheetId + 1)
  }

  /** Shifting the later positions and pushing at the end of the list is insertion into the display order. */
  lemma InsertRefines(st: Store, docs: map<nat, Doc>, w: Worksheet)
    requires Shape(st, docs)
    requires w.id == st.nextWorksheetId && w.sheetId in docs && w.position <= |docs[w.sheetId].tabs|
    requires forall i :: 0 <= i < |docs[w.sheetId].tabs| ==> docs[w.sheetId].tabs[i].key != w.key
    ensures Shape(Pushed(st, w), docs[w.sheetId := WithNewTab(docs[w.sheetId], w)])
  {
    hide SheetMatches, IdsValid, EditAll, InsertAt;
    ShapeRecord(st, docs, w.sheetId);
    InsertIds(st, w);
    InsertIntoOwner(st, docs[w.sheetId], w);
    forall r | r in docs && r != w.sheetId ensures SheetMatches(Pushed(st, w), r, docs[r]) {
      InsertElsewhere(st, docs[r], r, w);
    }
    OneDocChanges(Pushed(st, w), docs, w.sheetId, WithNewTab(docs[w.sheetId], w));
  }

  lemma InsertIntoOwner(st: Store, d: Doc, w: Worksheet)
    requires IdsValid(st) && SheetMatches(st, w.sheetId, d)
    requires w.id == st.nextWorksheetId && w.position <= |d.tabs|
    requires forall i :: 0 <= i < |d.tabs| ==> d.tabs[i].key != w.key
    ensures SheetMatches(Pushed(st, w), w.sheetId, WithNewTab(d, w))
  {
    var e := Shift(w.sheetId, w.position);
    OwnEdit(st.worksheets, e, w.sheetId);
    OwnPush(EditAll(st.worksheets, e), w, w.sheetId);
    OwnElementsAll(st.worksheets, w.sheetId);
    InsertTabs(Own(st.worksheets, w.sheetId), d.tabs, st, w);
    InsertKeys(d.tabs, w.position, EmptyTab(w));
  }

  lemma InsertElsewhere(st: Store, d: Doc, r: nat, w: Worksheet)
    requires SheetMatches(st, r, d) && r != w.sheetId
    ensures SheetMatches(Pushed(st, w), r, d)
  {
    var e := Shift(w.sheetId, w.position);
    OwnEdit(st.worksheets, e, r);
    OwnPush(EditAll(st.worksheets, e), w, r);
    OwnElementsAll(st.worksheets, r);
    var own := Own(st.worksheets, r);
    forall i | 0 <= i < |own| ensures EditAll(own, e)[i] == own[i] {
      assert own[i] in own;
    }
    assert EditAll(own, e) + [] == own;
    assert Own(Pushed(st, w).worksheets, r) == own;
  }

  lemma InsertIds(st: Store, w: Worksheet)
    requires IdsValid(st) && w.id == st.nextWorksheetId && w.sheetId < st.nextSheetId
    ensures IdsValid(st.(worksheets := EditAll(st.worksheets, Shift(w.sheetId, w.position)) + [w],
                         nextWorksheetId := st.nextWorksheetId + 1))
  {
    var e := Shift(w.sheetId, w.position);
    EditIds(st, e);
    forall k | k in st.cells ensures KeyShape(k, st.nextWorksheetId + 1) {
      assert KeyShape(k, st.nextWorksheetId);
      var id: nat, p :| id < st.nextWorksheetId && k == CellKey(id, p);
      assert id < st.nextWorksheetId + 1;
    }
  }

  lemma FreshHasNoCells(st: Store, id: nat)
    requires IdsValid(st) && id >= st.nextWorksheetId
    ensures CellsMatch(id, map[], st.cells)
  {
    forall p ensures CellKey(id, p) !in st.cells {
      if CellKey(id, p) in st.cells {
        assert KeyShape(CellKey(id, p), st.nextWorksheetId);
        var id': nat, p' :| id' < st.nextWorksheetId && CellKey(id, p) == CellKey(id', p');
        CellKeyInjective(id, p, id', p');
      }
    }
  }

  lemma InsertKeys(tabs: seq<Tab>, t: nat, tab: Tab)
    requires KeysDistinct(tabs) && t <= |tabs|
    requires forall i :: 0 <= i < |tabs| ==> tabs[i].key != tab.key
    ensures KeysDistinct(InsertAt(tabs, t, tab))
  {
  }

  lemma InsertTabs(own: seq<Worksheet>, tabs: seq<Tab>, st: Store, w: Worksheet)
    requires IdsValid(st) && TabsMatch(own, tabs, st.cells)
    requires w.id == st.nextWorksheetId && w.position <= |tabs|
    requires forall i :: 0 <= i < |own| ==> own[i].sheetId == w.sheetId
    ensures TabsMatch(EditAll(own, Shift(w.sheetId, w.position)) + [w], InsertAt(tabs, w.position, EmptyTab(w)),
                      st.cells)
  {
    var shifted := EditAll(own, Shift(w.sheetId, w.position));
    var tabs' := InsertAt(tabs, w.position, EmptyTab(w));
    FreshHasNoCells(st, w.id);
    InsertPositions(own, w);
    forall i | 0 <= i < |own| ensures TabMatches(shifted[i], tabs'[shifted[i].position], st.cells) {
      assert TabMatches(own[i], tabs[own[i].position], st.cells);
      assert tabs'[shifted[i].position] == tabs[own[i].position];
    }
    assert TabMatches(w, tabs'[w.position], st.cells);
  }

  /** Positions stay exactly 0..n-1 when the later ones move up by one and the new one takes the gap. */
  lemma InsertPositions(own: seq<Worksheet>, w: Worksheet)
    requires PositionsPermute(own) && w.position <= |own|
    requires forall i :: 0 <= i < |own| ==> own[i].sheetId == w.sheetId
    ensures PositionsPermute(EditAll(own, Shift(w.sheetId, w.position)) + [w])
  {
    var after := EditAll(own, Shift(w.sheetId, w.position)) + [w];
    forall p | 0 <= p < |after| ensures Occupied(after, p) {
      if p == w.position {
        assert after[|own|].position == p;
      } else {
        var q := if p < w.position then p else p - 1;
        assert Occupied(own, q);
        var i :| 0 <= i < |own| && own[i].position == q;
        assert after[i].position == p;
      }
    }
  }

  /** Pushing at the end of the display order: nothing has to move. */
  lemma AppendRefines(st: Store, docs: map<nat, Doc>, w: Worksheet)
    requires Shape(st, docs)
    requires w.id == st.nextWorksheetId && w.sheetId in docs && w.position == |docs[w.sheetId].tabs|
    requires forall i :: 0 <= i < |docs[w.sheetId].tabs| ==> docs[w.sheetId].tabs[i].key != w.key
    ensures Shape(st.(worksheets := st.worksheets + [w], nextWorksheetId := st.nextWorksheetId + 1),
                  docs[w.sheetId := docs[w.sheetId].(tabs := docs[w.sheetId].tabs + [EmptyTab(w)])])
  {
    hide Shape, EditAll, InsertAt;
    var d := docs[w.sheetId];
    NothingToShift(st, docs, w.sheetId);
    InsertAtEnd(d.tabs, EmptyTab(w));
    InsertRefines(st, docs, w);
  }

  lemma InsertAtEnd(tabs: seq<Tab>, tab: Tab)
    ensures InsertAt(tabs, |tabs|, tab) == tabs + [tab]
  {
  }

  lemma NothingToShift(st: Store, docs: map<nat, Doc>, s: nat)
    requires Shape(st, docs) && s in docs
    ensures EditAll(st.worksheets, Shift(s, |docs[s].tabs|)) == st.worksheets
  {
    assert SheetMatches(st, s, docs[s]);
    hide IdsValid, CellsMatch, Own;
    OwnElementsAll(st.worksheets, s);
    var own, e := Own(st.worksheets, s), Shift(s, |docs[s].tabs|);
    forall i | 0 <= i < |st.worksheets| ensures ApplyEdit(e, st.worksheets[i]) == st.worksheets[i] {
      assert st.worksheets[i] in own ==> exists k :: 0 <= k < |own| && own[k] == st.worksheets[i];
    }
    assert EditAll(st.worksheets, e) == st.worksheets;
  }

  // ----- Sheet records

  function WithSheet(st: Store, sheet: Sheet): Store {
    st.(sheets := st.sheets[st.nextSheetId := sheet], nextSheetId := st.nextSheetId + 1)
  }

  /** A new sheet record stands for a document without worksheets. */
  lemma NewSheetRefines(st: Store, docs: map<nat, Doc>, sheet: Sheet, d: Doc)
    requires Shape(st, docs) && RecordMatches(sheet, d) && d.tabs == []
    ensures Shape(WithSheet(st, sheet), docs[st.nextSheetId := d])
    ensures st.nextSheetId !in docs
  {
    var id := st.nextSheetId;
    assert id in docs ==> SheetMatches(st, id, docs[id]);
    OwnNone(st.worksheets, id);
    assert SheetMatches(WithSheet(st, sheet), id, d);
    forall r | r in docs ensures SheetMatches(WithSheet(st, sheet), r, docs[r]) {
      assert SheetMatches(st, r, docs[r]);
    }
    assert IdsValid(WithSheet(st, sheet));
  }

  lemma IdsOfSheets(st: Store, sheets: map<nat, Sheet>)
    requires IdsValid(st)
    ensures IdsValid(st.(sheets := sheets))
  {
  }

  /** Changing one sheet record changes the record of that document. */
  lemma RecordRefines(st: Store, docs: map<nat, Doc>, s: nat, sheet: Sheet, d: Doc)
    requires Shape(st, docs) && s in docs && RecordMatches(sheet, d) && d.tabs == docs[s].tabs
    ensures Shape(st.(sheets := st.sheets[s := sheet]), docs[s := d])
  {
    hide TabsMatch, IdsValid, KeysDistinct;
    var st' := st.(sheets := st.sheets[s := sheet]);
    IdsOfSheets(st, st'.sheets);
    assert SheetMatches(st, s, docs[s]);
    forall r | r in docs && r != s ensures SheetMatches(st', r, docs[r]) {
      assert SheetMatches(st, r, docs[r]);
    }
    OneDocChanges(st', docs, s, d);
  }

  lemma RecordRepresents(st: Store, docs: map<nat, Doc>, s: nat, sheet: Sheet, d: Doc)
    requires Represents(st, docs) && s in docs && RecordMatches(sheet, d) && d.tabs == docs[s].tabs
    requires sheet.cellCount == st.sheets[s].cellCount && sheet.dataBytes == st.sheets[s].dataBytes
    ensures Represents(st.(sheets := st.sheets[s := sheet]), docs[s := d])
  {
    hide Shape;
    RecordRefines(st, docs, s, sheet, d);
    SheetRecords(st, docs);
    forall r | r in docs ensures CountsMatch(st.sheets[s := sheet][r], docs[s := d][r]) {
      assert CountsMatch(st.sheets[r], docs[r]);
    }
  }
}
