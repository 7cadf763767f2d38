/**
 The ideal spreadsheet. A `Doc` is what one user sees of one sheet: its record and
 its worksheets in display order, each with its cells. It has no cached counters, no
 stored positions, no worksheet ids and no string keys. `Execute` says what one operation
 does to it. `SheetStore` and `MemoryStore` show that the store computes exactly this.
 */
module SheetDoc {
  import opened Wrappers
  import opened SheetKeys

  const MAX_WORKSHEETS: nat := 50
  const DEFAULT_ROWS: nat := 1000
  const DEFAULT_COLUMNS: nat := 26

  /** The two growth limits. `store.limits` may override them; everything else uses the constants. */
  datatype Limits = Limits(maxCells: nat, maxBytes: nat)

  const LIMITS := Limits(200000, 25 * 1024 * 1024)

  /** A worksheet name together with its `toLowerCase()` image, whatever that function is. */
  datatype Name = Name(text: string, lower: string)

  /** A cell, as the UTF-8 bytes of its JSON text. */
  datatype Cell = Cell(json: seq<bv8>)

  function CellStorageBytes(cell: Cell): nat {
    |cell.json|
  }

  datatype Stored = Stored(cell: Cell, revision: nat, bytes: nat)

  /** One entry of `op.cells`; `None` clears the cell. */
  datatype Write = Write(pos: Pos, cell: Option<Cell>)

  type Sizes = map<string, int>

  /** `None` is an absent property: a worksheet starts with the layout `{}`. */
  datatype Layout = Layout(columnWidths: Option<Sizes>, rowHeights: Option<Sizes>)

  datatype Source = Source(fileName: string, filePath: string)

  datatype Tab = Tab(key: string, name: Name, rows: nat, columns: nat, layout: Layout, cells: map<Pos, Stored>)

  datatype Doc = Doc(name: string, status: string, revision: nat, createdBy: nat,
                     deletedAt: Option<nat>, source: Option<Source>, tabs: seq<Tab>)

  /** `Unknown` is any other `op.type`: no branch of the store assigns `apply` for it. */
  datatype Op =
    | Cells(ws: string, writes: seq<Write>)
    | AddWorksheet(ws: string, name: Name, index: Option<nat>)
    | RenameWorksheet(ws: string, name: Name)
    | SetLayout(ws: string, columnWidths: map<string, Option<int>>, rowHeights: map<string, Option<int>>)
    | Unknown

  datatype OpError =
    | DatabaseFailure
    | SheetNotWritable
    | WorksheetNotFound
    | InvalidCellCoordinate
    | SheetFull
    | TooManyWorksheets
    | WorksheetNameExists
    | ApplyIsNotAFunction

  datatype Outcome = Accepted(revision: nat) | Rejected(error: OpError)

  // ----- Cells of one worksheet

  /** `map.set(key, value)`, or `map.delete(key)` when there is no value. */
  function Assign<K, V>(m: map<K, V>, key: K, value: Option<V>): map<K, V> {
    if value.None? then m - {key} else m[key := value.value]
  }

  function StoredOf(w: Write, revision: nat): Option<Stored> {
    if w.cell.None? then None else Some(Stored(w.cell.value, revision, CellStorageBytes(w.cell.value)))
  }

  function Put(m: map<Pos, Stored>, w: Write, revision: nat): map<Pos, Stored> {
    Assign(m, w.pos, StoredOf(w, revision))
  }

  function WriteAll(m: map<Pos, Stored>, writes: seq<Write>, revision: nat): map<Pos, Stored> {
    if writes == [] then m
    else Put(WriteAll(m, writes[..|writes| - 1], revision), writes[|writes| - 1], revision)
  }

  /** Whole-cell replacement by repeated `set` and `delete`, one step further. */
  lemma WriteAllStep(m: map<Pos, Stored>, writes: seq<Write>, i: nat, revision: nat)
    requires i < |writes|
    ensures WriteAll(m, writes[..i + 1], revision) == Put(WriteAll(m, writes[..i], revision), writes[i], revision)
  {
    assert writes[..i + 1][..i] == writes[..i];
  }

  ghost predicate Touches(writes: seq<Write>, pos: Pos) {
    exists i :: 0 <= i < |writes| && writes[i].pos == pos
  }

  ghost predicate DistinctPositions(writes: seq<Write>) {
    forall i, j :: 0 <= i < j < |writes| ==> writes[i].pos != writes[j].pos
  }

  lemma {:induction false} WriteAllFrame(m: map<Pos, Stored>, writes: seq<Write>, revision: nat, pos: Pos)
    requires !Touches(writes, pos)
    ensures pos in WriteAll(m, writes, revision) <==> pos in m
    ensures pos in m ==> WriteAll(m, writes, revision)[pos] == m[pos]
  {
    if writes != [] {
      var init := writes[..|writes| - 1];
      forall i | 0 <= i < |init| ensures init[i].pos != pos {
        assert writes[i].pos != pos;
      }
      WriteAllFrame(m, init, revision, pos);
      assert writes[|writes| - 1].pos != pos;
    }
  }

  // ----- Size of a worksheet and of a whole sheet

  /** Total `bytes` over a set of cells. */
  ghost function BytesIn(m: map<Pos, Stored>): nat {
    if m == map[] then 0
    else
      var p :| p in m;
      m[p].bytes + BytesIn(m - {p})
  }

  lemma {:induction false} BytesRemove(m: map<Pos, Stored>, p: Pos)
    requires p in m
    ensures BytesIn(m) == m[p].bytes + BytesIn(m - {p})
    decreases |m|
  {
    var q :| q in m && BytesIn(m) == m[q].bytes + BytesIn(m - {q});
    if q != p {
      BytesRemove(m - {q}, p);
      BytesRemove(m - {p}, q);
      assert m - {q} - {p} == m - {p} - {q};
    }
  }

  lemma PutCount(m: map<Pos, Stored>, w: Write, revision: nat)
    ensures |Put(m, w, revision)| + (if w.pos in m then 1 else 0) == |m| + (if w.cell.Some? then 1 else 0)
  {
    var m' := Put(m, w, revision);
    assert |m| == |m.Keys| && |m'| == |m'.Keys|;
    if w.cell.Some? {
      assert m'.Keys == m.Keys + {w.pos};
    } else {
      assert m'.Keys == m.Keys - {w.pos};
    }
  }

  lemma PutBytes(m: map<Pos, Stored>, w: Write, revision: nat)
    ensures BytesIn(Put(m, w, revision)) + (if w.pos in m then m[w.pos].bytes else 0)
            == BytesIn(m) + (if w.cell.Some? then CellStorageBytes(w.cell.value) else 0)
  {
    var m' := Put(m, w, revision);
    if w.pos in m {
      BytesRemove(m, w.pos);
    } else {
      assert m - {w.pos} == m;
    }
    if w.cell.Some? {
      BytesRemove(m', w.pos);
      assert m' - {w.pos} == m - {w.pos};
    }
  }

  function CountCells(tabs: seq<Tab>): nat {
    if tabs == [] then 0 else CountCells(tabs[..|tabs| - 1]) + |tabs[|tabs| - 1].cells|
  }

  ghost function CountBytes(tabs: seq<Tab>): nat {
    if tabs == [] then 0 else CountBytes(tabs[..|tabs| - 1]) + BytesIn(tabs[|tabs| - 1].cells)
  }

  lemma {:induction false} CountReplace(tabs: seq<Tab>, i: nat, tab: Tab)
    requires i < |tabs|
    ensures CountCells(tabs[i := tab]) + |tabs[i].cells| == CountCells(tabs) + |tab.cells|
    ensures CountBytes(tabs[i := tab]) + BytesIn(tabs[i].cells) == CountBytes(tabs) + BytesIn(tab.cells)
  {
    var n := |tabs| - 1;
    if i == n {
      assert tabs[i := tab][..n] == tabs[..n];
    } else {
      assert tabs[i := tab][..n] == tabs[..n][i := tab];
      CountReplace(tabs[..n], i, tab);
    }
  }

  function InsertAt<T>(s: seq<T>, i: nat, x: T): seq<T>
    requires i <= |s|
  {
    s[..i] + [x] + s[i..]
  }

  lemma {:induction false} CountInsert(tabs: seq<Tab>, i: nat, tab: Tab)
    requires i <= |tabs|
    ensures CountCells(InsertAt(tabs, i, tab)) == CountCells(tabs) + |tab.cells|
    ensures CountBytes(InsertAt(tabs, i, tab)) == CountBytes(tabs) + BytesIn(tab.cells)
  {
    var n := |tabs|;
    var t := InsertAt(tabs, i, tab);
    if i == n {
      assert t[..n] == tabs;
    } else {
      assert t[..n] == InsertAt(tabs[..n - 1], i, tab);
      CountInsert(tabs[..n - 1], i, tab);
    }
  }

  // ----- The four operations

  /** Index of the worksheet with this key, if there is one. */
  function FindTab(tabs: seq<Tab>, key: string): (r: Option<nat>)
    ensures r.Some? ==> r.value < |tabs| && tabs[r.value].key == key
    ensures r.None? ==> forall i :: 0 <= i < |tabs| ==> tabs[i].key != key
  {
    if tabs == [] then None
    else if tabs[0].key == key then Some(0)
    else
      match FindTab(tabs[1..], key)
      case None =>
        assert forall i :: 1 <= i < |tabs| ==> tabs[i] == tabs[1..][i - 1];
        None
      case Some(i) => Some(i + 1)
  }

  /** Some worksheet other than number `except` already has this name, ignoring case. */
  ghost predicate NameTaken(tabs: seq<Tab>, name: Name, except: int) {
    exists i :: 0 <= i < |tabs| && i != except && tabs[i].name.lower == name.lower
  }

  ghost predicate OutsideGrid(tab: Tab, writes: seq<Write>) {
    exists i :: 0 <= i < |writes| && (writes[i].pos.r >= tab.rows || writes[i].pos.c >= tab.columns)
  }

  /** A sheet may exceed a limit only if it does not grow on that measure. */
  ghost predicate Overgrown(before: seq<Tab>, after: seq<Tab>, limits: Limits) {
    || (CountCells(after) > CountCells(before) && CountCells(after) > limits.maxCells)
    || (CountBytes(after) > CountBytes(before) && CountBytes(after) > limits.maxBytes)
  }

  const EMPTY_LAYOUT := Layout(None, None)

  function NewTab(key: string, name: Name): Tab {
    Tab(key, name, DEFAULT_ROWS, DEFAULT_COLUMNS, EMPTY_LAYOUT, map[])
  }

  /** A null size removes the entry, any other size replaces it. */
  function Resize(current: Option<Sizes>, edits: map<string, Option<int>>): Sizes {
    var sizes := if current.Some? then current.value else map[];
    map k | k in sizes.Keys + edits.Keys && (k in edits ==> edits[k].Some?)
      :: if k in edits then edits[k].value else sizes[k]
  }

  function InsertIndex(n: nat, index: Option<nat>): (i: nat)
    ensures i <= n
  {
    if index.None? || index.value > n then n else index.value
  }

  ghost function Edited(d: Doc, op: Op, limits: Limits): Result<seq<Tab>, OpError>
    requires !op.Unknown?
  {
    match op
    case Cells(ws, writes) => (
      match FindTab(d.tabs, ws)
      case None => Failure(WorksheetNotFound)
      case Some(t) =>
        var tab := d.tabs[t];
        var after := d.tabs[t := tab.(cells := WriteAll(tab.cells, writes, d.revision + 1))];
        if OutsideGrid(tab, writes) then Failure(InvalidCellCoordinate)
        else if Overgrown(d.tabs, after, limits) then Failure(SheetFull)
        else Success(after)
    )
    case AddWorksheet(ws, name, index) =>
      if FindTab(d.tabs, ws).Some? then Success(d.tabs)
      else if |d.tabs| >= MAX_WORKSHEETS then Failure(TooManyWorksheets)
      else if NameTaken(d.tabs, name, -1) then Failure(WorksheetNameExists)
      else Success(InsertAt(d.tabs, InsertIndex(|d.tabs|, index), NewTab(ws, name)))
    case RenameWorksheet(ws, name) => (
      match FindTab(d.tabs, ws)
      case None => Failure(WorksheetNotFound)
      case Some(t) =>
        if NameTaken(d.tabs, name, t) then Failure(WorksheetNameExists)
        else Success(d.tabs[t := d.tabs[t].(name := name)])
    )
    case SetLayout(ws, columnWidths, rowHeights) => (
      match FindTab(d.tabs, ws)
      case None => Failure(WorksheetNotFound)
      case Some(t) =>
        var was := d.tabs[t].layout;
        var layout := Layout(Some(Resize(was.columnWidths, columnWidths)), Some(Resize(was.rowHeights, rowHeights)));
        Success(d.tabs[t := d.tabs[t].(layout := layout)])
    )
  }

  predicate Writable(d: Option<Doc>) {
    d.Some? && d.value.status == "active" && d.value.deletedAt.None?
  }

  /** One queued operation, with the injected database failure and the limits in force when it runs. */
  ghost function Execute(d: Option<Doc>, op: Op, fail: bool, limits: Limits): (Option<Doc>, Outcome) {
    if fail then (d, Rejected(DatabaseFailure))
    else if !Writable(d) then (d, Rejected(SheetNotWritable))
    else
      var next := d.value.revision + 1;
      if op.Unknown? then (Some(d.value.(revision := next)), Rejected(ApplyIsNotAFunction))
      else
        match Edited(d.value, op, limits)
        case Failure(error) => (d, Rejected(error))
        case Success(tabs) => (Some(d.value.(revision := next, tabs := tabs)), Accepted(next))
  }
}
