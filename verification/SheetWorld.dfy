/**
 Many sheets and many callers. `applyOperation` only appends to the sheet's promise queue;
 the event loop later runs the head of any non-empty queue, with any delay and possibly an
 injected write failure. A trace is one such interleaving, with creates, updates and
 soft deletes in between.
 */
module SheetWorld {
  import opened Wrappers
  import opened Decimal
  import opened SheetKeys
  import opened SheetDoc

  // ----- createSheet arguments

  /** `bytes` is given by the import path and computed otherwise. */
  datatype CellDef = CellDef(pos: Pos, cell: Cell, bytes: Option<nat>)

  /** A row or column count of 0 and an absent one are the same to `||`. */
  datatype TabDef = TabDef(name: Name, rowCount: nat, columnCount: nat, layout: Option<Layout>, cells: seq<CellDef>)

  datatype SheetDef = SheetDef(name: string, userId: nat, source: Option<Source>, tabs: seq<TabDef>)

  function DefBytes(c: CellDef): nat {
    if c.bytes.Some? then c.bytes.value else CellStorageBytes(c.cell)
  }

  function DefStored(c: CellDef): Stored {
    Stored(c.cell, 0, DefBytes(c))
  }

  function DefCells(cells: seq<CellDef>): map<Pos, Stored> {
    if cells == [] then map[]
    else
      var last := cells[|cells| - 1];
      DefCells(cells[..|cells| - 1])[last.pos := DefStored(last)]
  }

  ghost predicate DistinctCells(cells: seq<CellDef>) {
    forall i, j :: 0 <= i < j < |cells| ==> cells[i].pos != cells[j].pos
  }

  /** What `createSheet` expects: no coordinate twice within one worksheet. */
  ghost predicate DefValid(def: SheetDef) {
    forall i :: 0 <= i < |def.tabs| ==> DistinctCells(def.tabs[i].cells)
  }

  function GeneratedKey(sheetId: nat, position: nat): string {
    "ws" + Print(sheetId) + "x" + Print(position)
  }

  function DefTab(sheetId: nat, position: nat, def: TabDef): Tab {
    Tab(GeneratedKey(sheetId, position), def.name,
        if def.rowCount == 0 then DEFAULT_ROWS else def.rowCount,
        if def.columnCount == 0 then DEFAULT_COLUMNS else def.columnCount,
        if def.layout.Some? then def.layout.value else EMPTY_LAYOUT,
        DefCells(def.cells))
  }

  function DefTabs(sheetId: nat, defs: seq<TabDef>): (tabs: seq<Tab>)
    ensures |tabs| == |defs|
    ensures forall p :: 0 <= p < |defs| ==> tabs[p] == DefTab(sheetId, p, defs[p])
  {
    seq(|defs|, p requires 0 <= p < |defs| => DefTab(sheetId, p, defs[p]))
  }

  function DefDoc(sheetId: nat, def: SheetDef): Doc {
    Doc(def.name, "active", 0, def.userId, None, def.source, DefTabs(sheetId, def.tabs))
  }

  // ----- Admin changes

  /** `Object.assign(sheet, fields)`; an absent field keeps its value. */
  datatype Fields = Fields(name: Option<string>, status: Option<string>)

  function Updated(d: Doc, fields: Fields): Doc {
    d.(name := if fields.name.Some? then fields.name.value else d.name,
       status := if fields.status.Some? then fields.status.value else d.status)
  }

  predicate Alive(d: Option<Doc>) {
    d.Some? && d.value.deletedAt.None?
  }

  // ----- One sheet on its own

  /** What can happen to one sheet, in the order it happens. */
  datatype Entry =
    | Born(def: SheetDef)
    | Ran(op: Op, fail: bool, limits: Limits)
    | Changed(fields: Fields)
    | Removed(now: nat)

  ghost function Effect(s: nat, d: Option<Doc>, e: Entry): Option<Doc> {
    match e
    case Born(def) => Some(DefDoc(s, def))
    case Ran(op, fail, limits) => Execute(d, op, fail, limits).0
    case Changed(fields) => if Alive(d) then Some(Updated(d.value, fields)) else d
    case Removed(now) => if Alive(d) then Some(d.value.(deletedAt := Some(now))) else d
  }

  ghost function Replay(s: nat, d: Option<Doc>, log: seq<Entry>): Option<Doc> {
    if log == [] then d
    else Effect(s, Replay(s, d, log[..|log| - 1]), log[|log| - 1])
  }

  /** What the caller of the k-th entry gets back, when that entry is an operation. */
  ghost function OutcomeAt(s: nat, d: Option<Doc>, log: seq<Entry>, k: nat): Outcome
    requires k < |log| && log[k].Ran?
  {
    Execute(Replay(s, d, log[..k]), log[k].op, log[k].fail, log[k].limits).1
  }

  // ----- All sheets together

  datatype World = World(docs: map<nat, Doc>, queues: map<nat, seq<Op>>, nextSheetId: nat)

  datatype Event =
    | Call(s: nat, op: Op)
    | Run(s: nat, fail: bool, limits: Limits)
    | Create(def: SheetDef)
    | Update(s: nat, fields: Fields)
    | Delete(s: nat, now: nat)

  function DocOf(w: World, s: nat): Option<Doc> {
    if s in w.docs then Some(w.docs[s]) else None
  }

  function QueueOf(w: World, s: nat): seq<Op> {
    if s in w.queues then w.queues[s] else []
  }

  /** Only a waiting operation can run. */
  predicate Enabled(w: World, e: Event) {
    e.Run? ==> QueueOf(w, e.s) != []
  }

  ghost function WithEffect(w: World, s: nat, e: Entry): World {
    w.(docs := Assign(w.docs, s, Effect(s, DocOf(w, s), e)))
  }

  ghost function Step(w: World, e: Event): World {
    if !Enabled(w, e) then w else
    match e
    case Call(s, op) => w.(queues := w.queues[s := QueueOf(w, s) + [op]])
    case Run(s, fail, limits) =>
      WithEffect(w.(queues := w.queues[s := QueueOf(w, s)[1..]]), s, Ran(QueueOf(w, s)[0], fail, limits))
    case Create(def) => WithEffect(w.(nextSheetId := w.nextSheetId + 1), w.nextSheetId, Born(def))
    case Update(s, fields) => WithEffect(w, s, Changed(fields))
    case Delete(s, now) => WithEffect(w, s, Removed(now))
  }

  ghost function After(w: World, tr: seq<Event>): World {
    if tr == [] then w else Step(After(w, tr[..|tr| - 1]), tr[|tr| - 1])
  }

  /** A trace that the event loop can produce. */
  ghost predicate Possible(w: World, tr: seq<Event>) {
    forall k :: 0 <= k < |tr| ==> Enabled(After(w, tr[..k]), tr[k])
  }

  // ----- What one sheet sees of a trace

  function CallOf(e: Event, s: nat): seq<Op> {
    if e.Call? && e.s == s then [e.op] else []
  }

  /** The operations called on sheet s, in call order. */
  function Calls(tr: seq<Event>, s: nat): seq<Op> {
    if tr == [] then [] else Calls(tr[..|tr| - 1], s) + CallOf(tr[|tr| - 1], s)
  }

  function Creates(tr: seq<Event>): nat {
    if tr == [] then 0 else Creates(tr[..|tr| - 1]) + (if tr[|tr| - 1].Create? then 1 else 0)
  }

  /** An event of sheet s with the operation left open: which one runs is decided by the call order. */
  datatype Mark = Turn(fail: bool, limits: Limits) | Other(entry: Entry)

  function MarkOf(e: Event, s: nat, next: nat): seq<Mark> {
    match e
    case Call(_, _) => []
    case Run(r, fail, limits) => if r == s then [Turn(fail, limits)] else []
    case Create(def) => if next == s then [Other(Born(def))] else []
    case Update(r, fields) => if r == s then [Other(Changed(fields))] else []
    case Delete(r, now) => if r == s then [Other(Removed(now))] else []
  }

  function Marks(tr: seq<Event>, s: nat, next: nat): seq<Mark> {
    if tr == [] then []
    else Marks(tr[..|tr| - 1], s, next) + MarkOf(tr[|tr| - 1], s, next + Creates(tr[..|tr| - 1]))
  }

  function Turns(marks: seq<Mark>): nat {
    if marks == [] then 0 else Turns(marks[..|marks| - 1]) + (if marks[|marks| - 1].Turn? then 1 else 0)
  }

  /** The k-th turn runs the k-th call. */
  function Scheduled(calls: seq<Op>, marks: seq<Mark>): seq<Entry>
    requires Turns(marks) <= |calls|
  {
    if marks == [] then []
    else
      var init, m := marks[..|marks| - 1], marks[|marks| - 1];
      Scheduled(calls, init) +
      [match m
       case Turn(fail, limits) => Ran(calls[Turns(init)], fail, limits)
       case Other(entry) => entry]
  }

  lemma {:induction false} ScheduledPrefix(calls: seq<Op>, more: seq<Op>, marks: seq<Mark>)
    requires Turns(marks) <= |calls|
    ensures Scheduled(calls + more, marks) == Scheduled(calls, marks)
  {
    if marks != [] {
      ScheduledPrefix(calls, more, marks[..|marks| - 1]);
    }
  }

  lemma PossibleInit(w: World, tr: seq<Event>)
    requires Possible(w, tr) && tr != []
    ensures Possible(w, tr[..|tr| - 1]) && Enabled(After(w, tr[..|tr| - 1]), tr[|tr| - 1])
  {
    var init := tr[..|tr| - 1];
    forall k | 0 <= k < |init| ensures Enabled(After(w, init[..k]), init[k]) {
      assert init[..k] == tr[..k] && init[k] == tr[k];
    }
  }

  lemma {:induction false} NextAfter(w: World, tr: seq<Event>)
    ensures After(w, tr).nextSheetId == w.nextSheetId + Creates(tr)
  {
    if tr != [] {
      NextAfter(w, tr[..|tr| - 1]);
    }
  }

  /** What sheet s sees of a trace: its document and its waiting calls follow from its own calls and marks. */
  ghost predicate Serial(calls: seq<Op>, marks: seq<Mark>, s: nat, before: Option<Doc>, after: World) {
    && Turns(marks) <= |calls|
    && QueueOf(after, s) == calls[Turns(marks)..]
    && DocOf(after, s) == Replay(s, before, Scheduled(calls, marks))
  }

  /**
   Serializability. Whatever the interleaving, sheet s ends as if its own operations had been
   executed one at a time in call order, each at its own turn, and the calls not yet served are
   exactly the rest of the call order. Nothing that happens to other sheets has any influence.
   */
  lemma {:induction false} Serializable(w: World, tr: seq<Event>, s: nat)
    requires Possible(w, tr)
    ensures Serial(QueueOf(w, s) + Calls(tr, s), Marks(tr, s, w.nextSheetId), s, DocOf(w, s), After(w, tr))
  {
    if tr == [] {
      assert QueueOf(w, s) + [] == QueueOf(w, s);
    } else {
      var init, e := tr[..|tr| - 1], tr[|tr| - 1];
      PossibleInit(w, tr);
      Serializable(w, init, s);
      NextAfter(w, init);
      var calls, marks, now := QueueOf(w, s) + Calls(init, s), Marks(init, s, w.nextSheetId), After(w, init);
      SerialStep(calls, marks, s, DocOf(w, s), now, e);
      SeenOnceMore(w, tr, s);
    }
  }

  lemma SeenOnceMore(w: World, tr: seq<Event>, s: nat)
    requires tr != []
    ensures
      var init, e := tr[..|tr| - 1], tr[|tr| - 1];
      && QueueOf(w, s) + Calls(tr, s) == QueueOf(w, s) + Calls(init, s) + CallOf(e, s)
      && Marks(tr, s, w.nextSheetId) == Marks(init, s, w.nextSheetId) + MarkOf(e, s, w.nextSheetId + Creates(init))
      && After(w, tr) == Step(After(w, init), e)
  {
  }

  lemma SerialStep(calls: seq<Op>, marks: seq<Mark>, s: nat, before: Option<Doc>, now: World, e: Event)
    requires Serial(calls, marks, s, before, now) && Enabled(now, e)
    ensures Serial(calls + CallOf(e, s), marks + MarkOf(e, s, now.nextSheetId), s, before, Step(now, e))
  {
    hide Replay, Scheduled, Effect, Turns;
    if e.Call? && e.s == s {
      SerialCall(calls, marks, s, before, now, e.op);
      assert marks + [] == marks;
    } else {
      assert calls + [] == calls;
      if MarkOf(e, s, now.nextSheetId) == [] {
        assert marks + [] == marks;
      } else if e.Run? {
        SerialTurn(calls, marks, s, before, now, e.fail, e.limits);
      } else {
        SerialOther(calls, marks, s, before, now, MarkOf(e, s, now.nextSheetId)[0].entry, Step(now, e));
      }
    }
  }

  lemma SerialCall(calls: seq<Op>, marks: seq<Mark>, s: nat, before: Option<Doc>, now: World, op: Op)
    requires Serial(calls, marks, s, before, now)
    ensures Serial(calls + [op], marks, s, before, Step(now, Call(s, op)))
  {
    ScheduledPrefix(calls, [op], marks);
  }

  lemma ScheduledSnoc(calls: seq<Op>, marks: seq<Mark>, m: Mark)
    requires Turns(marks) <= |calls| && (m.Turn? ==> Turns(marks) < |calls|)
    ensures Turns(marks + [m]) == Turns(marks) + (if m.Turn? then 1 else 0)
    ensures Scheduled(calls, marks + [m])
            == Scheduled(calls, marks) + [if m.Turn? then Ran(calls[Turns(marks)], m.fail, m.limits) else m.entry]
  {
    assert (marks + [m])[..|marks|] == marks;
  }

  lemma ReplaySnoc(s: nat, d: Option<Doc>, log: seq<Entry>, e: Entry)
    ensures Replay(s, d, log + [e]) == Effect(s, Replay(s, d, log), e)
  {
    assert (log + [e])[..|log|] == log;
  }

  lemma SerialTurn(calls: seq<Op>, marks: seq<Mark>, s: nat, before: Option<Doc>, now: World, fail: bool,
                   limits: Limits)
    requires Serial(calls, marks, s, before, now) && Enabled(now, Run(s, fail, limits))
    ensures Serial(calls, marks + [Turn(fail, limits)], s, before, Step(now, Run(s, fail, limits)))
  {
    ScheduledSnoc(calls, marks, Turn(fail, limits));
    ReplaySnoc(s, before, Scheduled(calls, marks), Ran(calls[Turns(marks)], fail, limits));
  }

  lemma SerialOther(calls: seq<Op>, marks: seq<Mark>, s: nat, before: Option<Doc>, now: World, entry: Entry,
                    next: World)
    requires Serial(calls, marks, s, before, now)
    requires QueueOf(next, s) == QueueOf(now, s) && DocOf(next, s) == Effect(s, DocOf(now, s), entry)
    ensures Serial(calls, marks + [Other(entry)], s, before, next)
  {
    ScheduledSnoc(calls, marks, Other(entry));
    ReplaySnoc(s, before, Scheduled(calls, marks), entry);
  }
}
