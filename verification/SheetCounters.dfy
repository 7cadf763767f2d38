/**
 The arithmetic by which the store keeps `cell_count` and `data_bytes` up to date
 without counting: `new - existing`, one term per entry of the operation.
 */
module SheetCounters {
  import opened Wrappers
  import opened SheetKeys
  import opened SheetDoc

  function ExistingCount(m: map<Pos, Stored>, writes: seq<Write>): nat {
    if writes == [] then 0
    else ExistingCount(m, writes[..|writes| - 1]) + (if writes[|writes| - 1].pos in m then 1 else 0)
  }

  function ExistingBytes(m: map<Pos, Stored>, writes: seq<Write>): nat {
    if writes == [] then 0
    else
      var w := writes[|writes| - 1];
      ExistingBytes(m, writes[..|writes| - 1]) + (if w.pos in m then m[w.pos].bytes else 0)
  }

  function NewCount(writes: seq<Write>): nat {
    if writes == [] then 0
    else NewCount(writes[..|writes| - 1]) + (if writes[|writes| - 1].cell.Some? then 1 else 0)
  }

  function NewBytes(writes: seq<Write>): nat {
    if writes == [] then 0
    else
      var w := writes[|writes| - 1];
      NewBytes(writes[..|writes| - 1]) + (if w.cell.Some? then CellStorageBytes(w.cell.value) else 0)
  }

  /** With distinct coordinates both deltas are exact: overwrites, clears and clears of absent cells included. */
  lemma {:induction false} DeltasExact(m: map<Pos, Stored>, writes: seq<Write>, revision: nat)
    requires DistinctPositions(writes)
    ensures
      var m' := WriteAll(m, writes, revision);
      && |m'| - |m| == NewCount(writes) - ExistingCount(m, writes)
      && BytesIn(m') - BytesIn(m) == NewBytes(writes) - ExistingBytes(m, writes)
  {
    if writes != [] {
      var n := |writes| - 1;
      var init, last := writes[..n], writes[n];
      DeltasExact(m, init, revision);
      assert !Touches(init, last.pos);
      WriteAllFrame(m, init, revision, last.pos);
      PutCount(WriteAll(m, init, revision), last, revision);
      PutBytes(WriteAll(m, init, revision), last, revision);
    }
  }

  /** Cells that the writes replace anyway have no influence on the outcome. */
  lemma {:induction false} WriteAllOverwrites(m: map<Pos, Stored>, m': map<Pos, Stored>, writes: seq<Write>,
                                              revision: nat)
    requires forall p :: !Touches(writes, p) ==> (p in m <==> p in m') && (p in m ==> m[p] == m'[p])
    ensures WriteAll(m, writes, revision) == WriteAll(m', writes, revision)
  {
    var a, b := WriteAll(m, writes, revision), WriteAll(m', writes, revision);
    forall p ensures (p in a <==> p in b) && (p in a ==> a[p] == b[p]) {
      if Touches(writes, p) {
        LastTouch(m, m', writes, revision, p);
      } else {
        WriteAllFrame(m, writes, revision, p);
        WriteAllFrame(m', writes, revision, p);
      }
    }
    assert a == b;
  }

  lemma {:induction false} LastTouch(m: map<Pos, Stored>, m': map<Pos, Stored>, writes: seq<Write>, revision: nat,
                                     p: Pos)
    requires Touches(writes, p)
    ensures
      var a, b := WriteAll(m, writes, revision), WriteAll(m', writes, revision);
      (p in a <==> p in b) && (p in a ==> a[p] == b[p])
  {
    var n := |writes| - 1;
    if writes[n].pos != p {
      var i :| 0 <= i < |writes| && writes[i].pos == p;
      assert writes[..n][i].pos == p;
      LastTouch(m, m', writes[..n], revision, p);
    }
  }

  lemma {:induction false} ExistingInOne(writes: seq<Write>, p: Pos, s: Stored)
    ensures ExistingCount(map[], writes) == 0
    ensures Touches(writes, p) ==> ExistingCount(map[p := s], writes) >= 1
    ensures (exists i, j :: 0 <= i < j < |writes| && writes[i].pos == p == writes[j].pos) ==>
            ExistingCount(map[p := s], writes) >= 2
  {
    if writes != [] {
      var n := |writes| - 1;
      var init := writes[..n];
      ExistingInOne(init, p, s);
      if Touches(writes, p) && writes[n].pos != p {
        var i :| 0 <= i < |writes| && writes[i].pos == p;
        assert init[i].pos == p;
      }
      if exists i, j :: 0 <= i < j < |writes| && writes[i].pos == p == writes[j].pos {
        var i, j :| 0 <= i < j < |writes| && writes[i].pos == p == writes[j].pos;
        assert init[i].pos == p;
        if j < n {
          assert init[j].pos == p;
        }
      }
    }
  }

  ghost predicate DeltaRight(m: map<Pos, Stored>, writes: seq<Write>, revision: nat) {
    |WriteAll(m, writes, revision)| - |m| == NewCount(writes) - ExistingCount(m, writes)
  }

  /** A repeated coordinate makes the delta wrong on the empty worksheet or on the one holding just that cell. */
  lemma RepeatedPositionDrifts(writes: seq<Write>, i: nat, j: nat, s: Stored, revision: nat)
    requires i < j < |writes| && writes[i].pos == writes[j].pos
    ensures !DeltaRight(map[], writes, revision) || !DeltaRight(map[writes[i].pos := s], writes, revision)
  {
    var p := writes[i].pos;
    ExistingInOne(writes, p, s);
    assert Touches(writes, p);
    WriteAllOverwrites(map[], map[p := s], writes, revision);
    assert map[p := s].Keys == {p};
  }

  ghost predicate BytesRight(m: map<Pos, Stored>, writes: seq<Write>, revision: nat) {
    BytesIn(WriteAll(m, writes, revision)) - BytesIn(m) == NewBytes(writes) - ExistingBytes(m, writes)
  }

  lemma {:induction false} ExistingBytesInOne(writes: seq<Write>, p: Pos, s: Stored)
    requires s.bytes == 1
    ensures ExistingBytes(map[], writes) == 0
    ensures ExistingBytes(map[p := s], writes) == ExistingCount(map[p := s], writes)
  {
    if writes != [] {
      ExistingBytesInOne(writes[..|writes| - 1], p, s);
    }
  }

  /** The same for the byte delta, with a stored cell of one byte. */
  lemma RepeatedPositionDriftsBytes(writes: seq<Write>, i: nat, j: nat, s: Stored, revision: nat)
    requires i < j < |writes| && writes[i].pos == writes[j].pos && s.bytes == 1
    ensures !BytesRight(map[], writes, revision) || !BytesRight(map[writes[i].pos := s], writes, revision)
  {
    var p := writes[i].pos;
    var one := map[p := s];
    ExistingInOne(writes, p, s);
    ExistingBytesInOne(writes, p, s);
    assert Touches(writes, p);
    WriteAllOverwrites(map[], one, writes, revision);
    BytesRemove(one, p);
    assert one - {p} == map[];
  }

  /**
   Distinctness is exactly what the arithmetic needs: each of the two deltas is right on every worksheet
   content if and only if no coordinate occurs twice.
   */
  lemma DeltaExactIffDistinct(writes: seq<Write>, revision: nat)
    ensures DistinctPositions(writes) <==> forall m: map<Pos, Stored> :: DeltaRight(m, writes, revision)
    ensures DistinctPositions(writes) <==> forall m: map<Pos, Stored> :: BytesRight(m, writes, revision)
  {
    hide WriteAll, NewCount, NewBytes, ExistingCount, ExistingBytes;
    if DistinctPositions(writes) {
      forall m: map<Pos, Stored> ensures DeltaRight(m, writes, revision) && BytesRight(m, writes, revision) {
        DeltasExact(m, writes, revision);
      }
    } else {
      var i, j :| 0 <= i < j < |writes| && writes[i].pos == writes[j].pos;
      RepeatedPositionDrifts(writes, i, j, Stored(Cell([]), 0, 0), revision);
      RepeatedPositionDriftsBytes(writes, i, j, Stored(Cell([]), 0, 1), revision);
    }
  }

  /** The deltas of one worksheet are the deltas of the whole sheet. */
  lemma SheetDeltas(tabs: seq<Tab>, t: nat, writes: seq<Write>, revision: nat)
    requires DistinctPositions(writes) && t < |tabs|
    ensures
      var grid := tabs[t].cells;
      var after := tabs[t := tabs[t].(cells := WriteAll(grid, writes, revision))];
      && CountCells(after) == CountCells(tabs) + NewCount(writes) - ExistingCount(grid, writes)
      && CountBytes(after) == CountBytes(tabs) + NewBytes(writes) - ExistingBytes(grid, writes)
  {
    DeltasExact(tabs[t].cells, writes, revision);
    CountReplace(tabs, t, tabs[t].(cells := WriteAll(tabs[t].cells, writes, revision)));
  }
}
