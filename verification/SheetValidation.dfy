/** The validator's `byPosition` map: what establishes the store's distinct coordinates. */
module SheetValidation {
  import opened Wrappers
  import opened SheetKeys
  import opened SheetDoc
  import opened SheetHistory

  /** Replacing the entry of a coordinate has the effect of writing that coordinate once more at the end. */
  lemma ReplaceIsRewrite(m: map<Pos, Stored>, writes: seq<Write>, i: nat, w: Write, revision: nat)
    requires DistinctPositions(writes) && i < |writes| && writes[i].pos == w.pos
    ensures DistinctPositions(writes[i := w])
    ensures WriteAll(m, writes[i := w], revision) == Put(WriteAll(m, writes, revision), w, revision)
  {
    var writes' := writes[i := w];
    var a, b := WriteAll(m, writes', revision), Put(WriteAll(m, writes, revision), w, revision);
    forall p ensures (p in a <==> p in b) && (p in a ==> a[p] == b[p]) {
      if Touches(writes', p) {
        var k :| 0 <= k < |writes'| && writes'[k].pos == p;
        assert writes[k].pos == p;
        WriteAllGives(m, writes', revision, p);
        WriteAllGives(m, writes, revision, p);
        assert EntryFor(writes', p) == writes'[k];
        assert EntryFor(writes, p) == writes[k];
      } else {
        assert !Touches(writes, p) by {
          forall k | 0 <= k < |writes| ensures writes[k].pos != p {
            assert writes'[k].pos != p;
          }
        }
        assert writes'[i].pos != p;
        WriteAllFrame(m, writes', revision, p);
        WriteAllFrame(m, writes, revision, p);
      }
    }
    assert a == b;
  }

  function IndexOf(writes: seq<Write>, pos: Pos): (r: Option<nat>)
    ensures r.Some? ==> r.value < |writes| && writes[r.value].pos == pos
    ensures r.None? ==> !Touches(writes, pos)
  {
    if writes == [] then None
    else if writes[|writes| - 1].pos == pos then Some(|writes| - 1)
    else
      IndexOf(writes[..|writes| - 1], pos)
  }

  ghost predicate SameEffect(a: seq<Write>, b: seq<Write>) {
    forall m, revision :: WriteAll(m, a, revision) == WriteAll(m, b, revision)
  }

  /** `byPosition.set(...)`: a new coordinate goes to the end, a known one has its entry replaced in place. */
  function SetByPosition(writes: seq<Write>, w: Write): seq<Write> {
    match IndexOf(writes, w.pos)
    case Some(k) => writes[k := w]
    case None => writes + [w]
  }

  lemma SetByPositionStep(writes: seq<Write>, raw: seq<Write>, i: nat)
    requires i < |raw| && DistinctPositions(writes) && SameEffect(writes, raw[..i])
    ensures DistinctPositions(SetByPosition(writes, raw[i]))
    ensures SameEffect(SetByPosition(writes, raw[i]), raw[..i + 1])
  {
    var writes' := SetByPosition(writes, raw[i]);
    forall m, revision ensures WriteAll(m, writes', revision) == WriteAll(m, raw[..i + 1], revision) {
      WriteAllStep(m, raw, i, revision);
      if IndexOf(writes, raw[i].pos).Some? {
        ReplaceIsRewrite(m, writes, IndexOf(writes, raw[i].pos).value, raw[i], revision);
      } else {
        assert writes'[..|writes|] == writes;
      }
    }
    if IndexOf(writes, raw[i].pos).None? {
      forall k | 0 <= k < |writes| ensures writes[k].pos != raw[i].pos {
      }
    }
  }

  /** w is the last raw entry of its coordinate. */
  ghost predicate IsLast(raw: seq<Write>, w: Write) {
    exists k :: 0 <= k < |raw| && raw[k] == w && forall l :: k < l < |raw| ==> raw[l].pos != w.pos
  }

  /** Coordinate p occurs before any occurrence of q. */
  ghost predicate OccursBefore(raw: seq<Write>, p: Pos, q: Pos) {
    exists a :: 0 <= a < |raw| && raw[a].pos == p && forall b :: 0 <= b <= a ==> raw[b].pos != q
  }

  /** One entry for each coordinate: its last one, standing where the coordinate first occurred. */
  ghost predicate Normal(writes: seq<Write>, raw: seq<Write>) {
    && (forall p :: Touches(writes, p) <==> Touches(raw, p))
    && (forall i :: 0 <= i < |writes| ==> IsLast(raw, writes[i]))
    && (forall i, j :: 0 <= i < j < |writes| ==> OccursBefore(raw, writes[i].pos, writes[j].pos))
  }

  lemma TouchesSnoc(raw: seq<Write>, w: Write, p: Pos)
    ensures Touches(raw + [w], p) <==> Touches(raw, p) || w.pos == p
  {
    var raw' := raw + [w];
    if Touches(raw, p) {
      var k :| 0 <= k < |raw| && raw[k].pos == p;
      assert raw'[k].pos == p;
    }
    if w.pos == p {
      assert raw'[|raw|].pos == p;
    }
  }

  lemma LastSnoc(raw: seq<Write>, w: Write, v: Write)
    ensures IsLast(raw + [w], w)
    ensures IsLast(raw, v) && v.pos != w.pos ==> IsLast(raw + [w], v)
  {
    var raw' := raw + [w];
    assert raw'[|raw|] == w;
    if IsLast(raw, v) && v.pos != w.pos {
      var k :| 0 <= k < |raw| && raw[k] == v && forall l :: k < l < |raw| ==> raw[l].pos != v.pos;
      assert raw'[k] == v;
    }
  }

  lemma OccursSnoc(raw: seq<Write>, w: Write, p: Pos, q: Pos)
    ensures OccursBefore(raw, p, q) ==> OccursBefore(raw + [w], p, q)
    ensures Touches(raw, p) && !Touches(raw, q) ==> OccursBefore(raw + [w], p, q)
  {
    var raw' := raw + [w];
    if OccursBefore(raw, p, q) {
      var a :| 0 <= a < |raw| && raw[a].pos == p && forall b :: 0 <= b <= a ==> raw[b].pos != q;
      assert raw'[a].pos == p;
    }
    if Touches(raw, p) && !Touches(raw, q) {
      var a :| 0 <= a < |raw| && raw[a].pos == p;
      assert raw'[a].pos == p;
    }
  }

  lemma NormalStep(writes: seq<Write>, raw: seq<Write>, w: Write)
    requires DistinctPositions(writes) && Normal(writes, raw)
    ensures Normal(SetByPosition(writes, w), raw + [w])
  {
    hide Touches, IsLast, OccursBefore;
    var writes', raw' := SetByPosition(writes, w), raw + [w];
    SamePlaces(writes, w);
    forall p ensures Touches(writes', p) <==> Touches(raw', p) {
      TouchesSnoc(raw, w, p);
    }
    forall i | 0 <= i < |writes'| ensures IsLast(raw', writes'[i]) {
      LastSnoc(raw, w, writes'[i]);
    }
    forall i, j | 0 <= i < j < |writes'| ensures OccursBefore(raw', writes'[i].pos, writes'[j].pos) {
      OccursSnoc(raw, w, writes'[i].pos, writes'[j].pos);
    }
  }

  lemma SamePlaces(writes: seq<Write>, w: Write)
    requires DistinctPositions(writes)
    ensures
      var writes' := SetByPosition(writes, w);
      && |writes'| == |writes| + (if Touches(writes, w.pos) then 0 else 1)
      && (forall p :: Touches(writes', p) <==> Touches(writes, p) || p == w.pos)
      && (forall i :: 0 <= i < |writes| ==>
            && writes'[i].pos == writes[i].pos && Touches(writes, writes[i].pos)
            && (if writes[i].pos == w.pos then writes'[i] == w else writes'[i] == writes[i]))
      && (!Touches(writes, w.pos) ==> writes'[|writes|] == w)
  {
    var writes' := SetByPosition(writes, w);
    forall i | 0 <= i < |writes| ensures Touches(writes, writes[i].pos) && writes'[i].pos == writes[i].pos {
      assert writes[i].pos in [writes[i].pos];
    }
    forall p ensures Touches(writes', p) <==> Touches(writes, p) || p == w.pos {
      if IndexOf(writes, w.pos).None? {
        TouchesSnoc(writes, w, p);
      } else if Touches(writes, p) {
        var k :| 0 <= k < |writes| && writes[k].pos == p;
        assert writes'[k].pos == p;
      }
    }
  }

  /**
   The normalised entries name every coordinate once and have the effect of the raw ones: a
   repeated coordinate keeps its last value.
   */
  method NormalizeCells(raw: seq<Write>) returns (writes: seq<Write>)
    ensures DistinctPositions(writes)
    ensures SameEffect(writes, raw)
    ensures Normal(writes, raw)
  {
    hide SameEffect, Normal, DistinctPositions, SetByPosition;
    NothingNormal(raw[..0]);
    writes := [];
    assert DistinctPositions([]) by {
      NothingDistinct();
    }
    Reflexive(raw[..0]);
    for i := 0 to |raw|
      invariant DistinctPositions(writes)
      invariant SameEffect(writes, raw[..i])
      invariant Normal(writes, raw[..i])
    {
      NormalStep(writes, raw[..i], raw[i]);
      assert raw[..i] + [raw[i]] == raw[..i + 1];
      SetByPositionStep(writes, raw, i);
      writes := SetByPosition(writes, raw[i]);
    }
    assert raw[..|raw|] == raw;
  }

  lemma NothingDistinct()
    ensures DistinctPositions([])
  {
  }

  lemma NothingNormal(raw: seq<Write>)
    requires raw == []
    ensures Normal([], raw)
  {
  }

  lemma Reflexive(writes: seq<Write>)
    ensures SameEffect(writes, writes)
  {
  }
}
