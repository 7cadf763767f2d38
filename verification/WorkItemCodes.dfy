/** Work item codes such as EPIC-007: the text format, and the backfill that numbers existing rows. */
module WorkItemCodes {
  import opened Wrappers
  import opened Decimal

  /** Largest number `CAST(... AS INTEGER)` accepts. */
  const INT_MAX: nat := 2147483647

  /** Width of the code columns. */
  const CODE_WIDTH: nat := 20

  const PREFIXES := ["EPIC", "FEAT", "US"]

  // ----- The format

  /** `padStart(3, "0")`. */
  function PadStart3(s: string): (r: string)
    ensures AllDigits(s) ==> AllDigits(r)
  {
    if |s| >= 3 then s else Zeros(3 - |s|) + s
  }

  function Code(prefix: string, n: nat): string {
    prefix + "-" + PadStart3(Print(n))
  }

  /** The query's pattern `^prefix-[0-9]+$`. */
  predicate WellFormed(prefix: string, code: string) {
    && |code| > |prefix| + 1
    && code[..|prefix| + 1] == prefix + "-"
    && AllDigits(code[|prefix| + 1..])
  }

  /** SQL `SUBSTRING(s, from)` counts from 1. */
  function Substring(s: string, from: nat): string
    requires from >= 1
  {
    if from - 1 <= |s| then s[from - 1..] else []
  }

  /** JavaScript `s.slice(from)` counts from 0. */
  function Slice(s: string, from: nat): string {
    if from <= |s| then s[from..] else []
  }

  /** The number the query sorts by. */
  function NumberOf(prefix: string, code: string): nat
    requires WellFormed(prefix, code)
  {
    Parse(Substring(code, |prefix| + 2))
  }

  /** The two offsets of the program select the same suffix. */
  lemma OffsetsAgree(prefix: string, code: string)
    requires WellFormed(prefix, code)
    ensures Substring(code, |prefix| + 2) == Slice(code, |prefix| + 1)
  {
  }

  /** So the program reads the number the query sorted by. */
  lemma SliceIsNumber(prefix: string, code: string)
    requires WellFormed(prefix, code)
    ensures AllDigits(Slice(code, |prefix| + 1)) && Parse(Slice(code, |prefix| + 1)) == NumberOf(prefix, code)
  {
    OffsetsAgree(prefix, code);
  }

  /** Every printed code matches the query's pattern and reads back as its number, of three digits or more. */
  lemma CodeRoundTrip(prefix: string, n: nat)
    ensures WellFormed(prefix, Code(prefix, n)) && NumberOf(prefix, Code(prefix, n)) == n
  {
    var digits := PadStart3(Print(n));
    assert Code(prefix, n)[..|prefix| + 1] == prefix + "-";
    assert Code(prefix, n)[|prefix| + 1..] == digits;
    ParsePrint(n);
    if |Print(n)| < 3 {
      ParseLeadingZeros(3 - |Print(n)|, Print(n));
    }
  }

  /** At least three digits, and no more than the number needs beyond that. */
  lemma CodeLength(prefix: string, n: nat)
    ensures |Code(prefix, n)| == |prefix| + 1 + (if |Print(n)| < 3 then 3 else |Print(n)|)
  {
  }

  lemma FirstCodes()
    ensures Code("EPIC", 1) == "EPIC-001" && Code("FEAT", 42) == "FEAT-042" && Code("US", 1000) == "US-1000"
  {
    assert Print(1) == "1";
    assert Print(4) == "4" && Print(42) == "42";
    assert Print(1) == "1" && Print(10) == "10" && Print(100) == "100" && Print(1000) == "1000";
    assert Zeros(2) == "00" && Zeros(1) == "0";
  }

  /** The pattern matches the prefix, a dash and one or more digits, in any number and with any leading zeros. */
  lemma WellFormedExactly(prefix: string, code: string)
    ensures WellFormed(prefix, code) <==>
            exists digits :: digits != "" && AllDigits(digits) && code == prefix + "-" + digits
  {
    if WellFormed(prefix, code) {
      var digits := code[|prefix| + 1..];
      assert digits != "" && AllDigits(digits) && code == prefix + "-" + digits;
    }
    if digits :| digits != "" && AllDigits(digits) && code == prefix + "-" + digits {
      assert code[..|prefix| + 1] == prefix + "-" && code[|prefix| + 1..] == digits;
    }
  }

  function Pow10(k: nat): nat {
    if k == 0 then 1 else 10 * Pow10(k - 1)
  }

  lemma {:induction false} PrintLength(n: nat, k: nat)
    requires k >= 1 && n < Pow10(k)
    ensures |Print(n)| <= k
  {
    if n >= 10 {
      assert k >= 2;
      PrintLength(n / 10, k - 1);
    }
  }

  /** One more than the largest 32-bit number still fits the column, for each prefix in use. */
  lemma CodeFits(prefix: string, n: nat)
    requires prefix in PREFIXES && n <= INT_MAX + 1
    ensures |Code(prefix, n)| <= 15 < CODE_WIDTH
  {
    assert Pow10(10) == 10 * Pow10(9) && Pow10(9) == 10 * Pow10(8) && Pow10(8) == 10 * Pow10(7)
        && Pow10(7) == 10 * Pow10(6) && Pow10(6) == 10 * Pow10(5) && Pow10(5) == 10 * Pow10(4) && Pow10(4) == 10000;
    PrintLength(n, 10);
  }

  // ----- The largest number in use

  type Codes = map<nat, Option<string>>

  function InUse(codes: Codes): set<string> {
    set id | id in codes && codes[id].Some? :: codes[id].value
  }

  /** m is the largest well-formed number, or 0 when there is none. */
  ghost predicate IsMax(prefix: string, codes: set<string>, m: nat) {
    && (forall c :: c in codes && WellFormed(prefix, c) ==> NumberOf(prefix, c) <= m)
    && (m > 0 ==> exists c :: c in codes && WellFormed(prefix, c) && NumberOf(prefix, c) == m)
  }

  ghost function MaxNumber(prefix: string, codes: set<string>): (m: nat)
    ensures IsMax(prefix, codes, m)
  {
    if codes == {} then 0
    else
      var c :| c in codes;
      var m := MaxNumber(prefix, codes - {c});
      if WellFormed(prefix, c) && NumberOf(prefix, c) > m then NumberOf(prefix, c) else m
  }

  lemma MaxUnique(prefix: string, codes: set<string>, m: nat)
    requires IsMax(prefix, codes, m)
    ensures m == MaxNumber(prefix, codes)
  {
  }

  /** A number above the maximum gives a code nobody has, malformed codes included; it becomes the new maximum. */
  lemma NextCodeIsNew(prefix: string, codes: set<string>, n: nat)
    requires n > MaxNumber(prefix, codes)
    ensures Code(prefix, n) !in codes
    ensures MaxNumber(prefix, codes + {Code(prefix, n)}) == n
  {
    CodeRoundTrip(prefix, n);
    assert Code(prefix, n) in codes + {Code(prefix, n)};
    MaxUnique(prefix, codes + {Code(prefix, n)}, n);
  }

  /** The UNIQUE constraint. */
  ghost predicate UniqueCodes(codes: Codes) {
    forall i, j :: i in codes && j in codes && i != j && codes[i].Some? ==> codes[i] != codes[j]
  }

  function Uncoded(codes: Codes): set<nat> {
    set id | id in codes && codes[id].None?
  }

  ghost predicate AscendingIds(rows: seq<nat>) {
    forall i, j :: 0 <= i < j < |rows| ==> rows[i] < rows[j]
  }

  /** `SELECT id ... WHERE code IS NULL ORDER BY id ASC`. */
  ghost predicate IsUncodedList(codes: Codes, rows: seq<nat>) {
    AscendingIds(rows) && forall id :: id in rows <==> id in Uncoded(codes)
  }

  /** The k-th listed row gets the k-th number after the maximum, for the first m rows; nothing else changes. */
  ghost predicate Numbered(before: Codes, after: Codes, rows: seq<nat>, m: nat, prefix: string)
    requires m <= |rows|
  {
    && after.Keys == before.Keys
    && (forall k :: 0 <= k < m ==>
          rows[k] in after && after[rows[k]] == Some(Code(prefix, MaxNumber(prefix, InUse(before)) + k + 1)))
    && (forall id :: id in before && id !in rows[..m] ==> after[id] == before[id])
  }

  /** How many rows get a code before the query's cast overflows. */
  ghost function Capacity(prefix: string, codes: Codes, n: nat): nat {
    var max := MaxNumber(prefix, InUse(codes));
    if max > INT_MAX then 0 else if max + n - 1 <= INT_MAX then n else INT_MAX - max + 1
  }

  lemma InUseAfter(now: Codes, id: nat, code: string)
    requires id in now && now[id].None?
    ensures InUse(now[id := Some(code)]) == InUse(now) + {code}
  {
    var next := now[id := Some(code)];
    assert next[id].value == code;
    forall c | c in InUse(now) ensures c in InUse(next) {
      var i :| i in now && now[i].Some? && now[i].value == c;
      assert next[i].value == c;
    }
  }

  lemma UniqueAfter(now: Codes, id: nat, code: string)
    requires UniqueCodes(now) && id in now && code !in InUse(now)
    ensures UniqueCodes(now[id := Some(code)])
  {
    forall i | i in now && now[i].Some? ensures now[i].value != code {
      assert now[i].value in InUse(now);
    }
  }

  lemma NextRowIsUncoded(before: Codes, rows: seq<nat>, m: nat)
    requires IsUncodedList(before, rows) && m < |rows|
    ensures rows[m] in before && before[rows[m]].None?
    ensures rows[m] !in rows[..m] && forall k :: 0 <= k < m ==> rows[k] != rows[m]
  {
    assert rows[m] in rows && rows[m] in Uncoded(before);
  }

  lemma NextRow(before: Codes, now: Codes, rows: seq<nat>, m: nat, prefix: string)
    requires IsUncodedList(before, rows) && m < |rows| && Numbered(before, now, rows, m, prefix)
    ensures rows[m] in now && now[rows[m]].None?
    ensures Numbered(before, now[rows[m] := Some(Code(prefix, MaxNumber(prefix, InUse(before)) + m + 1))], rows, m + 1,
                     prefix)
  {
    hide Code, MaxNumber, InUse, IsUncodedList, Uncoded, AscendingIds;
    NextRowIsUncoded(before, rows, m);
    NextRowRest(before, now, rows, m, Some(Code(prefix, MaxNumber(prefix, InUse(before)) + m + 1)));
  }

  lemma NextRowRest(before: Codes, now: Codes, rows: seq<nat>, m: nat, code: Option<string>)
    requires m < |rows| && now.Keys == before.Keys
    requires forall id :: id in before && id !in rows[..m] ==> now[id] == before[id]
    ensures forall id :: id in before && id !in rows[..m + 1] ==> now[rows[m] := code][id] == before[id]
  {
    assert rows[..m + 1] == rows[..m] + [rows[m]];
  }

  /** One round of the loop. */
  lemma NumberedStep(before: Codes, now: Codes, rows: seq<nat>, m: nat, prefix: string)
    requires IsUncodedList(before, rows) && m < |rows|
    requires Numbered(before, now, rows, m, prefix) && UniqueCodes(now)
    requires MaxNumber(prefix, InUse(now)) == MaxNumber(prefix, InUse(before)) + m
    ensures
      var next := now[rows[m] := Some(Code(prefix, MaxNumber(prefix, InUse(now)) + 1))];
      && rows[m] in now
      && Numbered(before, next, rows, m + 1, prefix) && UniqueCodes(next)
      && MaxNumber(prefix, InUse(next)) == MaxNumber(prefix, InUse(before)) + m + 1
  {
    hide Code, MaxNumber, InUse, Numbered, UniqueCodes, IsUncodedList;
    var code := Code(prefix, MaxNumber(prefix, InUse(now)) + 1);
    NextRow(before, now, rows, m, prefix);
    NextCodeIsNew(prefix, InUse(now), MaxNumber(prefix, InUse(now)) + 1);
    InUseAfter(now, rows[m], code);
    UniqueAfter(now, rows[m], code);
  }

  lemma NothingNumbered(codes: Codes, rows: seq<nat>, prefix: string)
    ensures Numbered(codes, codes, rows, 0, prefix)
  {
  }

  class Table {
    var codes: Codes

    constructor (codes: Codes)
      ensures this.codes == codes
    {
      this.codes := codes;
    }

    /** `ORDER BY id`: the ids without a code, smallest first. */
    method SelectUncoded() returns (rows: seq<nat>)
      ensures IsUncodedList(codes, rows)
      ensures forall id :: id in rows <==> id in codes && codes[id].None?
    {
      rows := [];
      var rest := Uncoded(codes);
      while rest != {}
        invariant AscendingIds(rows)
        invariant forall id :: id in Uncoded(codes) <==> id in rows || id in rest
        invariant forall a, b :: a in rows && b in rest ==> a < b
        decreases rest
      {
        var least := Least(rest);
        forall i | 0 <= i < |rows| ensures rows[i] < least {
          assert rows[i] in rows;
        }
        rows := rows + [least];
        rest := rest - {least};
      }
    }

    static method Least(ids: set<nat>) returns (least: nat)
      requires ids != {}
      ensures least in ids && forall id :: id in ids ==> least <= id
    {
      least :| least in ids;
      var rest := ids - {least};
      while rest != {}
        invariant least in ids && forall id :: id in ids && id !in rest ==> least <= id
        decreases rest
      {
        var id :| id in rest;
        if id < least {
          least := id;
        }
        rest := rest - {id};
      }
    }

    /**
     The query for the highest code: among equal numbers any row may come first. It fails when a well-formed code
     does not fit an integer.
     */
    method Highest(prefix: string) returns (r: Result<Option<string>, ()>)
      ensures r.Failure? <==> MaxNumber(prefix, InUse(codes)) > INT_MAX
      ensures r.Success? && r.value.None? ==> MaxNumber(prefix, InUse(codes)) == 0
      ensures r.Success? && r.value.Some? ==>
                WellFormed(prefix, r.value.value) && NumberOf(prefix, r.value.value) == MaxNumber(prefix, InUse(codes))
    {
      var best: Option<string> := None;
      var rest := InUse(codes);
      ghost var seen: set<string> := {};
      while rest != {}
        invariant seen + rest == InUse(codes)
        invariant best.Some? ==> best.value in seen && WellFormed(prefix, best.value)
        invariant forall c :: c in seen && WellFormed(prefix, c) ==>
                    best.Some? && NumberOf(prefix, c) <= NumberOf(prefix, best.value)
        decreases rest
      {
        var c :| c in rest;
        if WellFormed(prefix, c) && (best.None? || NumberOf(prefix, c) > NumberOf(prefix, best.value)) {
          best := Some(c);
        }
        rest, seen := rest - {c}, seen + {c};
      }
      assert seen == InUse(codes);
      MaxUnique(prefix, InUse(codes), if best.Some? then NumberOf(prefix, best.value) else 0);
      if best.Some? && NumberOf(prefix, best.value) > INT_MAX {
        return Failure(());
      }
      r := Success(best);
    }

    /** No result means that a query threw; the rows written so far stay. */
    method BackfillCodes(prefix: string) returns (updated: Option<nat>, ghost rows: seq<nat>)
      requires UniqueCodes(codes) && prefix in PREFIXES
      modifies this
      ensures IsUncodedList(old(codes), rows)
      ensures Numbered(old(codes), codes, rows, Capacity(prefix, old(codes), |rows|), prefix)
      ensures UniqueCodes(codes)
      ensures updated == if Capacity(prefix, old(codes), |rows|) == |rows| then Some(|rows|) else None
    {
      hide Numbered, UniqueCodes, IsUncodedList, Code, InUse, MaxNumber, WellFormed, NumberOf, Slice, AllDigits, Parse;
      var selected := SelectUncoded();
      NothingNumbered(codes, selected, prefix);
      rows := selected;
      ghost var max0 := MaxNumber(prefix, InUse(codes));
      for k := 0 to |selected|
        invariant Numbered(old(codes), codes, rows, k, prefix) && UniqueCodes(codes)
        invariant MaxNumber(prefix, InUse(codes)) == max0 + k
        invariant k > 0 ==> max0 + k - 1 <= INT_MAX
      {
        var highest := Highest(prefix);
        if highest.Failure? {
          return None, rows;
        }
        var nextNumber := 1;
        if highest.value.Some? {
          SliceIsNumber(prefix, highest.value.value);
          nextNumber := Parse(Slice(highest.value.value, |prefix| + 1)) + 1;
        }
        NumberedStep(old(codes), codes, rows, k, prefix);
        CodeFits(prefix, nextNumber);
        codes := codes[selected[k] := Some(Code(prefix, nextNumber))];
      }
      updated := Some(|selected|);
    }
  }

  /** After a complete backfill no row is left without a code, so a second run selects nothing and changes nothing. */
  lemma SecondRunDoesNothing(before: Codes, after: Codes, rows: seq<nat>, prefix: string, rows': seq<nat>,
                             after': Codes)
    requires IsUncodedList(before, rows) && Numbered(before, after, rows, |rows|, prefix)
    requires IsUncodedList(after, rows') && Numbered(after, after', rows', |rows'|, prefix)
    ensures rows' == [] && after' == after
  {
    assert rows[..|rows|] == rows;
    forall id | id in after ensures after[id].Some? {
      if id in rows {
        var k :| 0 <= k < |rows| && rows[k] == id;
      } else {
        assert id !in Uncoded(before);
      }
    }
    assert Uncoded(after) == {};
    NoneListed(after, rows');
  }

  lemma HasMember(rows: seq<nat>)
    requires rows != []
    ensures exists id :: id in rows
  {
    assert rows[0] in rows;
  }

  lemma NoneListed(codes: Codes, rows: seq<nat>)
    requires Uncoded(codes) == {} && IsUncodedList(codes, rows)
    ensures rows == []
  {
    if rows != [] {
      HasMember(rows);
    }
  }

  // ----- The 32-bit range

  /**
   An input at which the backfill stops part-way: with the largest 32-bit number in use the next row still gets
   the number after it, which no later query can cast, and the row after that gets none.
   */
  lemma BackfillStopsAtTheIntegerRange(after: Codes)
    ensures
      var codes: Codes := map[1 := Some(Code("US", INT_MAX)), 2 := None, 3 := None];
      && UniqueCodes(codes) && IsUncodedList(codes, [2, 3]) && Capacity("US", codes, 2) == 1
      && (Numbered(codes, after, [2, 3], 1, "US") ==>
            3 in after && after[3].None? && after[2] == Some(Code("US", INT_MAX + 1)))
  {
    hide Code, WellFormed, NumberOf, MaxNumber;
    var codes: Codes := map[1 := Some(Code("US", INT_MAX)), 2 := None, 3 := None];
    CodeRoundTrip("US", INT_MAX);
    assert codes[1].value == Code("US", INT_MAX);
    assert InUse(codes) == {Code("US", INT_MAX)};
    MaxUnique("US", InUse(codes), INT_MAX);
    assert [2, 3][..1] == [2];
  }
}
