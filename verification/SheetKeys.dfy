/**
 The string keys of the in-memory store's `cells` and `access` maps, and the way
 they are read back: a `startsWith` scan, then `split(":")` and `Number`.
 */
module SheetKeys {
  import opened Decimal

  datatype Pos = Pos(r: nat, c: nat)

  function CellKey(worksheetId: nat, pos: Pos): string {
    Print(worksheetId) + ":" + Print(pos.r) + ":" + Print(pos.c)
  }

  function AccessKey(sheetId: nat, userId: nat): string {
    Print(sheetId) + ":" + Print(userId)
  }

  /** The prefix a scan looks for: all cells of a worksheet, or all grants of a sheet. */
  function ScanPrefix(id: nat): string {
    Print(id) + ":"
  }

  predicate StartsWith(s: string, prefix: string) {
    prefix <= s
  }

  function Split(s: string, separator: char): (parts: seq<string>)
    ensures |parts| >= 1
  {
    if s == [] then [[]]
    else
      var rest := Split(s[1..], separator);
      if s[0] == separator then [[]] + rest else [[s[0]] + rest[0]] + rest[1..]
  }

  /** `Number(text)`. Text that is not all digits would give NaN; it never gets here (see `CellKeyDecodes`). */
  function Number(text: string): nat {
    if AllDigits(text) then Parse(text) else 0
  }

  /** The destructuring `const [, r, c] = key.split(":")`. */
  function DecodePos(key: string): Pos {
    var parts := Split(key, ':');
    if |parts| >= 3 then Pos(Number(parts[1]), Number(parts[2])) else Pos(0, 0)
  }

  /** `Number(key.split(":")[1])`. */
  function DecodeUser(key: string): nat {
    var parts := Split(key, ':');
    if |parts| >= 2 then Number(parts[1]) else 0
  }

  lemma {:induction false} SplitOnce(a: string, rest: string)
    requires AllDigits(a)
    ensures Split(a + ":" + rest, ':') == [a] + Split(rest, ':')
  {
    var s := a + ":" + rest;
    if a == [] {
      assert s[1..] == rest;
    } else {
      assert s[1..] == a[1..] + ":" + rest;
      SplitOnce(a[1..], rest);
      assert a == [a[0]] + a[1..];
    }
  }

  lemma {:induction false} SplitNone(a: string)
    requires AllDigits(a)
    ensures Split(a, ':') == [a]
  {
    if a != [] {
      SplitNone(a[1..]);
      assert a == [a[0]] + a[1..];
    }
  }

  lemma CellKeyParts(w: nat, pos: Pos)
    ensures Split(CellKey(w, pos), ':') == [Print(w), Print(pos.r), Print(pos.c)]
  {
    assert CellKey(w, pos) == Print(w) + ":" + (Print(pos.r) + ":" + Print(pos.c));
    SplitOnce(Print(w), Print(pos.r) + ":" + Print(pos.c));
    SplitOnce(Print(pos.r), Print(pos.c));
    SplitNone(Print(pos.c));
  }

  lemma AccessKeyParts(sheetId: nat, userId: nat)
    ensures Split(AccessKey(sheetId, userId), ':') == [Print(sheetId), Print(userId)]
  {
    SplitOnce(Print(sheetId), Print(userId));
    SplitNone(Print(userId));
  }

  /** Decoding a cell key gives back its coordinates. */
  lemma CellKeyDecodes(w: nat, pos: Pos)
    ensures DecodePos(CellKey(w, pos)) == pos
  {
    CellKeyParts(w, pos);
    ParsePrint(pos.r);
    ParsePrint(pos.c);
  }

  lemma AccessKeyDecodes(sheetId: nat, userId: nat)
    ensures DecodeUser(AccessKey(sheetId, userId)) == userId
  {
    AccessKeyParts(sheetId, userId);
    ParsePrint(userId);
  }

  /** No two cells share a key, for any worksheet ids and coordinates. */
  lemma CellKeyInjective(w: nat, pos: Pos, w': nat, pos': Pos)
    ensures CellKey(w, pos) == CellKey(w', pos') <==> w == w' && pos == pos'
  {
    if CellKey(w, pos) == CellKey(w', pos') {
      CellKeyDecodes(w, pos);
      CellKeyDecodes(w', pos');
      CellKeyParts(w, pos);
      CellKeyParts(w', pos');
      PrintInjective(w, w');
    }
  }

  lemma AccessKeyInjective(s: nat, u: nat, s': nat, u': nat)
    ensures AccessKey(s, u) == AccessKey(s', u') <==> s == s' && u == u'
  {
    if AccessKey(s, u) == AccessKey(s', u') {
      AccessKeyDecodes(s, u);
      AccessKeyDecodes(s', u');
      AccessKeyParts(s, u);
      AccessKeyParts(s', u');
      PrintInjective(s, s');
    }
  }

  lemma ScanFirstPart(id: nat, key: string)
    requires StartsWith(key, ScanPrefix(id))
    ensures Split(key, ':')[0] == Print(id)
  {
    var rest := key[|ScanPrefix(id)|..];
    assert key == Print(id) + ":" + rest;
    SplitOnce(Print(id), rest);
  }

  /** The cell scan for one worksheet matches that worksheet's keys only: id 1 does not pick up id 11. */
  lemma CellScan(id: nat, w: nat, pos: Pos)
    ensures StartsWith(CellKey(w, pos), ScanPrefix(id)) <==> id == w
  {
    assert CellKey(w, pos) == ScanPrefix(w) + (Print(pos.r) + ":" + Print(pos.c));
    if StartsWith(CellKey(w, pos), ScanPrefix(id)) {
      ScanFirstPart(id, CellKey(w, pos));
      CellKeyParts(w, pos);
      PrintInjective(id, w);
    }
  }

  lemma AccessScan(id: nat, sheetId: nat, userId: nat)
    ensures StartsWith(AccessKey(sheetId, userId), ScanPrefix(id)) <==> id == sheetId
  {
    assert AccessKey(sheetId, userId) == ScanPrefix(sheetId) + Print(userId);
    if StartsWith(AccessKey(sheetId, userId), ScanPrefix(id)) {
      ScanFirstPart(id, AccessKey(sheetId, userId));
      AccessKeyParts(sheetId, userId);
      PrintInjective(id, sheetId);
    }
  }
}
