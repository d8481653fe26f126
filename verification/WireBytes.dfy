/** The byte-level vocabulary of the PostgreSQL wire codec: big-endian integers, NUL-terminated strings and
    length-prefixed optional values. Every parser below is characterised exactly by the encoder it undoes:
    it answers `Done(v, rest)` if and only if the input is the encoding of `v` followed by `rest`. */
module WireBytes {
  import opened Options

  type byte = x: int | 0 <= x < 0x100
  type uint16 = x: int | 0 <= x < 0x1_0000
  type int16 = x: int | -0x8000 <= x < 0x8000
  type uint32 = x: int | 0 <= x < 0x1_0000_0000
  type int32 = x: int | -0x8000_0000 <= x < 0x8000_0000
  type bytes = seq<byte>

  /** Outcome of consuming a prefix of a message body. `NegativeLength` is a length prefix below -1, which the
      message decoders treat differently. */
  datatype Parsed<+T> = Done(value: T, rest: bytes) | Malformed | NegativeLength {
    predicate IsFailure() { !Done? }
    function PropagateFailure<U>(): Parsed<U>
      requires !Done?
    {
      if Malformed? then Malformed else NegativeLength
    }
    function Extract(): (T, bytes)
      requires Done?
    {
      (value, rest)
    }
  }

  // ---------- big-endian integers ----------

  function PutUint16(n: uint16): (r: bytes)
    ensures |r| == 2
  {
    [n / 0x100, n % 0x100]
  }

  function Uint16(s: bytes): (n: uint16)
    requires 2 <= |s|
    ensures PutUint16(n) == s[..2]
  {
    s[0] as int * 0x100 + s[1]
  }

  function PutUint32(n: uint32): (r: bytes)
    ensures |r| == 4
  {
    [n / 0x100_0000, n / 0x1_0000 % 0x100, n / 0x100 % 0x100, n % 0x100]
  }

  function Uint32(s: bytes): (n: uint32)
    requires 4 <= |s|
    ensures PutUint32(n) == s[..4]
  {
    var n := s[0] as int * 0x100_0000 + s[1] as int * 0x1_0000 + s[2] as int * 0x100 + s[3];
    assert n / 0x1_0000 == s[0] as int * 0x100 + s[1];
    assert n / 0x100 == s[0] as int * 0x1_0000 + s[1] as int * 0x100 + s[2];
    n
  }

  // Reinterpretation of the same bits, as the conversions between signed and unsigned integers do.
  function Unsigned16(n: int16): uint16 { if n < 0 then n + 0x1_0000 else n }
  function Signed16(n: uint16): int16 { if n < 0x8000 then n else n - 0x1_0000 }
  function Unsigned32(n: int32): uint32 { if n < 0 then n + 0x1_0000_0000 else n }
  function Signed32(n: uint32): int32 { if n < 0x8000_0000 then n else n - 0x1_0000_0000 }

  /** The conversion of a length to a 32-bit signed integer keeps the low 32 bits. */
  function TruncateInt32(n: nat): int32 { Signed32(n % 0x1_0000_0000) }

  function PutInt16(n: int16): (r: bytes) ensures |r| == 2 { PutUint16(Unsigned16(n)) }
  function Int16(s: bytes): (n: int16)
    requires 2 <= |s|
    ensures PutInt16(n) == s[..2]
  {
    Signed16(Uint16(s))
  }
  function PutInt32(n: int32): (r: bytes) ensures |r| == 4 { PutUint32(Unsigned32(n)) }
  function Int32(s: bytes): (n: int32)
    requires 4 <= |s|
    ensures PutInt32(n) == s[..4]
  {
    Signed32(Uint32(s))
  }

  lemma Uint32Cancels(n: uint32, s: bytes)
    ensures Uint32(PutUint32(n) + s) == n
  {
    var t := PutUint32(n) + s;
    assert t[0] == n / 0x100_0000 && t[1] == n / 0x1_0000 % 0x100 && t[2] == n / 0x100 % 0x100 && t[3] == n % 0x100;
    assert n / 0x1_0000 == (n / 0x100) / 0x100 && n / 0x100_0000 == (n / 0x1_0000) / 0x100;
  }

  lemma Uint16Exact(s: bytes, n: uint16, rest: bytes)
    ensures 2 <= |s| && Uint16(s) == n && s[2..] == rest <==> s == PutUint16(n) + rest
  {
    if 2 <= |s| {
      assert s == s[..2] + s[2..];
    }
    if s == PutUint16(n) + rest {
      assert s[2..] == rest;
    }
  }

  lemma Int16Exact(s: bytes, n: int16, rest: bytes)
    ensures 2 <= |s| && Int16(s) == n && s[2..] == rest <==> s == PutInt16(n) + rest
  {
    Uint16Exact(s, Unsigned16(n), rest);
  }

  lemma Uint32Exact(s: bytes, n: uint32, rest: bytes)
    ensures 4 <= |s| && Uint32(s) == n && s[4..] == rest <==> s == PutUint32(n) + rest
  {
    if 4 <= |s| {
      assert s == s[..4] + s[4..];
    }
    if s == PutUint32(n) + rest {
      Uint32Cancels(n, rest);
      assert s[4..] == rest;
    }
  }

  lemma Int32Exact(s: bytes, n: int32, rest: bytes)
    ensures 4 <= |s| && Int32(s) == n && s[4..] == rest <==> s == PutInt32(n) + rest
  {
    Uint32Exact(s, Unsigned32(n), rest);
  }

  // ---------- NUL-terminated strings ----------

  predicate NulFree(s: bytes) { 0 !in s }

  /** Position of the first NUL, or -1. */
  function IndexNul(s: bytes): (i: int)
    ensures -1 <= i < |s|
    ensures i == -1 <==> NulFree(s)
    ensures 0 <= i ==> s[i] == 0 && NulFree(s[..i])
  {
    if s == [] then -1
    else if s[0] == 0 then 0
    else
      var i := IndexNul(s[1..]);
      assert s == [s[0]] + s[1..];
      assert 0 <= i ==> s[..i + 1] == [s[0]] + s[1..][..i];
      if i < 0 then -1 else i + 1
  }

  function PutCString(v: bytes): bytes { v + [0] }

  function ParseCString(s: bytes): Parsed<bytes> {
    var i := IndexNul(s);
    if i < 0 then Malformed else Done(s[..i], s[i + 1..])
  }

  lemma CStringExact(s: bytes, v: bytes, rest: bytes)
    ensures ParseCString(s) == Done(v, rest) <==> NulFree(v) && s == PutCString(v) + rest
  {
    var i := IndexNul(s);
    if 0 <= i {
      assert s == s[..i] + [0] + s[i + 1..];
    }
    if NulFree(v) && s == PutCString(v) + rest {
      assert s[|v|] == 0;
      assert s[..|v|] == v && s[|v| + 1..] == rest;
      assert forall k :: 0 <= k < |v| ==> s[k] == v[k] != 0;
      assert forall k :: 0 <= k < i ==> s[..i][k] == s[k] != 0;
    }
  }

  // ---------- counted lists of 16-bit integers ----------

  function PutInt16s(codes: seq<int16>): (r: bytes)
    ensures |r| == 2 * |codes|
  {
    if codes == [] then [] else PutInt16(codes[0]) + PutInt16s(codes[1..])
  }

  function ParseInt16s(n: nat, s: bytes): Parsed<seq<int16>> {
    if n == 0 then Done([], s)
    else if |s| < 2 then Malformed
    else
      var (codes, rest) :- ParseInt16s(n - 1, s[2..]);
      Done([Int16(s)] + codes, rest)
  }

  lemma {:induction false} Int16sExact(n: nat, s: bytes, codes: seq<int16>, rest: bytes)
    ensures ParseInt16s(n, s) == Done(codes, rest) <==> |codes| == n && s == PutInt16s(codes) + rest
  {
    if n == 0 {
    } else if codes == [] {
    } else {
      var tail := codes[1..];
      var after := PutInt16s(tail) + rest;
      Int16Exact(s, codes[0], after);
      assert PutInt16s(codes) + rest == PutInt16(codes[0]) + after;
      if 2 <= |s| {
        Int16sExact(n - 1, s[2..], tail, rest);
        assert codes == [codes[0]] + tail;
      }
    }
  }

  // ---------- optional values behind a signed length ----------

  type Cell = Option<bytes>

  function PutCell(c: Cell): bytes {
    match c
    case None => PutInt32(-1)
    case Some(v) => PutInt32(TruncateInt32(|v|)) + v
  }

  predicate CellFits(c: Cell) { c.Some? ==> |c.value| < 0x8000_0000 }

  function ParseCell(s: bytes): Parsed<Cell> {
    if |s| < 4 then Malformed
    else
      var size := Int32(s);
      if size < -1 then NegativeLength
      else if size == -1 then Done(None, s[4..])
      else if |s[4..]| < size then Malformed
      else Done(Some(s[4..4 + size]), s[4 + size..])
  }

  lemma CellSound(s: bytes)
    requires ParseCell(s).Done?
    ensures CellFits(ParseCell(s).value) && s == PutCell(ParseCell(s).value) + ParseCell(s).rest
  {
    hide PutInt32, Int32;
    var size := Int32(s);
    Int32Exact(s, size, s[4..]);
    if size != -1 {
      var v, rest := s[4..4 + size], s[4 + size..];
      assert s[4..] == v + rest;
      Regroup(PutInt32(size), v, rest);
    }
  }

  lemma CellComplete(c: Cell, rest: bytes)
    requires CellFits(c)
    ensures ParseCell(PutCell(c) + rest) == Done(c, rest)
  {
    hide PutInt32, Int32;
    var s := PutCell(c) + rest;
    match c {
      case None => Int32Exact(s, -1, rest);
      case Some(v) =>
        Regroup(PutInt32(|v|), v, rest);
        Int32Exact(s, |v|, v + rest);
        assert s[4..4 + |v|] == s[4..][..|v|] == v;
        assert s[4 + |v|..] == s[4..][|v|..] == rest;
    }
  }

  lemma CellExact(s: bytes, c: Cell, rest: bytes)
    ensures ParseCell(s) == Done(c, rest) <==> CellFits(c) && s == PutCell(c) + rest
  {
    hide PutCell, ParseCell;
    if ParseCell(s).Done? { CellSound(s); }
    if CellFits(c) { CellComplete(c, rest); }
  }

  function PutCells(cs: seq<Cell>): bytes {
    if cs == [] then [] else PutCell(cs[0]) + PutCells(cs[1..])
  }

  ghost predicate CellsFit(cs: seq<Cell>) { forall i :: 0 <= i < |cs| ==> CellFits(cs[i]) }

  function ParseCells(n: nat, s: bytes): Parsed<seq<Cell>> {
    if n == 0 then Done([], s)
    else
      var (c, s) :- ParseCell(s);
      var (cs, rest) :- ParseCells(n - 1, s);
      Done([c] + cs, rest)
  }

  lemma PutCellsCons(c: Cell, cs: seq<Cell>, rest: bytes)
    requires CellFits(c) && CellsFit(cs)
    ensures CellsFit([c] + cs) && PutCells([c] + cs) + rest == PutCell(c) + (PutCells(cs) + rest)
  {
    assert ([c] + cs)[1..] == cs;
  }

  lemma {:induction false} CellsSound(n: nat, s: bytes)
    ensures match ParseCells(n, s)
            case Done(cs, rest) => |cs| == n && CellsFit(cs) && s == PutCells(cs) + rest
            case _ => true
  {
    if n != 0 {
      match ParseCell(s) {
        case Done(c, r) =>
          CellExact(s, c, r);
          CellsSound(n - 1, r);
          match ParseCells(n - 1, r) {
            case Done(cs, rest) => PutCellsCons(c, cs, rest);
            case _ =>
          }
        case _ =>
      }
    }
  }

  lemma Regroup(a: bytes, b: bytes, c: bytes)
    ensures a + b + c == a + (b + c)
  {
  }

  lemma ParseCellsStep(s: bytes, c: Cell, after: bytes, cs: seq<Cell>, rest: bytes)
    requires CellFits(c) && s == PutCell(c) + after && ParseCells(|cs|, after) == Done(cs, rest)
    ensures ParseCells(|cs| + 1, s) == Done([c] + cs, rest)
  {
    CellExact(s, c, after);
  }

  lemma {:induction false} CellsComplete(cs: seq<Cell>, rest: bytes)
    requires CellsFit(cs)
    ensures ParseCells(|cs|, PutCells(cs) + rest) == Done(cs, rest)
  {
    if cs == [] {
      assert PutCells(cs) + rest == rest;
    } else {
      CellsComplete(cs[1..], rest);
      Regroup(PutCell(cs[0]), PutCells(cs[1..]), rest);
      ParseCellsStep(PutCells(cs) + rest, cs[0], PutCells(cs[1..]) + rest, cs[1..], rest);
      assert cs == [cs[0]] + cs[1..];
    }
  }

  lemma CellsExact(n: nat, s: bytes, cs: seq<Cell>, rest: bytes)
    ensures ParseCells(n, s) == Done(cs, rest) <==> |cs| == n && CellsFit(cs) && s == PutCells(cs) + rest
  {
    CellsSound(n, s);
    if CellsFit(cs) { CellsComplete(cs, rest); }
  }

  /** A list whose encoding is short holds only short values. */
  lemma {:induction false} ShortCellsFit(cs: seq<Cell>)
    requires |PutCells(cs)| < 0x8000_0000
    ensures CellsFit(cs)
  {
    if cs != [] {
      ShortCellsFit(cs[1..]);
      forall i | 0 <= i < |cs| ensures CellFits(cs[i]) {
        if 0 < i { assert cs[i] == cs[1..][i - 1]; }
      }
    }
  }

  // ---------- lists behind a 16-bit count ----------

  const MAX_UINT16 := 0xffff

  function PutCounted16(codes: seq<int16>): bytes
    requires |codes| <= MAX_UINT16
  {
    PutUint16(|codes|) + PutInt16s(codes)
  }

  function ParseCounted16(s: bytes): Parsed<seq<int16>> {
    if |s| < 2 then Malformed else ParseInt16s(Uint16(s), s[2..])
  }

  lemma Counted16Exact(s: bytes, codes: seq<int16>, rest: bytes)
    ensures ParseCounted16(s) == Done(codes, rest) <==> |codes| <= MAX_UINT16 && s == PutCounted16(codes) + rest
  {
    if |codes| <= MAX_UINT16 {
      Uint16Exact(s, |codes|, PutInt16s(codes) + rest);
      Regroup(PutUint16(|codes|), PutInt16s(codes), rest);
    }
    if 2 <= |s| {
      Int16sExact(Uint16(s), s[2..], codes, rest);
    }
  }

  function PutCountedCells(cs: seq<Cell>): bytes
    requires |cs| <= MAX_UINT16
  {
    PutUint16(|cs|) + PutCells(cs)
  }

  function ParseCountedCells(s: bytes): Parsed<seq<Cell>> {
    if |s| < 2 then Malformed else ParseCells(Uint16(s), s[2..])
  }

  lemma CountedCellsExact(s: bytes, cs: seq<Cell>, rest: bytes)
    ensures ParseCountedCells(s) == Done(cs, rest) <==>
            |cs| <= MAX_UINT16 && CellsFit(cs) && s == PutCountedCells(cs) + rest
  {
    if |cs| <= MAX_UINT16 {
      Uint16Exact(s, |cs|, PutCells(cs) + rest);
      Regroup(PutUint16(|cs|), PutCells(cs), rest);
    }
    if 2 <= |s| {
      CellsExact(Uint16(s), s[2..], cs, rest);
    }
  }

  // ---------- what a decoding loop knows part way through a list ----------

  lemma {:induction false} ShortInt16s(n: nat, s: bytes)
    requires |s| < 2 * n
    ensures ParseInt16s(n, s) == Malformed
  {
    if 2 <= |s| { ShortInt16s(n - 1, s[2..]); }
  }

  lemma ParseCellsFails(s: bytes, c: Cell, after: bytes, n: nat)
    requires CellFits(c) && s == PutCell(c) + after && !ParseCells(n, after).Done?
    ensures ParseCells(n + 1, s) == ParseCells(n, after)
  {
    CellExact(s, c, after);
  }

  /** After reading `done` off the front of `s`, a bad next cell decides the whole list. */
  lemma {:induction false} CellsFailAt(done: seq<Cell>, n: nat, s: bytes, s': bytes)
    requires |done| < n && CellsFit(done) && s == PutCells(done) + s' && !ParseCell(s').Done?
    ensures ParseCells(n, s) == ParseCell(s').PropagateFailure()
  {
    hide PutCell, ParseCell;
    if done == [] {
      assert s == s';
    } else {
      Regroup(PutCell(done[0]), PutCells(done[1..]), s');
      CellsFailAt(done[1..], n - 1, PutCells(done[1..]) + s', s');
      ParseCellsFails(s, done[0], PutCells(done[1..]) + s', n - 1);
    }
  }

  lemma CellNegative(s: bytes, size: int32, rest: bytes)
    requires size < -1
    ensures s == PutInt32(size) + rest ==> ParseCell(s) == NegativeLength
    ensures ParseCell(s).NegativeLength? ==> |s| >= 4 && Int32(s) < -1 && s == PutInt32(Int32(s)) + s[4..]
  {
    hide PutInt32, Int32;
    Int32Exact(s, size, rest);
    if 4 <= |s| { Int32Exact(s, Int32(s), s[4..]); }
  }

  /** In place of one of the n cells stands a length below -1. */
  ghost predicate NegativeAt(n: nat, s: bytes, done: seq<Cell>, size: int32, rest: bytes) {
    |done| < n && CellsFit(done) && size < -1 && s == PutCells(done) + (PutInt32(size) + rest)
  }

  lemma {:induction false} FindNegative(n: nat, s: bytes) returns (done: seq<Cell>, size: int32, rest: bytes)
    requires ParseCells(n, s).NegativeLength?
    ensures NegativeAt(n, s, done, size, rest)
  {
    hide PutInt32, Int32, PutCell;
    if ParseCell(s).NegativeLength? {
      CellNegative(s, -2, []);
      done, size, rest := [], Int32(s), s[4..];
    } else {
      var c, after := ParseCell(s).value, ParseCell(s).rest;
      CellExact(s, c, after);
      var tail;
      tail, size, rest := FindNegative(n - 1, after);
      PutCellsCons(c, tail, PutInt32(size) + rest);
      done := [c] + tail;
    }
  }

  /** Reading a list meets a negative length exactly when its bytes are the encodings of fewer than n cells and then a
      length below -1. */
  lemma CellsNegative(n: nat, s: bytes)
    ensures ParseCells(n, s).NegativeLength? <==> exists done, size: int32, rest :: NegativeAt(n, s, done, size, rest)
  {
    hide PutInt32, PutCells, ParseCell, ParseCells;
    if ParseCells(n, s).NegativeLength? {
      var done, size, rest := FindNegative(n, s);
    }
    if done, size: int32, rest :| NegativeAt(n, s, done, size, rest) {
      CellNegative(PutInt32(size) + rest, size, rest);
      CellsFailAt(done, n, s, PutInt32(size) + rest);
    }
  }

  lemma {:induction false} Int16sNeverNegative(n: nat, s: bytes)
    ensures !ParseInt16s(n, s).NegativeLength?
  {
    if n != 0 && 2 <= |s| { Int16sNeverNegative(n - 1, s[2..]); }
  }

  // ---------- extending a list at its end, as the encoding loops do ----------

  lemma {:induction false} PutCellsSnoc(cs: seq<Cell>, c: Cell)
    ensures PutCells(cs + [c]) == PutCells(cs) + PutCell(c)
  {
    if cs == [] {
      assert [] + [c] == [c];
    } else {
      assert (cs + [c])[1..] == cs[1..] + [c];
      PutCellsSnoc(cs[1..], c);
    }
  }

  lemma {:induction false} PutInt16sSnoc(codes: seq<int16>, c: int16)
    ensures PutInt16s(codes + [c]) == PutInt16s(codes) + PutInt16(c)
  {
    if codes == [] {
      assert [] + [c] == [c];
    } else {
      assert (codes + [c])[1..] == codes[1..] + [c];
      PutInt16sSnoc(codes[1..], c);
    }
  }
}
