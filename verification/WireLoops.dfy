/** The cursor loops that several messages share: each reads or appends one element per iteration. */
module WireLoops {
  import opened Options
  import opened WireBytes

  method DecodeCString(src: bytes, rp0: nat) returns (ok: bool, v: bytes, rp: nat)
    requires rp0 <= |src|
    ensures ok ==> rp <= |src| && ParseCString(src[rp0..]) == Done(v, src[rp..])
    ensures !ok ==> ParseCString(src[rp0..]) == Malformed
  {
    var idx := IndexNul(src[rp0..]);
    if idx < 0 { return false, [], rp0; }
    v := src[rp0..rp0 + idx];
    rp := rp0 + (idx + 1);
    assert src[rp0..][..idx] == v && src[rp0..][idx + 1..] == src[rp..];
    ok := true;
  }

  method DecodeInt16s(src: bytes, rp0: nat, n: nat) returns (ok: bool, codes: seq<int16>, rp: nat)
    requires rp0 <= |src|
    ensures ok ==> rp <= |src| && ParseInt16s(n, src[rp0..]) == Done(codes, src[rp..])
    ensures !ok ==> ParseInt16s(n, src[rp0..]) == Malformed
  {
    codes, rp := [], rp0;
    if |src[rp..]| < n * 2 {
      ShortInt16s(n, src[rp..]);
      return false, codes, rp;
    }
    for i := 0 to n
      invariant |codes| == i && rp == rp0 + 2 * i
      invariant src[rp0..rp] == PutInt16s(codes)
    {
      var c := Int16(src[rp..]);
      PutInt16sSnoc(codes, c);
      assert src[rp0..rp + 2] == src[rp0..rp] + src[rp..][..2];
      codes := codes + [c];
      rp := rp + 2;
    }
    assert src[rp0..] == src[rp0..rp] + src[rp..];
    Int16sExact(n, src[rp0..], codes, src[rp..]);
    ok := true;
  }

  method DecodeCounted16(src: bytes, rp0: nat) returns (ok: bool, codes: seq<int16>, rp: nat)
    requires rp0 <= |src|
    ensures ok ==> rp <= |src| && ParseCounted16(src[rp0..]) == Done(codes, src[rp..])
    ensures !ok ==> ParseCounted16(src[rp0..]) == Malformed
  {
    if |src[rp0..]| < 2 { return false, [], rp0; }
    assert src[rp0..][2..] == src[rp0 + 2..];
    ok, codes, rp := DecodeInt16s(src, rp0 + 2, Uint16(src[rp0..]));
  }

  /** One length-prefixed value at the cursor. */
  method DecodeCell(src: bytes, rp0: nat) returns (p: Parsed<Cell>, rp: nat)
    requires rp0 <= |src|
    ensures p == ParseCell(src[rp0..])
    ensures p.Done? ==> rp0 <= rp <= |src| && p.rest == src[rp..]
  {
    hide Int32;
    rp := rp0;
    if |src[rp..]| < 4 { return Malformed, rp; }
    var size := Int32(src[rp..]);
    rp := rp + 4;
    assert src[rp0..][4..] == src[rp..];
    if size < -1 { return NegativeLength, rp; }
    if size == -1 { return Done(None, src[rp..]), rp; }
    if |src[rp..]| < size { return Malformed, rp; }
    assert src[rp0..][4..4 + size] == src[rp..rp + size] && src[rp0..][4 + size..] == src[rp + size..];
    return Done(Some(src[rp..rp + size]), src[rp + size..]), rp + size;
  }

  lemma AppendCell(cells: seq<Cell>, c: Cell, all: bytes, s: bytes, rest: bytes)
    requires CellsFit(cells) && all == PutCells(cells) + s && ParseCell(s) == Done(c, rest)
    ensures CellsFit(cells + [c]) && all == PutCells(cells + [c]) + rest
  {
    CellExact(s, c, rest);
    PutCellsSnoc(cells, c);
    Regroup(PutCells(cells), PutCell(c), rest);
  }

  method AppendCodes(dst: bytes, codes: seq<int16>) returns (buf: bytes)
    requires |codes| <= MAX_UINT16
    ensures buf == dst + PutCounted16(codes)
  {
    buf := dst + PutUint16(|codes|);
    ghost var start := buf;
    for i := 0 to |codes|
      invariant buf == start + PutInt16s(codes[..i])
    {
      PutInt16sSnoc(codes[..i], codes[i]);
      assert codes[..i + 1] == codes[..i] + [codes[i]];
      buf := buf + PutInt16(codes[i]);
    }
    assert codes[..|codes|] == codes;
  }

  method AppendCells(dst: bytes, cells: seq<Cell>) returns (buf: bytes)
    requires |cells| <= MAX_UINT16
    ensures buf == dst + PutCountedCells(cells)
  {
    hide PutCell, PutInt32;
    buf := dst + PutUint16(|cells|);
    ghost var start := buf;
    for i := 0 to |cells|
      invariant buf == start + PutCells(cells[..i])
    {
      PutCellsSnoc(cells[..i], cells[i]);
      assert cells[..i + 1] == cells[..i] + [cells[i]];
      Regroup(start, PutCells(cells[..i]), PutCell(cells[i]));
      buf := AppendOne(buf, cells[i]);
    }
    assert cells[..|cells|] == cells;
    Regroup(dst, PutUint16(|cells|), PutCells(cells));
  }

  method AppendOne(dst: bytes, cell: Cell) returns (buf: bytes)
    ensures buf == dst + PutCell(cell)
  {
    match cell {
      case None => buf := dst + PutInt32(-1);
      case Some(p) => buf := dst + PutInt32(TruncateInt32(|p|)) + p;
    }
  }
}
