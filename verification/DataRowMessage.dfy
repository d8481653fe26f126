/** data_row.go: one result row. Decode reuses the destination's backing storage, so the proof has to show that
    nothing of an earlier row survives. */
module DataRowMessage {
  import opened Options
  import opened WireBytes
  import opened Framing
  import opened WireLoops

  /** A body is read as `values` exactly when the encoding of `values` starts it; NULL and the empty value stay apart
      because they are different cells. */
  lemma Exact(s: bytes, values: seq<Cell>)
    ensures (ParseCountedCells(s).Done? && ParseCountedCells(s).value == values) <==>
            |values| <= MAX_UINT16 && CellsFit(values) && PutCountedCells(values) <= s
  {
    var p := ParseCountedCells(s);
    if p.Done? && p.value == values {
      CountedCellsExact(s, values, p.rest);
    }
    if |values| <= MAX_UINT16 && CellsFit(values) && PutCountedCells(values) <= s {
      var n := |PutCountedCells(values)|;
      CountedCellsExact(s, values, s[n..]);
      assert s == PutCountedCells(values) + s[n..];
    }
  }

  /** Every row that encodes at all decodes to itself. */
  lemma RoundTrip(values: seq<Cell>)
    requires |values| <= MAX_UINT16 && Framed([], 'D' as int, PutCountedCells(values)).Encoded?
    ensures ParseCountedCells(PutCountedCells(values)) == Done(values, [])
  {
    assert CellsFit(values) by {
      assert |PutCells(values)| <= |PutCountedCells(values)|;
      ShortCellsFit(values);
    }
    assert PutCountedCells(values) + [] == PutCountedCells(values);
    CountedCellsExact(PutCountedCells(values), values, []);
  }

  class DataRow {
    var store: array<Cell> // the storage behind the Values slice; its length is the slice's capacity
    var len: nat

    ghost predicate Valid()
      reads this
    {
      len <= store.Length
    }

    ghost function Values(): seq<Cell>
      requires Valid()
      reads this, store
    {
      store[..len]
    }

    constructor ()
      ensures Valid() && Values() == [] && fresh(store)
    {
      store := new Cell[0];
      len := 0;
    }

    method Decode(src: bytes) returns (ok: bool)
      requires Valid()
      modifies this, store
      ensures Valid() && (store == old(store) || fresh(store))
      ensures ok <==> ParseCountedCells(src).Done?
      ensures ok ==> Values() == ParseCountedCells(src).value
    {
      if |src| < 2 { return false; }
      var fieldCount := Uint16(src);
      var rp := 2;
      if store.Length < fieldCount || store.Length - fieldCount > 32 {
        var newCap := if 32 < fieldCount then fieldCount else 32;
        store := new Cell[newCap](_ => None);
      }
      len := fieldCount;
      ok := Fill(src, rp);
    }

    /** The field loop. Every slot up to the field count is written before the row is reported. */
    method Fill(src: bytes, rp0: nat) returns (ok: bool)
      requires Valid() && rp0 <= |src|
      modifies store
      ensures ok <==> ParseCells(len, src[rp0..]).Done?
      ensures ok ==> Values() == ParseCells(len, src[rp0..]).value
    {
      hide PutCell, ParseCell;
      var rp := rp0;
      for i := 0 to len
        invariant rp0 <= rp <= |src|
        invariant CellsFit(store[..i]) && src[rp0..] == PutCells(store[..i]) + src[rp..]
      {
        ghost var done := store[..i];
        var p, next := DecodeCell(src, rp);
        if !p.Done? {
          CellsFailAt(done, len, src[rp0..], src[rp..]);
          return false;
        }
        AppendCell(done, p.value, src[rp0..], src[rp..], src[next..]);
        store[i] := p.value;
        assert store[..i + 1] == done + [p.value];
        rp := next;
      }
      CellsExact(len, src[rp0..], store[..len], src[rp..]);
      ok := true;
    }

    method Encode(dst: bytes) returns (r: EncodeResult)
      requires Valid()
      ensures r == if |Values()| > MAX_UINT16 then TooMany else Framed(dst, 'D' as int, PutCountedCells(Values()))
    {
      var buf, sp := BeginMessage(dst, 'D' as int);
      if len > MAX_UINT16 { return TooMany; }
      buf := AppendCells(buf, store[..len]);
      r := FinishFrame(buf, sp, dst, 'D' as int, PutCountedCells(store[..len]));
    }
  }
}
