/** error_response.go: a list of one-byte-tagged strings ending in a zero tag. Eighteen tags have named fields, three of
    them decimal numbers; anything else goes to a map that is written in an unspecified order. */
module ErrorResponses {
  import opened WireBytes
  import opened Framing
  import opened WireLoops
  import opened Decimal
  import opened MapOrder

  datatype Report = Report(
    severity: bytes, severityUnlocalized: bytes, code: bytes, message: bytes, detail: bytes, hint: bytes,
    position: int32, internalPosition: int32, internalQuery: bytes, where_: bytes, schemaName: bytes, tableName: bytes,
    columnName: bytes, dataTypeName: bytes, constraintName: bytes, file: bytes, line: int32, routine: bytes,
    unknown: map<byte, bytes>)

  const EMPTY := Report([], [], [], [], [], [], 0, 0, [], [], [], [], [], [], [], [], 0, [], map[])

  /** The switch of Decode: where the value of tag `k` is stored. */
  function Store(e: Report, k: byte, v: bytes): Report {
    match k as char
    case 'S' => e.(severity := v)
    case 'V' => e.(severityUnlocalized := v)
    case 'C' => e.(code := v)
    case 'M' => e.(message := v)
    case 'D' => e.(detail := v)
    case 'H' => e.(hint := v)
    case 'P' => e.(position := ParseInt(v))
    case 'p' => e.(internalPosition := ParseInt(v))
    case 'q' => e.(internalQuery := v)
    case 'W' => e.(where_ := v)
    case 's' => e.(schemaName := v)
    case 't' => e.(tableName := v)
    case 'c' => e.(columnName := v)
    case 'd' => e.(dataTypeName := v)
    case 'n' => e.(constraintName := v)
    case 'F' => e.(file := v)
    case 'L' => e.(line := ParseInt(v))
    case 'R' => e.(routine := v)
    case _ => e.(unknown := e.unknown[k := v])
  }

  predicate IsNamed(k: byte) {
    match k as char
    case 'S' | 'V' | 'C' | 'M' | 'D' | 'H' | 'P' | 'p' | 'q' | 'W' | 's' | 't' | 'c' | 'd' | 'n' | 'F' | 'L' | 'R' => true
    case _ => false
  }

  lemma StoreUnknown(e: Report, k: byte, v: bytes)
    ensures Store(e, k, v).unknown == if IsNamed(k) then e.unknown else e.unknown[k := v]
    ensures !IsNamed(k) ==> Store(e, k, v) == e.(unknown := e.unknown[k := v])
  {
  }

  /** The bytes after a tag; an empty string or a zero number is not written at all. */
  function Piece(k: byte, v: bytes): bytes { if v == [] then [] else Tagged(k, v) }
  function Tagged(k: byte, v: bytes): bytes { [k] + PutCString(v) }
  function Number(n: int32): bytes { if n == 0 then [] else Itoa(n) }

  function PutUnknown(order: seq<byte>, m: map<byte, bytes>): bytes
    requires forall k :: k in order ==> k in m
  {
    if order == [] then [] else Tagged(order[0], m[order[0]]) + PutUnknown(order[1..], m)
  }

  /** The named fields in the order they are written, followed by `rest`. */
  function Named(e: Report, rest: bytes): bytes {
    Named1(e, Named2(e, Named3(e, rest)))
  }

  function Named1(e: Report, rest: bytes): bytes {
    Piece('S' as int, e.severity) + (Piece('V' as int, e.severityUnlocalized) + (Piece('C' as int, e.code) +
      (Piece('M' as int, e.message) + (Piece('D' as int, e.detail) + (Piece('H' as int, e.hint) + rest)))))
  }

  function Named2(e: Report, rest: bytes): bytes {
    Piece('P' as int, Number(e.position)) + (Piece('p' as int, Number(e.internalPosition)) + (Piece('q' as int,
      e.internalQuery) + (Piece('W' as int, e.where_) + (Piece('s' as int, e.schemaName) + (Piece('t' as int,
      e.tableName) + rest)))))
  }

  function Named3(e: Report, rest: bytes): bytes {
    Piece('c' as int, e.columnName) + (Piece('d' as int, e.dataTypeName) + (Piece('n' as int, e.constraintName)
      + (Piece('F' as int, e.file) + (Piece('L' as int, Number(e.line)) + (Piece('R' as int, e.routine) +
      rest)))))
  }

  ghost function Body(e: Report, order: seq<byte>): bytes
    requires Enumerates(order, e.unknown)
  {
    EnumeratesKeys(order, e.unknown);
    Named(e, PutUnknown(order, e.unknown) + [0])
  }

  datatype Decoded = Ok(report: Report) | EndOfInput

  function ParseTags(s: bytes, acc: Report): Decoded
    decreases |s|
  {
    if s == [] then EndOfInput
    else if s[0] == 0 then Ok(acc)
    else
      var v := ParseCString(s[1..]);
      if !v.Done? then EndOfInput else ParseTags(v.rest, Store(acc, s[0], v.value))
  }

  // ---------- reading back what was written ----------

  lemma TagRead(k: byte, v: bytes, rest: bytes, acc: Report)
    requires k != 0 && NulFree(v)
    ensures ParseTags(Tagged(k, v) + rest, acc) == ParseTags(rest, Store(acc, k, v))
  {
    hide ParseCString, Store;
    var s := Tagged(k, v) + rest;
    assert s[1..] == PutCString(v) + rest;
    CStringExact(s[1..], v, rest);
  }

  function StorePiece(acc: Report, k: byte, v: bytes): Report { if v == [] then acc else Store(acc, k, v) }

  lemma PieceRead(k: byte, v: bytes, rest: bytes, acc: Report)
    requires k != 0 && NulFree(v)
    ensures ParseTags(Piece(k, v) + rest, acc) == ParseTags(rest, StorePiece(acc, k, v))
  {
    hide ParseTags, Tagged, Store;
    if v == [] {
      assert Piece(k, v) + rest == rest;
    } else {
      TagRead(k, v, rest, acc);
    }
  }

  predicate NamedClean(e: Report) {
    NulFree(e.severity) && NulFree(e.severityUnlocalized) && NulFree(e.code) && NulFree(e.message) &&
    NulFree(e.detail) && NulFree(e.hint) && NulFree(e.internalQuery) && NulFree(e.where_) &&
    NulFree(e.schemaName) && NulFree(e.tableName) && NulFree(e.columnName) && NulFree(e.dataTypeName) &&
    NulFree(e.constraintName) && NulFree(e.file) && NulFree(e.routine)
  }

  /** No string holds a NUL and no extra tag clashes with a named field or the end mark. */
  predicate Clean(e: Report) {
    NamedClean(e) && UnknownClean(e.unknown)
  }

  predicate UnknownClean(m: map<byte, bytes>) {
    forall k :: k in m ==> k != 0 && !IsNamed(k) && NulFree(m[k])
  }

  function Read1(acc: Report, e: Report): Report {
    acc.(severity := e.severity, severityUnlocalized := e.severityUnlocalized, code := e.code,
         message := e.message, detail := e.detail, hint := e.hint)
  }

  predicate Unset1(acc: Report) {
    acc.severity == [] && acc.severityUnlocalized == [] && acc.code == [] &&
    acc.message == [] && acc.detail == [] && acc.hint == []
  }

  lemma Named1Read(e: Report, rest: bytes, acc: Report)
    requires NamedClean(e) && Unset1(acc)
    ensures ParseTags(Named1(e, rest), acc) == ParseTags(rest, Read1(acc, e))
  {
    hide ParseTags, Piece, ParseInt, Itoa;
    var r6 := rest;
    var r5 := Piece('H' as int, e.hint) + r6;
    var r4 := Piece('D' as int, e.detail) + r5;
    var r3 := Piece('M' as int, e.message) + r4;
    var r2 := Piece('C' as int, e.code) + r3;
    var r1 := Piece('V' as int, e.severityUnlocalized) + r2;
    var a0 := acc;
    var a1 := StorePiece(a0, 'S' as int, e.severity);
    assert a1 == a0.(severity := e.severity);
    PieceRead('S' as int, e.severity, r1, a0);
    var a2 := StorePiece(a1, 'V' as int, e.severityUnlocalized);
    assert a2 == a1.(severityUnlocalized := e.severityUnlocalized);
    PieceRead('V' as int, e.severityUnlocalized, r2, a1);
    var a3 := StorePiece(a2, 'C' as int, e.code);
    assert a3 == a2.(code := e.code);
    PieceRead('C' as int, e.code, r3, a2);
    var a4 := StorePiece(a3, 'M' as int, e.message);
    assert a4 == a3.(message := e.message);
    PieceRead('M' as int, e.message, r4, a3);
    var a5 := StorePiece(a4, 'D' as int, e.detail);
    assert a5 == a4.(detail := e.detail);
    PieceRead('D' as int, e.detail, r5, a4);
    var a6 := StorePiece(a5, 'H' as int, e.hint);
    assert a6 == a5.(hint := e.hint);
    PieceRead('H' as int, e.hint, r6, a5);
    assert a6 == Read1(acc, e);
  }

  function Read2(acc: Report, e: Report): Report {
    acc.(position := e.position, internalPosition := e.internalPosition, internalQuery := e.internalQuery,
         where_ := e.where_, schemaName := e.schemaName, tableName := e.tableName)
  }

  predicate Unset2(acc: Report) {
    acc.position == 0 && acc.internalPosition == 0 && acc.internalQuery == [] &&
    acc.where_ == [] && acc.schemaName == [] && acc.tableName == []
  }

  lemma Named2Read(e: Report, rest: bytes, acc: Report)
    requires NamedClean(e) && Unset2(acc)
    ensures ParseTags(Named2(e, rest), acc) == ParseTags(rest, Read2(acc, e))
  {
    hide ParseTags, Piece, ParseInt, Itoa;
    ParseIntItoa(e.position);
    ParseIntItoa(e.internalPosition);
    var r6 := rest;
    var r5 := Piece('t' as int, e.tableName) + r6;
    var r4 := Piece('s' as int, e.schemaName) + r5;
    var r3 := Piece('W' as int, e.where_) + r4;
    var r2 := Piece('q' as int, e.internalQuery) + r3;
    var r1 := Piece('p' as int, Number(e.internalPosition)) + r2;
    var a0 := acc;
    var a1 := StorePiece(a0, 'P' as int, Number(e.position));
    assert a1 == a0.(position := e.position);
    PieceRead('P' as int, Number(e.position), r1, a0);
    var a2 := StorePiece(a1, 'p' as int, Number(e.internalPosition));
    assert a2 == a1.(internalPosition := e.internalPosition);
    PieceRead('p' as int, Number(e.internalPosition), r2, a1);
    var a3 := StorePiece(a2, 'q' as int, e.internalQuery);
    assert a3 == a2.(internalQuery := e.internalQuery);
    PieceRead('q' as int, e.internalQuery, r3, a2);
    var a4 := StorePiece(a3, 'W' as int, e.where_);
    assert a4 == a3.(where_ := e.where_);
    PieceRead('W' as int, e.where_, r4, a3);
    var a5 := StorePiece(a4, 's' as int, e.schemaName);
    assert a5 == a4.(schemaName := e.schemaName);
    PieceRead('s' as int, e.schemaName, r5, a4);
    var a6 := StorePiece(a5, 't' as int, e.tableName);
    assert a6 == a5.(tableName := e.tableName);
    PieceRead('t' as int, e.tableName, r6, a5);
    assert a6 == Read2(acc, e);
  }

  function Read3(acc: Report, e: Report): Report {
    acc.(columnName := e.columnName, dataTypeName := e.dataTypeName, constraintName := e.constraintName,
         file := e.file, line := e.line, routine := e.routine)
  }

  predicate Unset3(acc: Report) {
    acc.columnName == [] && acc.dataTypeName == [] && acc.constraintName == [] &&
    acc.file == [] && acc.line == 0 && acc.routine == []
  }

  lemma Named3Read(e: Report, rest: bytes, acc: Report)
    requires NamedClean(e) && Unset3(acc)
    ensures ParseTags(Named3(e, rest), acc) == ParseTags(rest, Read3(acc, e))
  {
    hide ParseTags, Piece, ParseInt, Itoa;
    ParseIntItoa(e.line);
    var r6 := rest;
    var r5 := Piece('R' as int, e.routine) + r6;
    var r4 := Piece('L' as int, Number(e.line)) + r5;
    var r3 := Piece('F' as int, e.file) + r4;
    var r2 := Piece('n' as int, e.constraintName) + r3;
    var r1 := Piece('d' as int, e.dataTypeName) + r2;
    var a0 := acc;
    var a1 := StorePiece(a0, 'c' as int, e.columnName);
    assert a1 == a0.(columnName := e.columnName);
    PieceRead('c' as int, e.columnName, r1, a0);
    var a2 := StorePiece(a1, 'd' as int, e.dataTypeName);
    assert a2 == a1.(dataTypeName := e.dataTypeName);
    PieceRead('d' as int, e.dataTypeName, r2, a1);
    var a3 := StorePiece(a2, 'n' as int, e.constraintName);
    assert a3 == a2.(constraintName := e.constraintName);
    PieceRead('n' as int, e.constraintName, r3, a2);
    var a4 := StorePiece(a3, 'F' as int, e.file);
    assert a4 == a3.(file := e.file);
    PieceRead('F' as int, e.file, r4, a3);
    var a5 := StorePiece(a4, 'L' as int, Number(e.line));
    assert a5 == a4.(line := e.line);
    PieceRead('L' as int, Number(e.line), r5, a4);
    var a6 := StorePiece(a5, 'R' as int, e.routine);
    assert a6 == a5.(routine := e.routine);
    PieceRead('R' as int, e.routine, r6, a5);
    assert a6 == Read3(acc, e);
  }

  lemma EndRead(acc: Report)
    ensures ParseTags([0], acc) == Ok(acc)
  {
  }

  lemma {:induction false} UnknownRead(order: seq<byte>, m: map<byte, bytes>, acc: Report)
    requires UnknownClean(m) && forall k :: k in order ==> k in m
    ensures ParseTags(PutUnknown(order, m) + [0], acc) == Ok(acc.(unknown := acc.unknown + Chosen(m, order)))
  {
    hide Tagged, Store, IsNamed, ParseTags, Chosen;
    if order == [] {
      assert PutUnknown(order, m) + [0] == [0];
      EndRead(acc);
      ChosenNone(m, acc.unknown);
    } else {
      var k, tail := order[0], order[1..];
      Regroup(Tagged(k, m[k]), PutUnknown(tail, m), [0]);
      TagRead(k, m[k], PutUnknown(tail, m) + [0], acc);
      StoreUnknown(acc, k, m[k]);
      UnknownRead(tail, m, acc.(unknown := acc.unknown[k := m[k]]));
      ChosenStep(m, order, acc.unknown);
    }
  }

  lemma {:induction false} ReadIsClean(s: bytes, acc: Report)
    requires Clean(acc)
    ensures ParseTags(s, acc).Ok? ==> Clean(ParseTags(s, acc).report)
    decreases |s|
  {
    if s != [] && s[0] != 0 {
      var v := ParseCString(s[1..]);
      if v.Done? {
        CStringExact(s[1..], v.value, v.rest);
        StoreClean(acc, s[0], v.value);
        ReadIsClean(v.rest, Store(acc, s[0], v.value));
      }
    }
  }

  lemma StoreClean(acc: Report, k: byte, v: bytes)
    requires Clean(acc) && k != 0 && NulFree(v)
    ensures Clean(Store(acc, k, v))
  {
    hide ParseInt, Store, NulFree, IsNamed;
    StoreUnknown(acc, k, v);
    StoreNamedClean(acc, k, v);
  }

  lemma StoreNamedClean(acc: Report, k: byte, v: bytes)
    requires NamedClean(acc) && NulFree(v)
    ensures NamedClean(Store(acc, k, v))
  {
    hide ParseInt, NulFree;
  }

  lemma EmptyClean()
    ensures Clean(EMPTY)
  {
  }

  /** Decoding gives the report back exactly when it is clean, whatever order the extra fields are written in. */
  lemma RoundTrip(e: Report, order: seq<byte>)
    requires Enumerates(order, e.unknown)
    ensures ParseTags(Body(e, order), EMPTY) == Ok(e) <==> Clean(e)
  {
    hide ParseTags, Named1, Named2, Named3, Store, NamedClean, IsNamed;
    EmptyClean();
    ReadIsClean(Body(e, order), EMPTY);
    if Clean(e) {
      EnumeratesKeys(order, e.unknown);
      var end := PutUnknown(order, e.unknown) + [0];
      var e1 := Read1(EMPTY, e);
      var e2 := Read2(e1, e);
      Named1Read(e, Named2(e, Named3(e, end)), EMPTY);
      Named2Read(e, Named3(e, end), e1);
      Named3Read(e, end, e2);
      UnknownRead(order, e.unknown, Read3(e2, e));
      ChosenAll(e.unknown, order);
    }
  }

  class ErrorResponse {
    var fields: Report

    constructor (e: Report)
      ensures fields == e
    {
      fields := e;
    }

    method Decode(src: bytes) returns (ok: bool)
      modifies this
      ensures ok <==> ParseTags(src, EMPTY).Ok?
      ensures ok ==> fields == ParseTags(src, EMPTY).report
    {
      hide Store;
      fields := EMPTY;
      var rp := 0;
      while true
        invariant rp <= |src| && ParseTags(src, EMPTY) == ParseTags(src[rp..], fields)
        decreases |src| - rp
      {
        if rp == |src| { return false; }
        var k := src[rp];
        assert src[rp..][1..] == src[rp + 1..];
        if k == 0 { return true; }
        var found, v, next := DecodeCString(src, rp + 1);
        if !found { return false; }
        CStringExact(src[rp + 1..], v, src[next..]);
        fields := Store(fields, k, v);
        rp := next;
      }
    }

    method Encode(dst: bytes) returns (r: EncodeResult, ghost order: seq<byte>)
      ensures Enumerates(order, fields.unknown)
      ensures r == Framed(dst, 'E' as int, Body(fields, order))
    {
      hide Named;
      var buf, sp := BeginMessage(dst, 'E' as int);
      var tail;
      tail, order := AppendUnknown(fields.unknown);
      buf := AppendNamed(fields, buf, tail + [0]);
      r := FinishFrame(buf, sp, dst, 'E' as int, Body(fields, order));
    }
  }

  /** The loop over the extra fields, which the source appends after the named ones. */
  method AppendUnknown(m: map<byte, bytes>) returns (buf: bytes, ghost order: seq<byte>)
    ensures Enumerates(order, m)
    ensures (forall k :: k in order ==> k in m) && buf == PutUnknown(order, m)
  {
    buf, order := [], [];
    var remaining := m.Keys;
    while remaining != {}
      invariant forall i, j :: 0 <= i < j < |order| ==> order[i] != order[j]
      invariant forall k :: k in order <==> k in m.Keys && k !in remaining
      invariant remaining <= m.Keys
      invariant buf == PutUnknown(order, m)
    {
      var k :| k in remaining;
      PutUnknownSnoc(order, k, m);
      buf := buf + [k] + m[k] + [0];
      assert buf == PutUnknown(order, m) + Tagged(k, m[k]);
      order := order + [k];
      remaining := remaining - {k};
    }
    assert (set k | k in order) == m.Keys;
  }

  lemma {:induction false} PutUnknownSnoc(order: seq<byte>, k: byte, m: map<byte, bytes>)
    requires k in m && forall x :: x in order ==> x in m
    ensures PutUnknown(order + [k], m) == PutUnknown(order, m) + Tagged(k, m[k])
  {
    hide Tagged;
    if order == [] {
      assert [] + [k] == [k];
    } else {
      assert (order + [k])[1..] == order[1..] + [k];
      PutUnknownSnoc(order[1..], k, m);
    }
  }

  /** One conditional append; `all` is the buffer the whole encoding must end in. */
  method AppendPiece(dst: bytes, k: byte, v: bytes, ghost rest: bytes, ghost all: bytes) returns (buf: bytes)
    requires all == dst + (Piece(k, v) + rest)
    ensures all == buf + rest
  {
    buf := dst;
    if v != [] {
      buf := buf + [k];
      buf := buf + v;
      buf := buf + [0];
    }
  }

  method AppendNamed(e: Report, dst: bytes, rest: bytes) returns (buf: bytes)
    ensures buf == dst + Named(e, rest)
  {
    hide Named1, Named2, Named3;
    ghost var all := dst + Named(e, rest);
    buf := AppendNamed1(e, dst, Named2(e, Named3(e, rest)), all);
    buf := AppendNamed2(e, buf, Named3(e, rest), all);
    buf := AppendNamed3(e, buf, rest, all);
    buf := buf + rest;
  }

  method AppendNamed1(e: Report, dst: bytes, ghost rest: bytes, ghost all: bytes) returns (buf: bytes)
    requires all == dst + Named1(e, rest)
    ensures all == buf + rest
  {
    hide Piece, Itoa;
    ghost var r6 := rest;
    ghost var r5 := Piece('H' as int, e.hint) + r6;
    ghost var r4 := Piece('D' as int, e.detail) + r5;
    ghost var r3 := Piece('M' as int, e.message) + r4;
    ghost var r2 := Piece('C' as int, e.code) + r3;
    ghost var r1 := Piece('V' as int, e.severityUnlocalized) + r2;
    buf := dst;
    buf := AppendPiece(buf, 'S' as int, e.severity, r1, all);
    buf := AppendPiece(buf, 'V' as int, e.severityUnlocalized, r2, all);
    buf := AppendPiece(buf, 'C' as int, e.code, r3, all);
    buf := AppendPiece(buf, 'M' as int, e.message, r4, all);
    buf := AppendPiece(buf, 'D' as int, e.detail, r5, all);
    buf := AppendPiece(buf, 'H' as int, e.hint, r6, all);
  }

  method AppendNamed2(e: Report, dst: bytes, ghost rest: bytes, ghost all: bytes) returns (buf: bytes)
    requires all == dst + Named2(e, rest)
    ensures all == buf + rest
  {
    hide Piece, Itoa;
    ghost var r6 := rest;
    ghost var r5 := Piece('t' as int, e.tableName) + r6;
    ghost var r4 := Piece('s' as int, e.schemaName) + r5;
    ghost var r3 := Piece('W' as int, e.where_) + r4;
    ghost var r2 := Piece('q' as int, e.internalQuery) + r3;
    ghost var r1 := Piece('p' as int, Number(e.internalPosition)) + r2;
    buf := dst;
    buf := AppendPiece(buf, 'P' as int, Number(e.position), r1, all);
    buf := AppendPiece(buf, 'p' as int, Number(e.internalPosition), r2, all);
    buf := AppendPiece(buf, 'q' as int, e.internalQuery, r3, all);
    buf := AppendPiece(buf, 'W' as int, e.where_, r4, all);
    buf := AppendPiece(buf, 's' as int, e.schemaName, r5, all);
    buf := AppendPiece(buf, 't' as int, e.tableName, r6, all);
  }

  method AppendNamed3(e: Report, dst: bytes, ghost rest: bytes, ghost all: bytes) returns (buf: bytes)
    requires all == dst + Named3(e, rest)
    ensures all == buf + rest
  {
    hide Piece, Itoa;
    ghost var r6 := rest;
    ghost var r5 := Piece('R' as int, e.routine) + r6;
    ghost var r4 := Piece('L' as int, Number(e.line)) + r5;
    ghost var r3 := Piece('F' as int, e.file) + r4;
    ghost var r2 := Piece('n' as int, e.constraintName) + r3;
    ghost var r1 := Piece('d' as int, e.dataTypeName) + r2;
    buf := dst;
    buf := AppendPiece(buf, 'c' as int, e.columnName, r1, all);
    buf := AppendPiece(buf, 'd' as int, e.dataTypeName, r2, all);
    buf := AppendPiece(buf, 'n' as int, e.constraintName, r3, all);
    buf := AppendPiece(buf, 'F' as int, e.file, r4, all);
    buf := AppendPiece(buf, 'L' as int, Number(e.line), r5, all);
    buf := AppendPiece(buf, 'R' as int, e.routine, r6, all);
  }
}
