/** bind.go: the Bind message a client sends to attach parameters to a prepared statement. */
module BindMessage {
  import opened Options
  import opened WireBytes
  import opened Framing
  import opened WireLoops

  datatype BindMsg = BindMsg(portal: bytes, statement: bytes, paramFormats: seq<int16>, params: seq<Cell>,
                             resultFormats: seq<int16>)

  datatype Outcome = Ok | InvalidFormat | Panics

  predicate CountsFit(m: BindMsg) {
    |m.paramFormats| <= MAX_UINT16 && |m.params| <= MAX_UINT16 && |m.resultFormats| <= MAX_UINT16
  }

  /** The messages that have a wire form which reads back. */
  ghost predicate WellFormed(m: BindMsg) {
    CountsFit(m) && NulFree(m.portal) && NulFree(m.statement) && CellsFit(m.params)
  }

  function Body(m: BindMsg): bytes
    requires CountsFit(m)
  {
    PutCString(m.portal) + (PutCString(m.statement) + (PutCounted16(m.paramFormats) +
      (PutCountedCells(m.params) + PutCounted16(m.resultFormats))))
  }

  function Parse(s: bytes): Parsed<BindMsg> {
    var (portal, s) :- ParseCString(s);
    var (statement, s) :- ParseCString(s);
    var (paramFormats, s) :- ParseCounted16(s);
    var (params, s) :- ParseCountedCells(s);
    var (resultFormats, s) :- ParseCounted16(s);
    Done(BindMsg(portal, statement, paramFormats, params, resultFormats), s)
  }

  lemma Sound(s: bytes, m: BindMsg, rest: bytes)
    requires Parse(s) == Done(m, rest)
    ensures WellFormed(m) && s == Body(m) + rest
  {
    var (portal, s1) := ParseCString(s).Extract();
    CStringExact(s, portal, s1);
    var (statement, s2) := ParseCString(s1).Extract();
    CStringExact(s1, statement, s2);
    var (paramFormats, s3) := ParseCounted16(s2).Extract();
    Counted16Exact(s2, paramFormats, s3);
    var (params, s4) := ParseCountedCells(s3).Extract();
    CountedCellsExact(s3, params, s4);
    Counted16Exact(s4, m.resultFormats, rest);
    BodyThen(m, rest);
  }

  lemma BodyThen(m: BindMsg, rest: bytes)
    requires CountsFit(m)
    ensures Body(m) + rest ==
            PutCString(m.portal) + (PutCString(m.statement) + (PutCounted16(m.paramFormats) +
            (PutCountedCells(m.params) + (PutCounted16(m.resultFormats) + rest))))
  {
    var e := PutCounted16(m.resultFormats);
    var d := PutCountedCells(m.params);
    var c := PutCounted16(m.paramFormats);
    var b := PutCString(m.statement);
    Regroup(d, e, rest);
    Regroup(c, d + e, rest);
    Regroup(b, c + (d + e), rest);
    Regroup(PutCString(m.portal), b + (c + (d + e)), rest);
  }

  lemma Complete(m: BindMsg, rest: bytes)
    requires WellFormed(m)
    ensures Parse(Body(m) + rest) == Done(m, rest)
  {
    BodyThen(m, rest);
    var s4 := PutCounted16(m.resultFormats) + rest;
    var s3 := PutCountedCells(m.params) + s4;
    var s2 := PutCounted16(m.paramFormats) + s3;
    var s1 := PutCString(m.statement) + s2;
    CStringExact(PutCString(m.portal) + s1, m.portal, s1);
    CStringExact(s1, m.statement, s2);
    Counted16Exact(s2, m.paramFormats, s3);
    CountedCellsExact(s3, m.params, s4);
    Counted16Exact(s4, m.resultFormats, rest);
  }

  /** Reading a body succeeds with `m` exactly when `m` is well formed and its encoding starts the body. */
  lemma Exact(s: bytes, m: BindMsg)
    ensures (Parse(s).Done? && Parse(s).value == m) <==> WellFormed(m) && Body(m) <= s
  {
    if Parse(s).Done? && Parse(s).value == m {
      Sound(s, m, Parse(s).rest);
    }
    if WellFormed(m) && Body(m) <= s {
      Complete(m, s[|Body(m)|..]);
      assert s == Body(m) + s[|Body(m)|..];
    }
  }

  /** Decode undoes Encode exactly on messages whose two strings hold no NUL: the sizes are already guaranteed by a
      successful Encode. */
  lemma RoundTrip(m: BindMsg)
    requires CountsFit(m) && Framed([], 'B' as int, Body(m)).Encoded?
    ensures Parse(Body(m)) == Done(m, []) <==> NulFree(m.portal) && NulFree(m.statement)
  {
    assert CellsFit(m.params) by {
      assert |PutCells(m.params)| <= |PutCountedCells(m.params)| <= |Body(m)|;
      ShortCellsFit(m.params);
    }
    assert Body(m) + [] == Body(m);
    if NulFree(m.portal) && NulFree(m.statement) {
      Complete(m, []);
    }
    if Parse(Body(m)) == Done(m, []) {
      Sound(Body(m), m, []);
    }
  }

  /** The body of a message whose parameter list announces n parameters, gives `done` and then a length below -1. */
  ghost predicate NegativeParameter(s: bytes, portal: bytes, statement: bytes, formats: seq<int16>, n: uint16,
                                    done: seq<Cell>, size: int32, rest: bytes)
  {
    && NulFree(portal) && NulFree(statement) && |formats| <= MAX_UINT16
    && |done| < n && CellsFit(done) && size < -1
    && s == PutCString(portal) + (PutCString(statement) + (PutCounted16(formats) +
            (PutUint16(n) + (PutCells(done) + (PutInt32(size) + rest)))))
  }

  /** Decoding panics on exactly these bodies. */
  lemma PanicsIff(s: bytes)
    ensures Parse(s).NegativeLength? <==>
            exists portal, statement, formats, n: uint16, done, size: int32, rest ::
              NegativeParameter(s, portal, statement, formats, n, done, size, rest)
  {
    if Parse(s).NegativeLength? { FindNegativeParameter(s); }
    if portal, statement, formats, n: uint16, done, size: int32, rest :|
       NegativeParameter(s, portal, statement, formats, n, done, size, rest) {
      NegativeParameterPanics(s, portal, statement, formats, n, done, size, rest);
    }
  }

  lemma FindNegativeParameter(s: bytes)
    requires Parse(s).NegativeLength?
    ensures exists portal, statement, formats, n: uint16, done, size: int32, rest ::
              NegativeParameter(s, portal, statement, formats, n, done, size, rest)
  {
    hide ParseInt16s, ParseCells, PutUint16, PutInt32, Uint16;
    var (portal, s1) := ParseCString(s).Extract();
    CStringExact(s, portal, s1);
    var (statement, s2) := ParseCString(s1).Extract();
    CStringExact(s1, statement, s2);
    if 2 <= |s2| { Int16sNeverNegative(Uint16(s2), s2[2..]); }
    var (formats, s3) := ParseCounted16(s2).Extract();
    Counted16Exact(s2, formats, s3);
    if ParseCountedCells(s3).Done? {
      var s4 := ParseCountedCells(s3).rest;
      if 2 <= |s4| { Int16sNeverNegative(Uint16(s4), s4[2..]); }
    }
    var n := Uint16(s3);
    Uint16Exact(s3, n, s3[2..]);
    hide ParseCString, ParseCounted16, PutCString, PutCounted16, PutCells, NulFree, CellsFit;
    CellsNegative(n, s3[2..]);
    var done, size: int32, rest :| NegativeAt(n, s3[2..], done, size, rest);
    assert NegativeParameter(s, portal, statement, formats, n, done, size, rest);
  }

  lemma NegativeParameterPanics(s: bytes, portal: bytes, statement: bytes, formats: seq<int16>, n: uint16,
                                done: seq<Cell>, size: int32, rest: bytes)
    requires NegativeParameter(s, portal, statement, formats, n, done, size, rest)
    ensures Parse(s).NegativeLength?
  {
    hide ParseInt16s, ParseCells, PutUint16, PutInt32, Uint16, PutCString;
    var cells := PutCells(done) + (PutInt32(size) + rest);
    var s3 := PutUint16(n) + cells;
    var s2 := PutCounted16(formats) + s3;
    var s1 := PutCString(statement) + s2;
    CStringExact(s, portal, s1);
    CStringExact(s1, statement, s2);
    Counted16Exact(s2, formats, s3);
    Uint16Exact(s3, n, cells);
    assert NegativeAt(n, cells, done, size, rest);
    CellsNegative(n, cells);
  }

  /** Two empty strings, no formats, one parameter of length -2. */
  lemma PanickingBody()
    ensures Parse([0, 0, 0, 0, 0, 1, 255, 255, 255, 254]).NegativeLength?
  {
    var s: bytes := [0, 0, 0, 0, 0, 1, 255, 255, 255, 254];
    assert s == PutCString([]) + (PutCString([]) + (PutCounted16([]) + (PutUint16(1) + (PutCells([]) + (PutInt32(-2) + [])))));
    NegativeParameterPanics(s, [], [], [], 1, [], -2, []);
  }

  method DecodeCells(src: bytes, rp0: nat, n: nat) returns (outcome: Outcome, cells: seq<Cell>, rp: nat)
    requires rp0 <= |src|
    ensures outcome == Ok ==> rp <= |src| && ParseCells(n, src[rp0..]) == Done(cells, src[rp..])
    ensures outcome == InvalidFormat ==> ParseCells(n, src[rp0..]) == Malformed
    ensures outcome == Panics ==> ParseCells(n, src[rp0..]) == NegativeLength
  {
    hide PutCell, ParseCell;
    cells, rp := [], rp0;
    for i := 0 to n
      invariant |cells| == i && rp0 <= rp <= |src|
      invariant CellsFit(cells) && src[rp0..] == PutCells(cells) + src[rp..]
    {
      var p, next := DecodeCell(src, rp);
      if !p.Done? {
        CellsFailAt(cells, n, src[rp0..], src[rp..]);
        // A negative length makes a slice whose end lies before its start.
        return if p.Malformed? then InvalidFormat else Panics, cells, rp;
      }
      AppendCell(cells, p.value, src[rp0..], src[rp..], src[next..]);
      cells := cells + [p.value];
      rp := next;
    }
    CellsExact(n, src[rp0..], cells, src[rp..]);
    outcome := Ok;
  }

  method DecodeCountedCells(src: bytes, rp0: nat) returns (outcome: Outcome, cells: seq<Cell>, rp: nat)
    requires rp0 <= |src|
    ensures outcome == Ok ==> rp <= |src| && ParseCountedCells(src[rp0..]) == Done(cells, src[rp..])
    ensures outcome == InvalidFormat ==> ParseCountedCells(src[rp0..]) == Malformed
    ensures outcome == Panics ==> ParseCountedCells(src[rp0..]) == NegativeLength
  {
    if |src[rp0..]| < 2 { return InvalidFormat, [], rp0; }
    assert src[rp0..][2..] == src[rp0 + 2..];
    outcome, cells, rp := DecodeCells(src, rp0 + 2, Uint16(src[rp0..]));
  }

  class Bind {
    var DestinationPortal: bytes
    var PreparedStatement: bytes
    var ParameterFormatCodes: seq<int16>
    var Parameters: seq<Cell>
    var ResultFormatCodes: seq<int16>

    ghost function Value(): BindMsg
      reads this
    {
      BindMsg(DestinationPortal, PreparedStatement, ParameterFormatCodes, Parameters, ResultFormatCodes)
    }

    constructor (m: BindMsg)
      ensures Value() == m
    {
      DestinationPortal, PreparedStatement := m.portal, m.statement;
      ParameterFormatCodes, Parameters, ResultFormatCodes := m.paramFormats, m.params, m.resultFormats;
    }

    /** A body that does not parse leaves the destination partly filled, so nothing is promised about it then. */
    method Decode(src: bytes) returns (outcome: Outcome)
      modifies this
      ensures match Parse(src)
              case Done(m, _) => outcome == Ok && Value() == m
              case Malformed => outcome == InvalidFormat
              case NegativeLength => outcome == Panics
    {
      hide ParseCString, ParseCounted16, ParseCountedCells;
      DestinationPortal, PreparedStatement := [], [];
      ParameterFormatCodes, Parameters, ResultFormatCodes := [], [], [];
      assert src[0..] == src;

      var found, text, rp := DecodeCString(src, 0);
      if !found { return InvalidFormat; }
      DestinationPortal := text;

      found, text, rp := DecodeCString(src, rp);
      if !found { return InvalidFormat; }
      PreparedStatement := text;

      var ok, codes, next := DecodeCounted16(src, rp);
      if !ok { return InvalidFormat; }
      ParameterFormatCodes, rp := codes, next;

      var cells;
      outcome, cells, next := DecodeCountedCells(src, rp);
      if outcome != Ok { return outcome; }
      Parameters, rp := cells, next;

      ok, codes, next := DecodeCounted16(src, rp);
      if !ok { return InvalidFormat; }
      ResultFormatCodes := codes;
      return Ok;
    }

    method Encode(dst: bytes) returns (r: EncodeResult)
      ensures r == if !CountsFit(Value()) then TooMany else Framed(dst, 'B' as int, Body(Value()))
    {
      hide PutCountedCells, PutCounted16, PutInt32, Framed;
      var buf, sp := BeginMessage(dst, 'B' as int);
      ghost var start := buf;
      buf := buf + DestinationPortal + [0] + PreparedStatement + [0];
      ghost var strings := PutCString(DestinationPortal) + PutCString(PreparedStatement);
      assert buf == start + strings;
      if |ParameterFormatCodes| > MAX_UINT16 { return TooMany; }
      buf := AppendCodes(buf, ParameterFormatCodes);
      if |Parameters| > MAX_UINT16 { return TooMany; }
      buf := AppendCells(buf, Parameters);
      if |ResultFormatCodes| > MAX_UINT16 { return TooMany; }
      buf := AppendCodes(buf, ResultFormatCodes);
      assert buf == start + Body(Value());
      r := FinishFrame(buf, sp, dst, 'B' as int, Body(Value()));
    }
  }
}
