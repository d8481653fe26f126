/** row_description.go: the columns of a result set, each a NUL-terminated name and eighteen fixed bytes. */
module RowDescriptionMessage {
  import opened WireBytes
  import opened Framing
  import opened WireLoops

  datatype Field = Field(name: bytes, tableOID: uint32, tableAttribute: uint16, typeOID: uint32, typeSize: int16,
                         typeModifier: int32, format: int16)

  function PutField(f: Field): bytes {
    PutCString(f.name) + (PutUint32(f.tableOID) + (PutUint16(f.tableAttribute) + (PutUint32(f.typeOID) +
      (PutInt16(f.typeSize) + (PutInt32(f.typeModifier) + PutInt16(f.format))))))
  }

  function ParseField(s: bytes): Parsed<Field> {
    var (name, s) :- ParseCString(s);
    if |s| < 18 then Malformed
    else Done(Field(name, Uint32(s), Uint16(s[4..]), Uint32(s[6..]), Int16(s[10..]), Int32(s[12..]), Int16(s[16..])),
              s[18..])
  }

  function Fixed(f: Field, rest: bytes): bytes {
    PutUint32(f.tableOID) + (PutUint16(f.tableAttribute) + (PutUint32(f.typeOID) +
      (PutInt16(f.typeSize) + (PutInt32(f.typeModifier) + (PutInt16(f.format) + rest)))))
  }

  lemma PutFieldThen(f: Field, rest: bytes)
    ensures PutField(f) + rest == PutCString(f.name) + Fixed(f, rest)
  {
    hide PutCString, PutUint32, PutUint16, PutInt16, PutInt32;
    var f6 := PutInt16(f.format);
    var f5 := PutInt32(f.typeModifier);
    var f4 := PutInt16(f.typeSize);
    var f3 := PutUint32(f.typeOID);
    var f2 := PutUint16(f.tableAttribute);
    var f1 := PutUint32(f.tableOID);
    Regroup(f5, f6, rest);
    Regroup(f4, f5 + f6, rest);
    Regroup(f3, f4 + (f5 + f6), rest);
    Regroup(f2, f3 + (f4 + (f5 + f6)), rest);
    Regroup(f1, f2 + (f3 + (f4 + (f5 + f6))), rest);
    Regroup(PutCString(f.name), f1 + (f2 + (f3 + (f4 + (f5 + f6)))), rest);
  }

  /** The eighteen fixed bytes, read at their offsets. */
  lemma FixedExact(s: bytes, f: Field, rest: bytes)
    ensures s == Fixed(f, rest) <==>
            18 <= |s| && Uint32(s) == f.tableOID && Uint16(s[4..]) == f.tableAttribute && Uint32(s[6..]) == f.typeOID &&
            Int16(s[10..]) == f.typeSize && Int32(s[12..]) == f.typeModifier && Int16(s[16..]) == f.format &&
            s[18..] == rest
  {
    hide PutUint32, Uint32, PutUint16, Uint16, PutInt16, Int16, PutInt32, Int32;
    var r5 := PutInt16(f.format) + rest;
    var r4 := PutInt32(f.typeModifier) + r5;
    var r3 := PutInt16(f.typeSize) + r4;
    var r2 := PutUint32(f.typeOID) + r3;
    var r1 := PutUint16(f.tableAttribute) + r2;
    Uint32Exact(s, f.tableOID, r1);
    if 18 <= |s| {
      assert s[4..][2..] == s[6..] && s[6..][4..] == s[10..] && s[10..][2..] == s[12..];
      assert s[12..][4..] == s[16..] && s[16..][2..] == s[18..];
      Uint16Exact(s[4..], f.tableAttribute, r2);
      Uint32Exact(s[6..], f.typeOID, r3);
      Int16Exact(s[10..], f.typeSize, r4);
      Int32Exact(s[12..], f.typeModifier, r5);
      Int16Exact(s[16..], f.format, rest);
    }
  }

  lemma FieldExact(s: bytes, f: Field, rest: bytes)
    ensures ParseField(s) == Done(f, rest) <==> NulFree(f.name) && s == PutField(f) + rest
  {
    PutFieldThen(f, rest);
    CStringExact(s, f.name, Fixed(f, rest));
    var p := ParseCString(s);
    if p.Done? {
      FixedExact(p.rest, f, rest);
    }
  }

  function PutFields(fs: seq<Field>): bytes {
    if fs == [] then [] else PutField(fs[0]) + PutFields(fs[1..])
  }

  ghost predicate Named(fs: seq<Field>) { forall i :: 0 <= i < |fs| ==> NulFree(fs[i].name) }

  function ParseFields(n: nat, s: bytes): Parsed<seq<Field>> {
    if n == 0 then Done([], s)
    else
      var (f, s) :- ParseField(s);
      var (fs, rest) :- ParseFields(n - 1, s);
      Done([f] + fs, rest)
  }

  function Body(fs: seq<Field>): bytes
    requires |fs| <= MAX_UINT16
  {
    PutUint16(|fs|) + PutFields(fs)
  }

  function Parse(s: bytes): Parsed<seq<Field>> {
    if |s| < 2 then Malformed else ParseFields(Uint16(s), s[2..])
  }

  lemma {:induction false} FieldsExact(n: nat, s: bytes, fs: seq<Field>, rest: bytes)
    ensures ParseFields(n, s) == Done(fs, rest) <==> |fs| == n && Named(fs) && s == PutFields(fs) + rest
  {
    hide PutField, ParseField;
    if n == 0 || fs == [] {
    } else {
      var after := PutFields(fs[1..]) + rest;
      FieldExact(s, fs[0], after);
      Regroup(PutField(fs[0]), PutFields(fs[1..]), rest);
      assert fs == [fs[0]] + fs[1..];
      assert Named(fs) <==> NulFree(fs[0].name) && Named(fs[1..]);
      var p := ParseField(s);
      if p.Done? {
        FieldExact(s, p.value, p.rest);
        FieldsExact(n - 1, p.rest, fs[1..], rest);
      }
    }
  }

  /** A body reads as `fs` exactly when no column name holds a NUL and the encoding of `fs` starts the body. */
  lemma Exact(s: bytes, fs: seq<Field>)
    ensures (Parse(s).Done? && Parse(s).value == fs) <==> |fs| <= MAX_UINT16 && Named(fs) && Body(fs) <= s
  {
    hide PutFields, ParseFields;
    if Parse(s).Done? && Parse(s).value == fs {
      var rest := Parse(s).rest;
      FieldsExact(Uint16(s), s[2..], fs, rest);
      Uint16Exact(s, |fs|, PutFields(fs) + rest);
      Regroup(PutUint16(|fs|), PutFields(fs), rest);
      assert Body(fs) <= s;
    }
    if |fs| <= MAX_UINT16 && Named(fs) && Body(fs) <= s {
      var rest := s[|Body(fs)|..];
      assert s == Body(fs) + rest;
      Regroup(PutUint16(|fs|), PutFields(fs), rest);
      Uint16Exact(s, |fs|, PutFields(fs) + rest);
      FieldsExact(Uint16(s), s[2..], fs, rest);
    }
  }

  lemma RoundTrip(fs: seq<Field>)
    requires |fs| <= MAX_UINT16
    ensures Parse(Body(fs)) == Done(fs, []) <==> Named(fs)
  {
    hide PutFields, ParseFields;
    Exact(Body(fs), fs);
    if Named(fs) {
      Regroup(PutUint16(|fs|), PutFields(fs), []);
      assert Body(fs) + [] == Body(fs) && PutFields(fs) + [] == PutFields(fs);
      Uint16Exact(Body(fs), |fs|, PutFields(fs));
      FieldsExact(|fs|, PutFields(fs), fs, []);
    }
  }

  lemma {:induction false} PutFieldsSnoc(fs: seq<Field>, f: Field)
    ensures PutFields(fs + [f]) == PutFields(fs) + PutField(f)
  {
    hide PutField;
    if fs == [] {
      assert [] + [f] == [f];
    } else {
      assert (fs + [f])[1..] == fs[1..] + [f];
      PutFieldsSnoc(fs[1..], f);
    }
  }

  lemma {:induction false} FieldsFailAt(done: seq<Field>, n: nat, s: bytes, s': bytes)
    requires |done| < n && Named(done) && s == PutFields(done) + s' && !ParseField(s').Done?
    ensures !ParseFields(n, s).Done?
  {
    hide PutField, ParseField;
    if done == [] {
      assert s == s';
    } else {
      Regroup(PutField(done[0]), PutFields(done[1..]), s');
      FieldExact(s, done[0], PutFields(done[1..]) + s');
      FieldsFailAt(done[1..], n - 1, PutFields(done[1..]) + s', s');
    }
  }

  class RowDescription {
    var Fields: seq<Field>

    constructor (fields: seq<Field>)
      ensures Fields == fields
    {
      Fields := fields;
    }

    method Decode(src: bytes) returns (ok: bool)
      modifies this
      ensures ok <==> Parse(src).Done?
      ensures ok ==> Fields == Parse(src).value
    {
      hide PutField, ParseField;
      if |src| < 2 { return false; }
      var fieldCount := Uint16(src);
      var rp := 2;
      Fields := [];
      for i := 0 to fieldCount
        invariant 2 <= rp <= |src| && |Fields| == i
        invariant Named(Fields) && src[2..] == PutFields(Fields) + src[rp..]
      {
        ghost var s := src[rp..];
        if !ParseField(s).Done? { FieldsFailAt(Fields, fieldCount, src[2..], s); }
        var found, fd, next := DecodeField(src, rp);
        if !found { return false; }
        FieldExact(s, fd, src[next..]);
        PutFieldsSnoc(Fields, fd);
        Regroup(PutFields(Fields), PutField(fd), src[next..]);
        Fields := Fields + [fd];
        rp := next;
      }
      FieldsExact(fieldCount, src[2..], Fields, src[rp..]);
      ok := true;
    }

    method Encode(dst: bytes) returns (r: EncodeResult)
      ensures r == if |Fields| > MAX_UINT16 then TooMany else Framed(dst, 'T' as int, Body(Fields))
    {
      hide PutField;
      var buf, sp := BeginMessage(dst, 'T' as int);
      if |Fields| > MAX_UINT16 { return TooMany; }
      ghost var start := buf;
      buf := buf + PutUint16(|Fields|);
      for i := 0 to |Fields|
        invariant buf == start + (PutUint16(|Fields|) + PutFields(Fields[..i]))
      {
        assert Fields[..i + 1] == Fields[..i] + [Fields[i]];
        PutFieldsSnoc(Fields[..i], Fields[i]);
        buf := AppendField(buf, Fields[i]);
      }
      assert Fields[..|Fields|] == Fields;
      r := FinishFrame(buf, sp, dst, 'T' as int, Body(Fields));
    }
  }

  method DecodeField(src: bytes, rp0: nat) returns (ok: bool, fd: Field, rp: nat)
    requires rp0 <= |src|
    ensures ok ==> rp0 <= rp <= |src| && ParseField(src[rp0..]) == Done(fd, src[rp..])
    ensures !ok ==> !ParseField(src[rp0..]).Done?
  {
    hide ParseCString, PutUint32, PutUint16, PutInt16, PutInt32;
    fd := Field([], 0, 0, 0, 0, 0, 0);
    var found, name, p := DecodeCString(src, rp0);
    if !found { return false, fd, rp0; }
    if |src[p..]| < 18 { return false, fd, rp0; }
    fd := ReadFixed(src, p, name);
    rp := p + 18;
    assert src[p..][18..] == src[rp..];
    FixedExact(src[p..], fd, src[rp..]);
    CStringExact(src[rp0..], name, src[p..]);
    ok := true;
  }

  method ReadFixed(src: bytes, p: nat, name: bytes) returns (fd: Field)
    requires p + 18 <= |src|
    ensures src[p..] == Fixed(fd, src[p + 18..]) && fd.name == name
  {
    var rp := p;
    var tableOID := Uint32(src[rp..]);
    rp := rp + 4;
    var tableAttribute := Uint16(src[rp..]);
    rp := rp + 2;
    var typeOID := Uint32(src[rp..]);
    rp := rp + 4;
    var typeSize := Int16(src[rp..]);
    rp := rp + 2;
    var typeModifier := Int32(src[rp..]);
    rp := rp + 4;
    var format := Int16(src[rp..]);
    fd := Field(name, tableOID, tableAttribute, typeOID, typeSize, typeModifier, format);
    ghost var s := src[p..];
    assert s[4..] == src[p + 4..] && s[6..] == src[p + 6..] && s[10..] == src[p + 10..];
    assert s[12..] == src[p + 12..] && s[16..] == src[p + 16..] && s[18..] == src[p + 18..];
    FixedExact(s, fd, src[p + 18..]);
  }

  method AppendField(dst: bytes, fd: Field) returns (buf: bytes)
    ensures buf == dst + PutField(fd)
  {
    hide PutUint32, PutUint16, PutInt16, PutInt32;
    buf := dst + fd.name;
    buf := buf + [0];
    buf := buf + PutUint32(fd.tableOID);
    buf := buf + PutUint16(fd.tableAttribute);
    buf := buf + PutUint32(fd.typeOID);
    buf := buf + PutInt16(fd.typeSize);
    buf := buf + PutInt32(fd.typeModifier);
    buf := buf + PutInt16(fd.format);
    assert buf == dst + PutField(fd);
  }
}
