/** The byte order of the wire format: the most significant byte comes first. */
module WireOrder {
  import opened Options
  import opened WireBytes

  function Power256(k: nat): nat { if k == 0 then 1 else 0x100 * Power256(k - 1) }

  /** Byte i of n counts 256^(n - 1 - i) times. */
  function Weighed(s: bytes): nat {
    if s == [] then 0 else Times(s[0], Power256(|s| - 1)) + Weighed(s[1..])
  }

  function Times(a: nat, b: nat): nat { a * b }

  lemma TimesLess(a: nat, b: nat, p: nat)
    requires a < b
    ensures Times(a, p) + p <= Times(b, p)
  {
    var d := b - a - 1;
    assert b * p == a * p + p + d * p;
  }

  lemma {:induction false} WeighedBelow(s: bytes)
    ensures Weighed(s) < Power256(|s|)
  {
    if s != [] {
      WeighedBelow(s[1..]);
      TimesLess(s[0], 0x100, Power256(|s| - 1));
    }
  }

  /** The first difference decides. */
  predicate Earlier(s: bytes, t: bytes)
    requires |s| == |t|
  {
    s != [] && (s[0] < t[0] || (s[0] == t[0] && Earlier(s[1..], t[1..])))
  }

  /** Compared from the first byte on, byte strings of one length are ordered as the numbers they stand for. */
  lemma {:induction false} EarlierIsSmaller(s: bytes, t: bytes)
    requires |s| == |t|
    ensures Earlier(s, t) <==> Weighed(s) < Weighed(t)
  {
    hide Times;
    if s != [] {
      EarlierIsSmaller(s[1..], t[1..]);
      WeighedBelow(s[1..]);
      WeighedBelow(t[1..]);
      var p := Power256(|s| - 1);
      if s[0] < t[0] { TimesLess(s[0], t[0], p); }
      if t[0] < s[0] { TimesLess(t[0], s[0], p); }
    }
  }

  lemma WeighedTwo(a: byte, b: byte)
    ensures Weighed([a, b]) == a as int * 0x100 + b
  {
    var one, two := [b], [a, b];
    assert Power256(0) == 1 && Power256(1) == 0x100;
    assert one[1..] == [] && Weighed(one) == b;
    assert two[1..] == one && Weighed(two) == Times(a, 0x100) + Weighed(one);
  }

  lemma WeighedFour(a: byte, b: byte, c: byte, d: byte)
    ensures Weighed([a, b, c, d]) == a as int * 0x100_0000 + b as int * 0x1_0000 + c as int * 0x100 + d
  {
    WeighedTwo(c, d);
    assert [a, b, c, d][1..] == [b, c, d] && [b, c, d][1..] == [c, d];
    assert Power256(1) == 0x100;
    assert Power256(2) == 0x1_0000;
    assert Power256(3) == 0x100_0000;
  }

  /** 16-bit numbers: written and read with the most significant byte first. */
  lemma Order16(n: uint16, m: uint16, s: bytes)
    ensures Weighed(PutUint16(n)) == n && (Earlier(PutUint16(n), PutUint16(m)) <==> n < m)
    ensures 2 <= |s| ==> Uint16(s) == Weighed(s[..2])
  {
    WeighedTwo(n / 0x100, n % 0x100);
    WeighedTwo(m / 0x100, m % 0x100);
    EarlierIsSmaller(PutUint16(n), PutUint16(m));
    if 2 <= |s| {
      WeighedTwo(s[0], s[1]);
      assert s[..2] == [s[0], s[1]];
    }
  }

  /** 32-bit numbers likewise. */
  lemma Order32(n: uint32, m: uint32, s: bytes)
    ensures Weighed(PutUint32(n)) == n && (Earlier(PutUint32(n), PutUint32(m)) <==> n < m)
    ensures 4 <= |s| ==> Uint32(s) == Weighed(s[..4])
  {
    Weighed32(n);
    Weighed32(m);
    EarlierIsSmaller(PutUint32(n), PutUint32(m));
    if 4 <= |s| { Read32(s); }
  }

  lemma Weighed32(n: uint32)
    ensures Weighed(PutUint32(n)) == n
  {
    WeighedFour(n / 0x100_0000, n / 0x1_0000 % 0x100, n / 0x100 % 0x100, n % 0x100);
    assert n / 0x1_0000 == (n / 0x100) / 0x100 && n / 0x100_0000 == (n / 0x1_0000) / 0x100;
  }

  lemma Read32(s: bytes)
    requires 4 <= |s|
    ensures Uint32(s) == Weighed(s[..4])
  {
    WeighedFour(s[0], s[1], s[2], s[3]);
    assert s[..4] == [s[0], s[1], s[2], s[3]];
  }

  /** Signed numbers are written modulo 2^16 and 2^32; -1 is all ones. */
  lemma OrderSigned(n: int16, m: int32)
    ensures Weighed(PutInt16(n)) == n as int % 0x1_0000 && Weighed(PutInt32(m)) == m as int % 0x1_0000_0000
    ensures PutInt16(-1) == [0xff, 0xff] && PutInt32(-1) == [0xff, 0xff, 0xff, 0xff]
  {
    hide Weighed, Power256;
    Order16(Unsigned16(n), 0, []);
    Weighed32(Unsigned32(m));
  }

  /** NULL is a length of all ones and no bytes; any other value is its length, then its bytes. */
  lemma CellBytes(v: bytes)
    requires |v| < 0x8000_0000
    ensures PutCell(None) == [0xff, 0xff, 0xff, 0xff]
    ensures |PutCell(Some(v))| == 4 + |v| && Weighed(PutCell(Some(v))[..4]) == |v| && PutCell(Some(v))[4..] == v
  {
    hide Weighed;
    OrderSigned(0, |v|);
    assert PutCell(Some(v))[..4] == PutInt32(|v|);
  }
}
