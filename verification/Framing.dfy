/** pgproto3.go: a message is a type byte, a big-endian length that counts itself, and a body. The encoder writes
    a placeholder length first and patches it once the body is complete. */
module Framing {
  import opened WireBytes
  import opened WireOrder

  const MAX_MESSAGE_BODY_LEN := 0x3fff_ffff - 1

  datatype EncodeResult = Encoded(buf: bytes) | TooMany | TooLarge

  /** A complete message. */
  function Frame(t: byte, body: bytes): (f: bytes)
    requires |body| + 4 <= MAX_MESSAGE_BODY_LEN
    ensures |f| == |body| + 5
  {
    [t] + PutInt32(|body| + 4) + body
  }

  /** What encoding a message of type `t` with this body onto `dst` must answer. */
  function Framed(dst: bytes, t: byte, body: bytes): EncodeResult {
    if |body| + 4 > MAX_MESSAGE_BODY_LEN then TooLarge else Encoded(dst + Frame(t, body))
  }

  method BeginMessage(dst: bytes, t: byte) returns (buf: bytes, sp: nat)
    ensures sp == |dst| + 1
    ensures buf == dst + [t] + PutInt32(-1)
  {
    buf := dst + [t];
    sp := |buf|;
    buf := buf + PutInt32(-1);
  }

  lemma LengthInPlace(head: bytes, n: int32, body: bytes)
    ensures var buf := head + PutInt32(n) + body;
            |buf| == |head| + 4 + |body| && buf[..|head|] == head && buf[|head|..|head| + 4] == PutInt32(n) && buf[|head| + 4..] == body
  {
  }

  /** A message on the wire: its type, four bytes that weigh the length of the rest including themselves, and its body. */
  lemma FrameBytes(t: byte, body: bytes)
    requires |body| + 4 <= MAX_MESSAGE_BODY_LEN
    ensures var f := Frame(t, body);
            |f| == 5 + |body| && f[0] == t && Weighed(f[1..5]) == |body| + 4 && f[5..] == body
  {
    hide Weighed;
    OrderSigned(0, |body| + 4);
    LengthInPlace([t], |body| + 4, body);
  }

  /** Whatever stands in the four placeholder bytes, the finished buffer is the old one up to `sp`, the true length,
      and the body. */
  method FinishMessage(dst: bytes, sp: nat, ghost head: bytes, ghost body: bytes) returns (r: EncodeResult)
    requires sp == |head| && |dst| == sp + 4 + |body|
    requires dst[..sp] == head && dst[sp + 4..] == body
    ensures r == if |body| + 4 > MAX_MESSAGE_BODY_LEN then TooLarge
                 else Encoded(head + PutInt32(|body| + 4) + body)
    ensures r.Encoded? ==>
              |r.buf| == sp + 4 + |body| && r.buf[..sp] == head && Weighed(r.buf[sp..sp + 4]) == |body| + 4 && r.buf[sp + 4..] == body
  {
    hide Weighed;
    OrderSigned(0, if |body| + 4 > MAX_MESSAGE_BODY_LEN then 0 else |body| + 4);
    LengthInPlace(head, if |body| + 4 > MAX_MESSAGE_BODY_LEN then 0 else |body| + 4, body);
    var messageBodyLen := |dst[sp..]|;
    if messageBodyLen > MAX_MESSAGE_BODY_LEN {
      return TooLarge;
    }
    return Encoded(dst[..sp] + PutInt32(messageBodyLen) + dst[sp + 4..]);
  }

  /** The two calls around a body that was appended in between. */
  method FinishFrame(buf: bytes, sp: nat, ghost dst: bytes, t: byte, ghost body: bytes) returns (r: EncodeResult)
    requires sp == |dst| + 1 && buf == dst + [t] + PutInt32(-1) + body
    ensures r == Framed(dst, t, body)
  {
    assert buf[..sp] == dst + [t] && buf[sp + 4..] == body;
    r := FinishMessage(buf, sp, dst + [t], body);
    if |body| + 4 <= MAX_MESSAGE_BODY_LEN {
      assert dst + [t] + PutInt32(|body| + 4) + body == dst + Frame(t, body);
    }
  }
}
