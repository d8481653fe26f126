/** startup_message.go: the untyped first message of a connection. Its parameters live in a map, whose iteration order
    is unspecified, so every statement about the encoding quantifies over that order. */
module StartupMessages {
  import opened WireBytes
  import opened Framing
  import opened WireLoops
  import opened MapOrder

  const PROTOCOL_VERSION_NUMBER: uint32 := 196608

  datatype Decoded = Ok(params: map<bytes, bytes>) | TooShort | BadVersion | InvalidFormat | BadLastByte

  function PutPairs(order: seq<bytes>, m: map<bytes, bytes>): bytes
    requires forall k :: k in order ==> k in m
  {
    if order == [] then []
    else PutCString(order[0]) + (PutCString(m[order[0]]) + PutPairs(order[1..], m))
  }

  ghost function Body(version: uint32, order: seq<bytes>, m: map<bytes, bytes>): bytes
    requires Enumerates(order, m)
  {
    EnumeratesKeys(order, m);
    PutUint32(version) + (PutPairs(order, m) + [0])
  }

  predicate NulFreePairs(m: map<bytes, bytes>) { forall k :: k in m ==> NulFree(k) && NulFree(m[k]) }

  function ParsePairs(s: bytes, acc: map<bytes, bytes>): Decoded
    decreases |s|
  {
    var key := ParseCString(s);
    if !key.Done? then InvalidFormat
    else
      var value := ParseCString(key.rest);
      if !value.Done? then InvalidFormat
      else
        var acc' := acc[key.value := value.value];
        if |value.rest| == 1 then (if value.rest[0] == 0 then Ok(acc') else BadLastByte)
        else ParsePairs(value.rest, acc')
  }

  function Parse(s: bytes): Decoded {
    if |s| < 4 then TooShort
    else if Uint32(s) != PROTOCOL_VERSION_NUMBER then BadVersion
    else ParsePairs(s[4..], map[])
  }

  lemma PairRead(k: bytes, v: bytes, rest: bytes, acc: map<bytes, bytes>)
    requires NulFree(k) && NulFree(v)
    ensures ParsePairs(PutCString(k) + (PutCString(v) + rest), acc) ==
            if |rest| == 1 then (if rest[0] == 0 then Ok(acc[k := v]) else BadLastByte)
            else ParsePairs(rest, acc[k := v])
  {
    hide ParseCString;
    CStringExact(PutCString(k) + (PutCString(v) + rest), k, PutCString(v) + rest);
    CStringExact(PutCString(v) + rest, v, rest);
  }

  /** What a reader that starts with `acc` makes of the remaining pairs. */
  lemma {:induction false} PairsRead(order: seq<bytes>, m: map<bytes, bytes>, acc: map<bytes, bytes>)
    requires order != [] && (forall k :: k in order ==> k in m) && NulFreePairs(m)
    ensures ParsePairs(PutPairs(order, m) + [0], acc) == Ok(acc + Chosen(m, order))
  {
    hide PutCString, ParsePairs;
    var k, tail := order[0], order[1..];
    Regroup(PutCString(m[k]), PutPairs(tail, m), [0]);
    Regroup(PutCString(k), PutCString(m[k]) + PutPairs(tail, m), [0]);
    PairRead(k, m[k], PutPairs(tail, m) + [0], acc);
    ChosenStep(m, order, acc);
    if tail != [] {
      PairsRead(tail, m, acc[k := m[k]]);
      PairsNotLast(tail, m);
    } else {
      assert PutPairs(tail, m) + [0] == [0];
      ChosenNone(m, acc[k := m[k]]);
    }
  }

  lemma PairsNotLast(order: seq<bytes>, m: map<bytes, bytes>)
    requires order != [] && forall k :: k in order ==> k in m
    ensures |PutPairs(order, m) + [0]| > 1
  {
  }

  lemma NoPairs(acc: map<bytes, bytes>)
    ensures ParsePairs([0], acc) == InvalidFormat
  {
    assert [0][1..] == [];
  }

  lemma {:induction false} ReadIsNulFree(s: bytes, acc: map<bytes, bytes>)
    requires NulFreePairs(acc)
    ensures ParsePairs(s, acc).Ok? ==> NulFreePairs(ParsePairs(s, acc).params)
    decreases |s|
  {
    hide ParseCString;
    var key := ParseCString(s);
    if key.Done? {
      CStringExact(s, key.value, key.rest);
      var value := ParseCString(key.rest);
      if value.Done? {
        CStringExact(key.rest, value.value, value.rest);
        ReadIsNulFree(value.rest, acc[key.value := value.value]);
      }
    }
  }

  /** Whatever order the map is walked in, decoding gives the parameters back exactly when the version is the supported
      one, there is at least one parameter and no string holds a NUL. */
  lemma RoundTrip(version: uint32, order: seq<bytes>, m: map<bytes, bytes>)
    requires Enumerates(order, m)
    ensures Parse(Body(version, order, m)) == Ok(m) <==>
            version == PROTOCOL_VERSION_NUMBER && m != map[] && NulFreePairs(m)
    ensures version == PROTOCOL_VERSION_NUMBER && m == map[] ==> Parse(Body(version, order, m)) == InvalidFormat
  {
    hide PutUint32, Uint32, ParsePairs;
    EnumeratesKeys(order, m);
    var pairs := PutPairs(order, m) + [0];
    Uint32Exact(Body(version, order, m), version, pairs);
    ReadIsNulFree(pairs, map[]);
    if order == [] {
      assert pairs == [0];
      NoPairs(map[]);
    } else {
      if NulFreePairs(m) {
        PairsRead(order, m, map[]);
        ChosenAll(m, order);
      }
    }
  }

  class StartupMessage {
    var ProtocolVersion: uint32
    var Parameters: map<bytes, bytes>

    constructor (version: uint32, params: map<bytes, bytes>)
      ensures ProtocolVersion == version && Parameters == params
    {
      ProtocolVersion, Parameters := version, params;
    }

    method Decode(src: bytes) returns (r: Decoded)
      modifies this
      ensures r == Parse(src)
      ensures r.Ok? ==> ProtocolVersion == PROTOCOL_VERSION_NUMBER && Parameters == r.params
    {
      if |src| < 4 { return TooShort; }
      ProtocolVersion := Uint32(src);
      var rp := 4;
      if ProtocolVersion != PROTOCOL_VERSION_NUMBER { return BadVersion; }
      Parameters := map[];
      while true
        invariant rp <= |src| && ProtocolVersion == PROTOCOL_VERSION_NUMBER
        invariant Parse(src) == ParsePairs(src[rp..], Parameters)
        decreases |src| - rp
      {
        var found, key, next := DecodeCString(src, rp);
        if !found { return InvalidFormat; }
        CStringExact(src[rp..], key, src[next..]);
        var found', value, next' := DecodeCString(src, next);
        if !found' { return InvalidFormat; }
        CStringExact(src[next..], value, src[next'..]);
        Parameters := Parameters[key := value];
        rp := next';
        if |src[rp..]| == 1 {
          if src[rp] != 0 { return BadLastByte; }
          return Ok(Parameters);
        }
      }
    }

    /** The map is walked in an arbitrary order, reported as `order`. */
    method Encode(dst: bytes) returns (r: EncodeResult, ghost order: seq<bytes>)
      ensures Enumerates(order, Parameters)
      ensures var body := Body(ProtocolVersion, order, Parameters);
              r == if |body| + 4 > MAX_MESSAGE_BODY_LEN then TooLarge else Encoded(dst + PutInt32(|body| + 4) + body)
    {
      hide PutUint32, PutInt32, PutCString;
      var sp := |dst|;
      var buf := dst + PutInt32(-1);
      buf := buf + PutUint32(ProtocolVersion);
      ghost var start := buf;
      var remaining := Parameters.Keys;
      order := [];
      while remaining != {}
        invariant forall i, j :: 0 <= i < j < |order| ==> order[i] != order[j]
        invariant forall k :: k in order <==> k in Parameters.Keys && k !in remaining
        invariant remaining <= Parameters.Keys
        invariant buf == start + PutPairs(order, Parameters)
      {
        var k :| k in remaining;
        PutPairsSnoc(order, k, Parameters);
        Regroup(start, PutPairs(order, Parameters), PutCString(k) + PutCString(Parameters[k]));
        buf := AppendPair(buf, k, Parameters[k]);
        order := order + [k];
        remaining := remaining - {k};
      }
      assert (set k | k in order) == Parameters.Keys;
      buf := buf + [0];
      ghost var body := Body(ProtocolVersion, order, Parameters);
      assert buf[..sp] == dst && buf[sp + 4..] == body;
      r := FinishMessage(buf, sp, dst, body);
    }
  }

  method AppendPair(dst: bytes, k: bytes, v: bytes) returns (buf: bytes)
    ensures buf == dst + (PutCString(k) + PutCString(v))
  {
    buf := dst + k;
    buf := buf + [0];
    buf := buf + v;
    buf := buf + [0];
  }

  lemma {:induction false} PutPairsSnoc(order: seq<bytes>, k: bytes, m: map<bytes, bytes>)
    requires k in m && forall x :: x in order ==> x in m
    ensures PutPairs(order + [k], m) == PutPairs(order, m) + (PutCString(k) + PutCString(m[k]))
  {
    if order == [] {
      assert [] + [k] == [k];
    } else {
      assert (order + [k])[1..] == order[1..] + [k];
      PutPairsSnoc(order[1..], k, m);
    }
  }
}
