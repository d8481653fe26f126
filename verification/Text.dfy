/** The string helpers of the Go standard library that the hub and the reducer use. */
module Text {
  predicate IsSpace(c: char) { c in " \t\n\r" || c as int in {0x0b, 0x0c, 0x85, 0xa0} }

  predicate Blank(s: string) { forall i :: 0 <= i < |s| ==> IsSpace(s[i]) }

  function TrimSpace(s: string): string {
    if s == [] then []
    else if IsSpace(s[0]) then TrimSpace(s[1..])
    else if IsSpace(s[|s| - 1]) then TrimSpace(s[..|s| - 1])
    else s
  }

  /** A natural number in decimal. */
  function Itoa(n: nat): string {
    if n < 10 then [('0' as int + n) as char] else Itoa(n / 10) + [('0' as int + n % 10) as char]
  }

  function Power10(k: nat): nat { if k == 0 then 1 else 10 * Power10(k - 1) }

  predicate AllDigits(s: string) { forall i :: 0 <= i < |s| ==> '0' <= s[i] <= '9' }

  /** What a string of digits is worth: each digit times ten to the number of digits behind it. */
  function Worth(s: string): nat
    requires AllDigits(s)
  {
    if s == [] then 0 else (s[0] as int - '0' as int) * Power10(|s| - 1) + Worth(s[1..])
  }

  lemma {:induction false} WorthSnoc(s: string, d: char)
    requires AllDigits(s) && '0' <= d <= '9'
    ensures AllDigits(s + [d]) && Worth(s + [d]) == 10 * Worth(s) + (d as int - '0' as int)
  {
    if s == [] {
      assert Worth([d]) == (d as int - '0' as int) * Power10(0) + Worth([d][1..]);
    } else {
      WorthSnoc(s[1..], d);
      assert (s + [d])[1..] == s[1..] + [d];
      var k, first := |s| - 1, s[0] as int - '0' as int;
      assert first * Power10(k + 1) == 10 * (first * Power10(k));
    }
  }

  lemma {:induction false} ItoaWorth(n: nat)
    ensures Itoa(n) != "" && AllDigits(Itoa(n)) && Worth(Itoa(n)) == n
  {
    if n < 10 {
      assert Itoa(n)[1..] == [];
    } else {
      ItoaWorth(n / 10);
      WorthSnoc(Itoa(n / 10), ('0' as int + n % 10) as char);
    }
  }

  /** Trimming takes away only spaces, from both ends, until no space stands there. */
  lemma {:induction false} TrimExact(s: string) returns (front: string, back: string)
    ensures s == front + TrimSpace(s) + back && Blank(front) && Blank(back)
    ensures var t := TrimSpace(s); t != "" ==> !IsSpace(t[0]) && !IsSpace(t[|t| - 1])
  {
    hide IsSpace;
    front, back := "", "";
    if s != [] {
      if IsSpace(s[0]) {
        front, back := TrimExact(s[1..]);
        front := [s[0]] + front;
        assert s == [s[0]] + s[1..];
      } else if IsSpace(s[|s| - 1]) {
        front, back := TrimExact(s[..|s| - 1]);
        back := back + [s[|s| - 1]];
        assert s == s[..|s| - 1] + [s[|s| - 1]];
      }
    }
  }

  predicate HasPrefix(s: string, prefix: string) { prefix <= s }

  /** Trimming does not remove a prefix that neither starts nor ends with a space. */
  lemma {:induction false} TrimKeepsPrefix(s: string, prefix: string)
    requires HasPrefix(s, prefix) && prefix != [] && !IsSpace(prefix[0]) && !IsSpace(prefix[|prefix| - 1])
    ensures HasPrefix(TrimSpace(s), prefix)
  {
    assert s[0] == prefix[0];
    if IsSpace(s[|s| - 1]) {
      assert |prefix| < |s| by { assert s[|prefix| - 1] == prefix[|prefix| - 1]; }
      TrimKeepsPrefix(s[..|s| - 1], prefix);
    }
  }
}
