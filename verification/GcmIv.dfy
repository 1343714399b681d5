/** The in-place increment of a lock's AES-GCM initialisation vector: inc_s of
    section 6.2 of NIST SP 800-38D over the whole 12-byte value. */
module GcmIv {
  /** A byte as a number, so that its wrap-around is explicit. */
  newtype octet = x: int | 0 <= x < 256

  function NextOctet(b: octet): octet {
    if b == 0xFF then 0 else b + 1
  }

  const GCM_IV_SIZE := 12

  /** The value of a big-endian byte string. */
  function Value(s: seq<octet>): nat {
    if s == [] then 0 else 256 * Value(s[..|s| - 1]) + s[|s| - 1] as nat
  }

  function Modulus(n: nat): (m: nat)
    ensures m >= 1
  {
    if n == 0 then 1 else 256 * Modulus(n - 1)
  }

  /** The last byte goes up by one; when it wraps, the carry goes to the rest. */
  function Increment(s: seq<octet>): (t: seq<octet>)
    ensures |t| == |s|
  {
    if s == [] then []
    else
      var rest, last := s[..|s| - 1], s[|s| - 1];
      if NextOctet(last) == 0 then Increment(rest) + [0] else rest + [NextOctet(last)]
  }

  lemma IncrementSnoc(s: seq<octet>, b: octet)
    ensures Increment(s + [b]) == if NextOctet(b) == 0 then Increment(s) + [0] else s + [NextOctet(b)]
  {
    assert (s + [b])[..|s|] == s;
  }

  method IncrementGcmIv(iv: array<octet>)
    modifies iv
    ensures iv[..] == Increment(old(iv[..]))
  {
    ghost var was := iv[..];
    ghost var done: seq<octet> := [];
    var i := iv.Length - 1;
    assert was == was[..i + 1];
    while i >= 0
      invariant -1 <= i < iv.Length
      invariant iv[..] == was[..i + 1] + done
      invariant Increment(was) == Increment(was[..i + 1]) + done
    {
      assert was[..i + 1] == was[..i] + [was[i]];
      IncrementSnoc(was[..i], was[i]);
      iv[i] := NextOctet(iv[i]);
      assert iv[..] == was[..i] + [NextOctet(was[i])] + done;
      if iv[i] != 0 {
        return;
      }
      done := [0] + done;
      i := i - 1;
    }
  }

  lemma {:induction false} ValueBound(s: seq<octet>)
    ensures Value(s) < Modulus(|s|)
  {
    if s != [] {
      ValueBound(s[..|s| - 1]);
    }
  }

  lemma ValueSnoc(s: seq<octet>, b: octet)
    ensures Value(s + [b]) == 256 * Value(s) + b as nat
  {
    assert (s + [b])[..|s|] == s;
  }

  /** The increment adds one, wrapping from the largest value to zero. */
  lemma {:induction false} IncrementAddsOne(s: seq<octet>)
    ensures Value(Increment(s)) == if Value(s) + 1 == Modulus(|s|) then 0 else Value(s) + 1
  {
    if s != [] {
      var rest, last := s[..|s| - 1], s[|s| - 1];
      IncrementAddsOne(rest);
      ValueBound(rest);
      if NextOctet(last) == 0 {
        ValueSnoc(Increment(rest), 0);
      } else {
        ValueSnoc(rest, NextOctet(last));
      }
    }
  }

  function Times(s: seq<octet>, k: nat): (t: seq<octet>)
    ensures |t| == |s|
  {
    if k == 0 then s else Increment(Times(s, k - 1))
  }

  lemma {:induction false} TimesAdds(s: seq<octet>, k: nat)
    requires k <= Modulus(|s|)
    ensures Value(Times(s, k)) == if Value(s) + k < Modulus(|s|) then Value(s) + k else Value(s) + k - Modulus(|s|)
  {
    ValueBound(s);
    if k > 0 {
      TimesAdds(s, k - 1);
      IncrementAddsOne(Times(s, k - 1));
    }
  }

  lemma {:induction false} ValueInjective(a: seq<octet>, b: seq<octet>)
    requires |a| == |b|
    ensures Value(a) == Value(b) <==> a == b
  {
    if a != [] {
      var n := |a| - 1;
      ValueInjective(a[..n], b[..n]);
      assert a == a[..n] + [a[n]] && b == b[..n] + [b[n]];
    }
  }

  const TWO_TO_THE_96: nat := 0x1_0000_0000_0000_0000_0000_0000

  lemma IvModulus()
    ensures Modulus(GCM_IV_SIZE) == TWO_TO_THE_96
  {
    assert Modulus(4) == 0x1_0000_0000;
    assert Modulus(8) == 0x1_0000_0000_0000_0000;
  }

  lemma IvBound(iv: seq<octet>)
    requires |iv| == GCM_IV_SIZE
    ensures Value(iv) < Modulus(|iv|) == TWO_TO_THE_96
  {
    IvModulus();
    ValueBound(iv);
  }

  lemma WrapIsModulo(v: nat, w: nat)
    requires v < TWO_TO_THE_96
    requires w == if v + 1 == TWO_TO_THE_96 then 0 else v + 1
    ensures w == (v + 1) % TWO_TO_THE_96
  {
  }

  /** inc_96: the increment of an IV adds one modulo 2 to the power 96. */
  lemma IncrementIvAddsOne(iv: seq<octet>)
    requires |iv| == GCM_IV_SIZE
    ensures Value(Increment(iv)) == (Value(iv) + 1) % TWO_TO_THE_96
  {
    IvBound(iv);
    IncrementAddsOne(iv);
    WrapIsModulo(Value(iv), Value(Increment(iv)));
  }

  /** An increment is undone by exactly 2^96 - 1 further ones, and by no fewer. */
  lemma IncrementUndone(iv: seq<octet>, k: nat)
    requires |iv| == GCM_IV_SIZE && k < TWO_TO_THE_96
    ensures Times(iv, k + 1) == iv <==> k == TWO_TO_THE_96 - 1
  {
    IvBound(iv);
    TimesAdds(iv, k + 1);
    ValueInjective(Times(iv, k + 1), iv);
  }
}
