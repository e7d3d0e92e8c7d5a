/** Positional numerals in an arbitrary base, most significant digit first.
    Big-endian byte strings (base 256) and Base58 text (base 58) are both numerals,
    so the lemmas here serve the big-integer code and the address code alike. */
module Numerals {
  import ModArith

  type byte = b: nat | b < 256

  predicate IsNumeral(ds: seq<nat>, b: nat) {
    forall i :: 0 <= i < |ds| ==> ds[i] < b
  }

  function Value(ds: seq<nat>, b: nat): nat {
    if ds == [] then 0 else Value(ds[..|ds| - 1], b) * b + ds[|ds| - 1]
  }

  /** The shortest numeral of a number: no digits at all for zero. */
  function Digits(n: nat, b: nat): (ds: seq<nat>)
    requires b >= 2
    ensures IsNumeral(ds, b)
    ensures n > 0 ==> ds != [] && ds[0] != 0
    ensures n == 0 ==> ds == []
    decreases n
  {
    if n == 0 then []
    else
      DivShrinks(n, b);
      Digits(n / b, b) + [n % b]
  }

  function LeadingZeros(ds: seq<nat>): (z: nat)
    ensures z <= |ds|
    ensures forall i :: 0 <= i < z ==> ds[i] == 0
    ensures z < |ds| ==> ds[z] != 0
  {
    if ds != [] && ds[0] == 0 then 1 + LeadingZeros(ds[1..]) else 0
  }

  function Zeros(n: nat): (z: seq<nat>)
    ensures |z| == n && forall i :: 0 <= i < n ==> z[i] == 0
  {
    seq(n, _ => 0)
  }

  /** Change of base that keeps leading zeros, one for one. */
  function Convert(ds: seq<nat>, b: nat, c: nat): (r: seq<nat>)
    requires c >= 2
    ensures c >= 1 && IsNumeral(r, c)
  {
    Zeros(LeadingZeros(ds)) + Digits(Value(ds, b), c)
  }

  // ----- arithmetic of one digit

  lemma DivShrinks(n: nat, b: nat)
    requires n > 0 && b >= 2
    ensures n / b < n
  {
  }

  lemma DivMod(n: nat, b: nat)
    requires b > 0
    ensures (n / b) * b + n % b == n
  {
  }

  lemma QuotientUnique(q: nat, d: nat, b: nat)
    requires d < b
    ensures (q * b + d) / b == q && (q * b + d) % b == d
  {
    var n := q * b + d;
    var p := n / b;
    assert n == p * b + n % b;
    assert p < q ==> (p + 1) * b <= q * b;
    assert p > q ==> (q + 1) * b <= p * b;
  }

  // ----- conversions

  lemma {:induction false} ValueOfDigits(n: nat, b: nat)
    requires b >= 2
    ensures Value(Digits(n, b), b) == n
    decreases n
  {
    if n > 0 {
      DivShrinks(n, b);
      ValueOfDigits(n / b, b);
      DivMod(n, b);
      var ds := Digits(n / b, b) + [n % b];
      assert ds[..|ds| - 1] == Digits(n / b, b);
    }
  }

  lemma {:induction false} ValueIgnoresLeadingZeros(z: nat, ds: seq<nat>, b: nat)
    ensures Value(Zeros(z) + ds, b) == Value(ds, b)
    decreases z + |ds|
  {
    var all := Zeros(z) + ds;
    if ds != [] {
      assert all[..|all| - 1] == Zeros(z) + ds[..|ds| - 1];
      ValueIgnoresLeadingZeros(z, ds[..|ds| - 1], b);
    } else if z > 0 {
      assert all[..|all| - 1] == Zeros(z - 1) + [];
      ValueIgnoresLeadingZeros(z - 1, [], b);
      assert all[|all| - 1] == 0;
    }
  }

  lemma {:induction false} DigitsOfValue(ds: seq<nat>, b: nat)
    requires b >= 2 && IsNumeral(ds, b)
    requires ds != [] ==> ds[0] != 0
    ensures Digits(Value(ds, b), b) == ds
    decreases |ds|
  {
    if ds != [] {
      var front, last := ds[..|ds| - 1], ds[|ds| - 1];
      DigitsOfValue(front, b);
      QuotientUnique(Value(front, b), last, b);
      if front == [] {
        assert Value(front, b) == 0 && ds == [last];
      }
      assert Digits(Value(ds, b), b) == Digits(Value(front, b), b) + [last];
      assert front + [last] == ds;
    }
  }

  /** A numeral is its leading zeros followed by the shortest numeral of its value. */
  lemma {:induction false} NumeralSplits(ds: seq<nat>, b: nat)
    requires b >= 2 && IsNumeral(ds, b)
    ensures Zeros(LeadingZeros(ds)) + Digits(Value(ds, b), b) == ds
  {
    var z := LeadingZeros(ds);
    assert ds == Zeros(z) + ds[z..];
    ValueIgnoresLeadingZeros(z, ds[z..], b);
    DigitsOfValue(ds[z..], b);
  }

  lemma {:induction false} LeadingZerosOf(z: nat, ds: seq<nat>)
    requires ds != [] ==> ds[0] != 0
    ensures LeadingZeros(Zeros(z) + ds) == z
    decreases z
  {
    var all := Zeros(z) + ds;
    var k := LeadingZeros(all);
    assert forall i :: 0 <= i < z ==> all[i] == 0;
    assert z < |all| ==> all[z] == ds[0] != 0;
  }

  // ----- the positional law

  lemma ValueOne(d: nat, b: nat)
    ensures Value([d], b) == d
  {
    assert [d][..0] == [];
  }

  /** Digits further left count for a power of the base each. */
  lemma {:induction false} ValueConcat(hi: seq<nat>, lo: seq<nat>, b: nat)
    ensures Value(hi + lo, b) == Value(hi, b) * ModArith.Pow(b, |lo|) + Value(lo, b)
    decreases |lo|
  {
    if lo == [] {
      assert hi + lo == hi;
    } else {
      var k := |lo| - 1;
      assert (hi + lo)[..|hi + lo| - 1] == hi + lo[..k];
      ValueConcat(hi, lo[..k], b);
      OneDigitMore(Value(hi, b), ModArith.Pow(b, k), Value(lo[..k], b), lo[k], b);
    }
  }

  lemma OneDigitMore(h: nat, p: nat, v: nat, d: nat, b: nat)
    ensures (h * p + v) * b + d == h * (b * p) + (v * b + d)
  {
    assert (h * p) * b == h * (b * p);
  }

  /** Converting to another base and back is the identity on every numeral. */
  lemma {:induction false} ConvertRoundTrip(ds: seq<nat>, b: nat, c: nat)
    requires b >= 2 && c >= 2 && IsNumeral(ds, b)
    ensures Convert(Convert(ds, b, c), c, b) == ds
  {
    var z, v := LeadingZeros(ds), Value(ds, b);
    LeadingZerosOf(z, Digits(v, c));
    ValueIgnoresLeadingZeros(z, Digits(v, c), c);
    ValueOfDigits(v, c);
    NumeralSplits(ds, b);
  }

  // ----- big integers as byte strings (math/big SetBytes and Bytes)

  function SetBytes(bs: seq<byte>): nat {
    Value(bs, 256)
  }

  function Bytes(n: nat): (bs: seq<byte>) {
    var ds := Digits(n, 256);
    assert forall i :: 0 <= i < |ds| ==> ds[i] < 256;
    ds
  }

  lemma SetBytesOfBytes(n: nat)
    ensures SetBytes(Bytes(n)) == n
  {
    ValueOfDigits(n, 256);
  }

  /** What number a byte string stands for: each byte counts for a power of 256, the last for one. */
  lemma SetBytesIsBigEndian(hi: seq<byte>, lo: seq<byte>, x: byte)
    ensures SetBytes([]) == 0 && SetBytes([x]) == x
    ensures SetBytes(hi + lo) == SetBytes(hi) * ModArith.Pow(256, |lo|) + SetBytes(lo)
  {
    ValueOne(x, 256);
    ValueConcat(hi, lo, 256);
  }

  /** Bytes gives the one string for a number that has no leading zero byte. */
  lemma BytesExactly(bs: seq<byte>, n: nat)
    ensures bs == Bytes(n) <==> SetBytes(bs) == n && (bs == [] || bs[0] != 0)
  {
    SetBytesOfBytes(n);
    if bs == [] || bs[0] != 0 {
      DigitsOfValue(bs, 256);
    }
  }
}
