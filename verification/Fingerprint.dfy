/** The short form of a public key that people compare: the first sixty bits of a digest in
    twelve groups of five, by the browser's loop, whose 32-bit accumulator is never masked.

    The digest is a parameter; the Go side takes the first twelve characters of the base32
    form (section 6 of RFC 4648) of its first eight bytes. */
module Fingerprint {
  import opened BitGroups
  import opened KeyBitmaps

  // ------------------------------------------------------------------ one digit

  // (acc << 8) | value on 32 bits.
  function Push8(acc: bv32, value: bv8): bv32 { (acc << 8) | (value as bv32) }

  // (acc >> n) & 31
  function Low5(acc: bv32, n: nat): (d: bv8)
    requires n < 8
    ensures d < 32
  {
    var shifted :=
      if n == 0 then acc else if n == 1 then acc >> 1 else if n == 2 then acc >> 2 else if n == 3 then acc >> 3
      else if n == 4 then acc >> 4 else if n == 5 then acc >> 5 else if n == 6 then acc >> 6 else acc >> 7;
    (shifted & 31) as bv8
  }

  // The five bits that end `n` bits before the end of two bytes in a row.
  function FiveOf2(last: bv8, value: bv8, n: nat): bv8
    requires n < 8
  {
    if n == 0 then value & 31 else if n == 1 then (value >> 1) & 31 else if n == 2 then (value >> 2) & 31
    else if n == 3 then value >> 3 else if n == 4 then ((last << 4) | (value >> 4)) & 31
    else if n == 5 then ((last << 3) | (value >> 5)) & 31 else if n == 6 then ((last << 2) | (value >> 6)) & 31
    else ((last << 1) | (value >> 7)) & 31
  }

  // The accumulator ends in these sixteen bits.
  predicate EndsIn(acc: bv32, last: bv8, value: bv8) {
    acc & 0xFFFF == ((last as bv32) << 8) | (value as bv32)
  }

  lemma Pushed(acc: bv32, older: bv8, last: bv8, value: bv8)
    requires EndsIn(acc, older, last)
    ensures EndsIn(Push8(acc, value), last, value)
  {
  }

  lemma FiveBits(acc: bv32, last: bv8, value: bv8, n: nat)
    requires n < 8 && EndsIn(acc, last, value)
    ensures Low5(acc, n) == FiveOf2(last, value, n)
  {
    if n == 0 {
    } else if n == 1 {
    } else if n == 2 {
    } else if n == 3 {
    } else if n == 4 {
    } else if n == 5 {
    } else if n == 6 {
    } else {
    }
  }

  // Bit `p` of two bytes in a row.
  predicate BitOf2(last: bv8, value: bv8, p: nat)
    requires p < 16
  {
    if p < 8 then Bit(last, 7 - p) else Bit(value, 15 - p)
  }

  lemma FiveBitsOfOne(last: bv8, value: bv8, n: nat, j: nat)
    requires n < 4 && j < 8
    ensures Bit(FiveOf2(last, value, n), j) == (j < 5 && Bit(value, n + j))
  {
    if n == 0 {
    } else if n == 1 {
    } else if n == 2 {
    } else {
    }
  }

  lemma FiveBitsOfTwo(last: bv8, value: bv8, n: nat, j: nat)
    requires 4 <= n < 8 && j < 8
    ensures Bit(FiveOf2(last, value, n), j) == (j < 5 && if n + j < 8 then Bit(value, n + j) else Bit(last, n + j - 8))
  {
    if n == 4 {
    } else if n == 5 {
    } else if n == 6 {
    } else {
    }
  }

  lemma FiveBitsAre(last: bv8, value: bv8, n: nat, j: nat)
    requires n < 8 && j < 8
    ensures Bit(FiveOf2(last, value, n), j) == (j < 5 && BitOf2(last, value, 15 - n - j))
  {
    hide Bit, FiveOf2;
    if n < 4 {
      FiveBitsOfOne(last, value, n, j);
    } else {
      FiveBitsOfTwo(last, value, n, j);
    }
  }

  // ------------------------------------------------------------------ all of them

  // The byte before the `i`th, zero at the start.
  function Before(bytes: seq<bv8>, i: nat): bv8
    requires i <= |bytes|
  {
    if i == 0 then 0 else bytes[i - 1]
  }

  // Group `k` of five bits: its last bit is in byte `i`, `n` bits before that byte's end.
  function DigitAt(bytes: seq<bv8>, k: nat): (d: bv8)
    requires 5 * k + 5 <= 8 * |bytes|
    ensures d < 32
  {
    var i := (5 * k + 4) / 8;
    FiveOf2(Before(bytes, i), bytes[i], 8 * i + 7 - (5 * k + 4))
  }

  // The first `n` groups.
  function Digits(bytes: seq<bv8>, n: nat): (d: seq<bv8>)
    requires 5 * n <= 8 * |bytes|
    ensures |d| == n
  {
    seq(n, k requires 0 <= k < n => DigitAt(bytes, k))
  }

  lemma DigitInStream(bytes: seq<bv8>, k: nat, j: nat)
    requires 5 * k + 5 <= 8 * |bytes| && j < 8
    ensures Bit(DigitAt(bytes, k), j) == (j < 5 && StreamBit(bytes, 8, 5 * k + (4 - j)))
  {
    hide Bit, StreamBit, FiveOf2;
    var i := (5 * k + 4) / 8;
    var n := 8 * i + 7 - (5 * k + 4);
    FiveBitsAre(Before(bytes, i), bytes[i], n, j);
    if j < 5 {
      InTwoBytes(bytes, i, 15 - n - j, 5 * k + 4 - j);
    }
  }

  lemma InTwoBytes(bytes: seq<bv8>, i: nat, p: nat, n: nat)
    requires i < |bytes| && p < 16 && n + 8 == 8 * i + p
    ensures StreamBit(bytes, 8, n) == BitOf2(Before(bytes, i), bytes[i], p)
  {
    hide Bit;
    if p < 8 {
      assert n / 8 == i - 1 && n % 8 == p;
    } else {
      assert n / 8 == i && n % 8 == p - 8;
    }
  }

  lemma DigitsRegroup(bytes: seq<bv8>, n: nat)
    requires 5 * n <= 8 * |bytes|
    ensures Regrouped(bytes, 8, Digits(bytes, n), 5)
  {
    hide Bit, StreamBit, DigitAt;
    forall k: nat, j: nat | k < n && j < 8
      ensures Bit(Digits(bytes, n)[k], j) == (j < 5 && StreamBit(bytes, 8, 5 * k + (5 - 1 - j)))
    {
      DigitInStream(bytes, k, j);
    }
  }

  lemma OneMoreDigit(bytes: seq<bv8>, n: nat)
    requires 5 * n + 5 <= 8 * |bytes|
    ensures Digits(bytes, n + 1) == Digits(bytes, n) + [DigitAt(bytes, n)]
  {
    hide DigitAt;
  }

  lemma NextDigit(bytes: seq<bv8>, i: nat, bits: nat, k: nat, acc: bv32)
    requires i < |bytes| && EndsIn(acc, Before(bytes, i), bytes[i]) && bits < 8 && 5 * k + 5 + bits == 8 * i + 8
    ensures DigitAt(bytes, k) == Low5(acc, bits)
  {
    hide EndsIn, FiveOf2, Low5;
    assert (5 * k + 4) / 8 == i;
    FiveBits(acc, Before(bytes, i), bytes[i], bits);
  }

  method FingerprintDigits(digest: seq<bv8>) returns (out: seq<bv8>)
    requires |digest| == 32
    ensures out == Digits(digest[..8], 12)
  {
    hide EndsIn, FiveOf2, Low5, Push8, DigitAt, Digits;
    var bits, acc := 0, 0;
    out := [];
    ghost var d := digest[..8];
    Start();
    assert Digits(d, 0) == [];
    var i := 0;
    while i < 8 && |out| < 12
      invariant i <= 8 && |out| <= 12 && bits < 5 && 5 * |out| + bits == 8 * i
      invariant out == Digits(d, |out|)
      invariant EndsIn(acc, if i >= 2 then digest[i - 2] else 0, Before(d, i))
    {
      Pushed(acc, if i >= 2 then digest[i - 2] else 0, Before(d, i), digest[i]);
      acc := Push8(acc, digest[i]);
      bits := bits + 8;
      while bits >= 5 && |out| < 12
        invariant |out| <= 12 && 5 * |out| + bits == 8 * i + 8 && bits < 13
        invariant out == Digits(d, |out|)
        decreases bits
      {
        bits := bits - 5;
        NextDigit(d, i, bits, |out|, acc);
        OneMoreDigit(d, |out|);
        out := out + [Low5(acc, bits)];
      }
      i := i + 1;
    }
  }

  lemma Start()
    ensures EndsIn(0, 0, 0)
  {
  }

  // The loop yields what base32 makes of the first eight bytes, less its thirteenth digit.
  lemma SameAsBase32(digest: seq<bv8>, base32: seq<bv8>)
    requires |digest| == 32 && |base32| == 13 && Regrouped(digest[..8], 8, base32, 5)
    ensures base32[..12] == Digits(digest[..8], 12)
  {
    hide Regrouped, DigitAt;
    DigitsRegroup(digest[..8], 12);
    FirstOfRegrouped(digest[..8], base32, 12);
    RegroupedIsUnique(digest[..8], 8, base32[..12], Digits(digest[..8], 12), 5);
  }

  lemma FirstOfRegrouped(bytes: seq<bv8>, out: seq<bv8>, n: nat)
    requires Regrouped(bytes, 8, out, 5) && n <= |out|
    ensures Regrouped(bytes, 8, out[..n], 5)
  {
    hide Bit, StreamBit;
  }

  // Two fingerprints are alike just when the digests agree on their first sixty bits.
  lemma SixtyBits(a: seq<bv8>, b: seq<bv8>)
    requires |a| == |b| == 32
    ensures Digits(a[..8], 12) == Digits(b[..8], 12) <==>
      forall n: nat | n < 60 :: StreamBit(a[..8], 8, n) == StreamBit(b[..8], 8, n)
  {
    hide Bit, StreamBit, Digits, Regrouped;
    DigitsRegroup(a[..8], 12);
    DigitsRegroup(b[..8], 12);
    if Digits(a[..8], 12) == Digits(b[..8], 12) {
      forall n: nat | n < 60 ensures StreamBit(a[..8], 8, n) == StreamBit(b[..8], 8, n) {
        SameStream(a[..8], 8, Digits(a[..8], 12), 5, n);
        SameStream(b[..8], 8, Digits(b[..8], 12), 5, n);
      }
    }
    if forall n: nat | n < 60 :: StreamBit(a[..8], 8, n) == StreamBit(b[..8], 8, n) {
      RegroupsTheOther(a[..8], b[..8], Digits(a[..8], 12));
      RegroupedIsUnique(b[..8], 8, Digits(a[..8], 12), Digits(b[..8], 12), 5);
    }
  }

  lemma RegroupsTheOther(a: seq<bv8>, b: seq<bv8>, out: seq<bv8>)
    requires |out| == 12 && Regrouped(a, 8, out, 5)
    requires forall n: nat | n < 60 :: StreamBit(a, 8, n) == StreamBit(b, 8, n)
    ensures Regrouped(b, 8, out, 5)
  {
    hide Bit, StreamBit;
  }
}
