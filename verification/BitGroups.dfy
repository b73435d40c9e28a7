/** Streams of bits cut into groups: what base64url (section 5 of RFC 4648) and base32
    (section 6) say a text stands for, independently of any loop that computes it. */
module BitGroups {
  import opened KeyBitmaps

  // Bit `n` of a stream of `w`-bit groups, the most significant bit of each first; past the
  // end there are only zeros.
  predicate StreamBit(groups: seq<bv8>, w: nat, n: nat)
    requires 0 < w <= 8
  {
    n / w < |groups| && Bit(groups[n / w], w - 1 - n % w)
  }

  // `out` is the same stream in `o`-bit groups, as far as it goes.
  ghost predicate Regrouped(groups: seq<bv8>, w: nat, out: seq<bv8>, o: nat)
    requires 0 < w <= 8 && 0 < o <= 8
  {
    forall k: nat, j: nat | k < |out| && j < 8 ::
      Bit(out[k], j) == (j < o && StreamBit(groups, w, o * k + (o - 1 - j)))
  }

  // Cutting a stream leaves no choice.
  lemma RegroupedIsUnique(groups: seq<bv8>, w: nat, a: seq<bv8>, b: seq<bv8>, o: nat)
    requires 0 < w <= 8 && 0 < o <= 8 && |a| == |b|
    requires Regrouped(groups, w, a, o) && Regrouped(groups, w, b, o)
    ensures a == b
  {
    hide Bit, StreamBit;
    forall k | 0 <= k < |a| ensures a[k] == b[k] {
      forall i | 0 <= i < 8 ensures Bit(a[k], i) == Bit(b[k], i) {
        assert Bit(a[k], i) == (i < o && StreamBit(groups, w, o * k + (o - 1 - i)));
      }
      SameBitsSameByte(a[k], b[k]);
    }
  }

  lemma Divided(n: nat, o: nat)
    requires o > 0
    ensures n == o * (n / o) + n % o && n % o < o
  {
  }

  // What was cut is still the same stream, as far as it goes.
  lemma SameStream(groups: seq<bv8>, w: nat, out: seq<bv8>, o: nat, n: nat)
    requires 0 < w <= 8 && 0 < o <= 8 && Regrouped(groups, w, out, o) && n / o < |out|
    ensures StreamBit(out, o, n) == StreamBit(groups, w, n)
  {
    Divided(n, o);
    BitOfCut(groups, w, out, o, n / o, o - 1 - n % o, n);
    hide Bit;
  }

  lemma BitOfCut(groups: seq<bv8>, w: nat, out: seq<bv8>, o: nat, k: nat, j: nat, n: nat)
    requires 0 < w <= 8 && 0 < o <= 8 && Regrouped(groups, w, out, o) && k < |out| && j < o
    requires n == o * k + (o - 1 - j)
    ensures Bit(out[k], j) == StreamBit(groups, w, n)
  {
    hide Bit, StreamBit;
  }

  // Cutting bytes into sextets and the sextets into bytes gives the bytes back.
  lemma ThereAndBack(bytes: seq<bv8>, sextets: seq<bv8>, out: seq<bv8>)
    requires Regrouped(bytes, 8, sextets, 6) && Regrouped(sextets, 6, out, 8)
    requires |out| == |bytes| && 8 * |bytes| <= 6 * |sextets|
    ensures out == bytes
  {
    hide Bit, StreamBit, Regrouped;
    forall k | 0 <= k < |out| ensures out[k] == bytes[k] {
      forall j | 0 <= j < 8 ensures Bit(out[k], j) == Bit(bytes[k], j) {
        var n := 8 * k + (7 - j);
        SameStream(sextets, 6, out, 8, n);
        SameStream(bytes, 8, sextets, 6, n);
        BitOfByte(out, k, j);
        BitOfByte(bytes, k, j);
      }
      SameBitsSameByte(out[k], bytes[k]);
    }
  }

  lemma BitOfByte(bytes: seq<bv8>, k: nat, j: nat)
    requires k < |bytes| && j < 8
    ensures StreamBit(bytes, 8, 8 * k + (7 - j)) == Bit(bytes[k], j)
  {
    hide Bit;
    assert (8 * k + (7 - j)) / 8 == k && (8 * k + (7 - j)) % 8 == 7 - j;
  }
}
