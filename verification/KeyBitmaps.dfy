/** The 256-bit map of held keys that every key packet carries, and the difference of two.

    A byte used as a set of bits is a `bv8`. */
module KeyBitmaps {

  const USAGES: nat := 256

  // One bit per USB HID usage.
  type Bitmap = s: seq<bv8> | |s| == 32 witness seq(32, _ => 0)

  function NoKeys(): Bitmap { seq(32, _ => 0) }

  // A key going down or up.
  datatype Transition = Transition(usage: nat, down: bool)

  // ------------------------------------------------------------------ one byte

  // 1 << i
  function Mask(i: nat): bv8
    requires i < 8
  {
    if i == 0 then 1 else if i == 1 then 2 else if i == 2 then 4 else if i == 3 then 8
    else if i == 4 then 16 else if i == 5 then 32 else if i == 6 then 64 else 128
  }

  predicate Bit(b: bv8, i: nat)
    requires i < 8
  {
    b & Mask(i) != 0
  }

  function WithBit(b: bv8, i: nat, on: bool): bv8
    requires i < 8
  {
    if on then b | Mask(i) else b & !Mask(i)
  }

  lemma NothingSet(i: nat)
    requires i < 8
    ensures !Bit(0, i)
  {
  }

  lemma WithBitSetsOne(b: bv8, i: nat, on: bool, j: nat)
    requires i < 8 && j < 8
    ensures Bit(WithBit(b, i, on), j) == if i == j then on else Bit(b, j)
  {
  }

  // b |= 1 << i, or b &= ~(1 << i).
  method BitSet(b: bv8, i: nat, on: bool) returns (r: bv8)
    requires i < 8
    ensures r == WithBit(b, i, on)
  {
    hide Mask;
    var mask := Mask(i);
    if on {
      r := b | mask;
    } else {
      r := b & !mask;
    }
  }

  lemma XorMask(a: bv8, b: bv8, m: bv8)
    requires m in {1, 2, 4, 8, 16, 32, 64, 128}
    ensures ((a ^ b) & m != 0) == ((a & m != 0) != (b & m != 0))
  {
  }

  lemma MaskIsABit(i: nat)
    requires i < 8
    ensures Mask(i) in {1, 2, 4, 8, 16, 32, 64, 128}
  {
  }

  lemma XorMarksDifferences(a: bv8, b: bv8, i: nat)
    requires i < 8
    ensures Bit(a ^ b, i) == (Bit(a, i) != Bit(b, i))
  {
    hide Mask;
    MaskIsABit(i);
    XorMask(a, b, Mask(i));
  }

  lemma SameBitsSameByte(a: bv8, b: bv8)
    requires forall i :: 0 <= i < 8 ==> Bit(a, i) == Bit(b, i)
    ensures a == b
  {
    assert Bit(a, 0) == Bit(b, 0) && Bit(a, 1) == Bit(b, 1) && Bit(a, 2) == Bit(b, 2) && Bit(a, 3) == Bit(b, 3);
    assert Bit(a, 4) == Bit(b, 4) && Bit(a, 5) == Bit(b, 5) && Bit(a, 6) == Bit(b, 6) && Bit(a, 7) == Bit(b, 7);
  }

  // ------------------------------------------------------------------ the bitmap

  predicate Held(m: Bitmap, usage: nat) {
    usage < USAGES && Bit(m[usage / 8], usage % 8)
  }

  function WithKey(m: Bitmap, usage: nat, down: bool): Bitmap {
    if usage >= USAGES then m else m[usage / 8 := WithBit(m[usage / 8], usage % 8, down)]
  }

  lemma WithKeySetsOne(m: Bitmap, usage: nat, down: bool, other: nat)
    ensures Held(WithKey(m, usage, down), other) == if usage == other && usage < USAGES then down else Held(m, other)
  {
    if usage < USAGES && other < USAGES && usage / 8 == other / 8 {
      WithBitSetsOne(m[usage / 8], usage % 8, down, other % 8);
    }
  }

  // A bitmap is determined by the keys it holds.
  lemma SameKeysSameBitmap(a: Bitmap, b: Bitmap)
    requires forall u :: 0 <= u < USAGES ==> Held(a, u) == Held(b, u)
    ensures a == b
  {
    forall k | 0 <= k < 32 ensures a[k] == b[k] {
      forall i | 0 <= i < 8 ensures Bit(a[k], i) == Bit(b[k], i) {
        assert (8 * k + i) / 8 == k && (8 * k + i) % 8 == i;
        assert Held(a, 8 * k + i) == Held(b, 8 * k + i);
      }
      SameBitsSameByte(a[k], b[k]);
    }
  }

  // ---------------------------------------------------------------- differences

  // The transitions of usages below `n` that lead from `a` to `b`, in ascending order.
  function Differences(a: Bitmap, b: Bitmap, n: nat): seq<Transition> {
    if n == 0 then []
    else
      Differences(a, b, n - 1) +
      if Held(a, n - 1) != Held(b, n - 1) then [Transition(n - 1, Held(b, n - 1))] else []
  }

  lemma NoDifferences(a: Bitmap, b: Bitmap)
    ensures Differences(a, b, 0) == []
  {
  }

  lemma NextDifference(a: Bitmap, b: Bitmap, n: nat)
    ensures Differences(a, b, n + 1)
      == Differences(a, b, n) + if Held(a, n) != Held(b, n) then [Transition(n, Held(b, n))] else []
  {
    hide Held;
  }

  // Exactly the usages on which the two differ, each once, in ascending order, with the
  // direction of the new value.
  lemma {:induction false} DifferencesAreExact(a: Bitmap, b: Bitmap, n: nat)
    ensures var d := Differences(a, b, n);
      && (forall i, j | 0 <= i < j < |d| :: d[i].usage < d[j].usage)
      && (forall t :: t in d <==> t.usage < n && Held(a, t.usage) != Held(b, t.usage) && t.down == Held(b, t.usage))
  {
    hide Held;
    if n > 0 {
      DifferencesAreExact(a, b, n - 1);
      var d := Differences(a, b, n - 1);
      assert forall i | 0 <= i < |d| :: d[i] in d;
    }
  }

  function Replayed(m: Bitmap, ts: seq<Transition>): Bitmap {
    if ts == [] then m
    else WithKey(Replayed(m, ts[..|ts| - 1]), ts[|ts| - 1].usage, ts[|ts| - 1].down)
  }

  lemma ReplayedMore(m: Bitmap, ts: seq<Transition>, t: Transition)
    ensures Replayed(m, ts + [t]) == WithKey(Replayed(m, ts), t.usage, t.down)
  {
    hide WithKey;
    assert (ts + [t])[..|ts|] == ts;
  }

  lemma ReplayNextUsage(a: Bitmap, b: Bitmap, n: nat)
    requires n < USAGES
    ensures var before := Replayed(a, Differences(a, b, n));
      Replayed(a, Differences(a, b, n + 1))
        == if Held(a, n) != Held(b, n) then WithKey(before, n, Held(b, n)) else before
  {
    hide Held, WithKey, Replayed;
    ReplayedMore(a, Differences(a, b, n), Transition(n, Held(b, n)));
    assert Differences(a, b, n) + [] == Differences(a, b, n);
  }

  lemma {:induction false} ReplayCopiesBelow(a: Bitmap, b: Bitmap, n: nat, u: nat)
    requires n <= USAGES
    ensures Held(Replayed(a, Differences(a, b, n)), u) == if u < n then Held(b, u) else Held(a, u)
  {
    hide *;
    if n == 0 {
      NothingReplayed(a, b);
    } else {
      ReplayCopiesBelow(a, b, n - 1, u);
      ReplayNextUsage(a, b, n - 1);
      WithKeySetsOne(Replayed(a, Differences(a, b, n - 1)), n - 1, Held(b, n - 1), u);
    }
  }

  lemma NothingReplayed(a: Bitmap, b: Bitmap)
    ensures Replayed(a, Differences(a, b, 0)) == a
  {
  }

  // Replaying the difference turns the old bitmap into the new one.
  lemma ReplayReachesNext(a: Bitmap, b: Bitmap)
    ensures Replayed(a, Differences(a, b, USAGES)) == b
  {
    forall u | 0 <= u < USAGES ensures Held(Replayed(a, Differences(a, b, USAGES)), u) == Held(b, u) {
      ReplayCopiesBelow(a, b, USAGES, u);
    }
    SameKeysSameBitmap(Replayed(a, Differences(a, b, USAGES)), b);
  }

  // Usages on which two bitmaps agree contribute nothing.
  lemma {:induction false} EqualByteAddsNothing(a: Bitmap, b: Bitmap, k: nat, bit: nat)
    requires k < 32 && bit <= 8 && a[k] == b[k]
    ensures Differences(a, b, 8 * k + bit) == Differences(a, b, 8 * k)
  {
    if bit > 0 {
      EqualByteAddsNothing(a, b, k, bit - 1);
      assert (8 * k + bit - 1) / 8 == k;
    }
  }

  lemma DeltaBit(a: Bitmap, b: Bitmap, k: nat, bit: nat)
    requires k < 32 && bit < 8
    ensures ((a[k] ^ b[k]) & Mask(bit) != 0) == (Held(a, 8 * k + bit) != Held(b, 8 * k + bit))
    ensures (b[k] & Mask(bit) != 0) == Held(b, 8 * k + bit)
  {
    XorMarksDifferences(a[k], b[k], bit);
    assert (8 * k + bit) / 8 == k && (8 * k + bit) % 8 == bit;
  }

  lemma NoDelta(a: bv8, b: bv8)
    requires a ^ b == 0
    ensures a == b
  {
  }

  // -------------------------------------------------------------- the array itself

  class KeyBitmap {
    const bytes: array<bv8>

    constructor ()
      ensures fresh(bytes) && Valid() && View() == NoKeys()
    {
      bytes := new bv8[32](_ => 0);
      new;
      assert bytes[..] == NoKeys();
    }

    predicate Valid() { bytes.Length == 32 }

    function View(): Bitmap
      requires Valid()
      reads bytes
    {
      bytes[..]
    }

    method Set(usage: nat, down: bool)
      requires Valid()
      modifies bytes
      ensures View() == WithKey(old(View()), usage, down)
    {
      if usage >= USAGES {
        return;
      }
      bytes[usage / 8] := BitSet(bytes[usage / 8], usage % 8, down);
    }

    method Get(usage: nat) returns (held: bool)
      requires Valid()
      ensures held == Held(View(), usage)
    {
      if usage >= USAGES {
        return false;
      }
      return bytes[usage / 8] & Mask(usage % 8) != 0;
    }

    method Any() returns (any: bool)
      requires Valid()
      ensures any == (View() != NoKeys())
    {
      for i := 0 to 32
        invariant forall j | 0 <= j < i :: bytes[j] == 0
      {
        if bytes[i] != 0 {
          assert View()[i] != NoKeys()[i];
          return true;
        }
      }
      assert View() == NoKeys();
      return false;
    }

    // Calls back for every usage whose state differs; the calls are the result.
    method Diff(next: KeyBitmap) returns (calls: seq<Transition>)
      requires Valid() && next.Valid()
      ensures calls == Differences(View(), next.View(), USAGES)
    {
      hide Differences;
      calls := [];
      NoDifferences(View(), next.View());
      for i := 0 to 32
        invariant calls == Differences(View(), next.View(), 8 * i)
      {
        var more := CallsOfByte(View(), next.View(), bytes[i], next.bytes[i], i);
        calls := calls + more;
      }
    }
  }

  // The calls for byte `i`, which is `was` on one side and `now` on the other.
  method CallsOfByte(ghost a: Bitmap, ghost b: Bitmap, was: bv8, now: bv8, i: nat) returns (calls: seq<Transition>)
    requires i < 32 && a[i] == was && b[i] == now
    ensures Differences(a, b, 8 * i) + calls == Differences(a, b, 8 * i + 8)
  {
    hide Held, Mask, Differences;
    calls := [];
    var delta := was ^ now;
    if delta == 0 {
      NoDelta(was, now);
      EqualByteAddsNothing(a, b, i, 8);
      return;
    }
    for bit := 0 to 8
      invariant Differences(a, b, 8 * i) + calls == Differences(a, b, 8 * i + bit)
    {
      DeltaBit(a, b, i, bit);
      NextDifference(a, b, 8 * i + bit);
      if delta & Mask(bit) == 0 {
        continue;
      }
      calls := calls + [Transition(i * 8 + bit, now & Mask(bit) != 0)];
    }
  }
}
