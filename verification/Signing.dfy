/** The bytes that are signed, and the bytes that a pairing's transcript hash is taken of, as Go
    and the browser build them. Signatures and hashes themselves are not part of this model. */
module Signing {
  import opened Bytes

  // A part with its length before it; of the length only the low 32 bits are written.
  function Framed(part: seq<Byte>): seq<Byte> { LE(|part|, 4) + part }

  function Frames(parts: seq<seq<Byte>>): seq<Byte> {
    if parts == [] then [] else Framed(parts[0]) + Frames(parts[1..])
  }

  function SigningInput(domain: seq<Byte>, parts: seq<seq<Byte>>): seq<Byte> {
    domain + [0] + Frames(parts)
  }

  datatype Transcript = Transcript(
    codeId: seq<Byte>,
    salt: seq<Byte>,
    agentEpk: seq<Byte>,
    clientEpk: seq<Byte>,
    agentId: seq<Byte>,
    clientId: seq<Byte>,
    deviceName: seq<Byte>,
    clientLabel: seq<Byte>)

  function Fields(t: Transcript): seq<seq<Byte>> {
    [t.codeId, t.salt, t.agentEpk, t.clientEpk, t.agentId, t.clientId, t.deviceName, t.clientLabel]
  }

  // Nine frames, the first of them the domain, and no zero byte after it.
  function TranscriptInput(domain: seq<Byte>, t: Transcript): seq<Byte> {
    Frames([domain] + Fields(t))
  }

  predicate Short(parts: seq<seq<Byte>>) { forall p <- parts :: |p| < U32 }

  // ------------------------------------------------------------------ injectivity

  lemma FrameSplits(p: seq<Byte>, x: seq<Byte>, q: seq<Byte>, y: seq<Byte>)
    requires |p| < U32 && |q| < U32 && Framed(p) + x == Framed(q) + y
    ensures p == q && x == y
  {
    hide LE, FromLE;
    Ranges();
    LERoundTrip(|p|, 4);
    LERoundTrip(|q|, 4);
    assert (Framed(p) + x)[..4] == LE(|p|, 4) && (Framed(q) + y)[..4] == LE(|q|, 4);
    assert (Framed(p) + x)[4..] == p + x && (Framed(q) + y)[4..] == q + y;
    assert (p + x)[..|p|] == p && (p + x)[|p|..] == x && (q + y)[..|q|] == q && (q + y)[|q|..] == y;
  }

  // No two lists of short parts are framed alike.
  lemma {:induction false} FramesInjective(a: seq<seq<Byte>>, b: seq<seq<Byte>>)
    requires Short(a) && Short(b) && Frames(a) == Frames(b)
    ensures a == b
  {
    hide Framed;
    if a != [] && b != [] {
      FrameSplits(a[0], Frames(a[1..]), b[0], Frames(b[1..]));
      FramesInjective(a[1..], b[1..]);
      assert a == [a[0]] + a[1..] && b == [b[0]] + b[1..];
    } else {
      FramesNotEmpty(a);
      FramesNotEmpty(b);
    }
  }

  lemma FramesNotEmpty(a: seq<seq<Byte>>)
    ensures Frames(a) == [] <==> a == []
  {
    if a != [] {
      assert |Framed(a[0])| >= 4;
    }
  }

  // The first zero byte ends the domain, so domains never mix, whatever the parts.
  lemma DomainsSeparate(d: seq<Byte>, x: seq<Byte>, e: seq<Byte>, y: seq<Byte>)
    requires 0 !in d && 0 !in e && d + [0] + x == e + [0] + y
    ensures d == e && x == y
  {
    var s, t := d + [0] + x, e + [0] + y;
    assert s[|d|] == 0 && t[|e|] == 0;
    assert forall i | 0 <= i < |d| :: s[i] == d[i] && d[i] in d;
    assert forall i | 0 <= i < |e| :: t[i] == e[i] && e[i] in e;
    assert |d| == |e|;
    assert s[..|d|] == d && t[..|e|] == e && s[|d| + 1..] == x && t[|e| + 1..] == y;
  }

  // Equal signing inputs have equal domains and equal parts.
  lemma SigningInputInjective(d: seq<Byte>, a: seq<seq<Byte>>, e: seq<Byte>, b: seq<seq<Byte>>)
    requires 0 !in d && 0 !in e && Short(a) && Short(b)
    ensures SigningInput(d, a) == SigningInput(e, b) <==> d == e && a == b
  {
    hide Frames;
    if SigningInput(d, a) == SigningInput(e, b) {
      DomainsSeparate(d, Frames(a), e, Frames(b));
      FramesInjective(a, b);
    }
  }

  lemma TranscriptInputInjective(domain: seq<Byte>, t: Transcript, u: Transcript)
    requires Short([domain] + Fields(t)) && Short([domain] + Fields(u))
    ensures TranscriptInput(domain, t) == TranscriptInput(domain, u) <==> t == u
  {
    hide Frames, Fields;
    if TranscriptInput(domain, t) == TranscriptInput(domain, u) {
      FramesInjective([domain] + Fields(t), [domain] + Fields(u));
      assert ([domain] + Fields(t))[1..] == Fields(t) && ([domain] + Fields(u))[1..] == Fields(u);
      FieldsInjective(t, u);
    }
  }

  lemma FieldsInjective(t: Transcript, u: Transcript)
    requires Fields(t) == Fields(u)
    ensures t == u
  {
    var a, b := Fields(t), Fields(u);
    assert a[0] == b[0] && a[1] == b[1] && a[2] == b[2] && a[3] == b[3];
    assert a[4] == b[4] && a[5] == b[5] && a[6] == b[6] && a[7] == b[7];
  }

  // ---------------------------------------------------- why both conditions are needed

  // A domain with a zero in it collides.
  lemma ZeroInDomainCollides()
    ensures SigningInput([0, 0, 0, 0], []) == SigningInput([], [[]])
  {
    assert LE(0, 4) == [0, 0, 0, 0];
    assert Frames([[]]) == Framed([]) + Frames([]);
  }

  function Zeros(n: nat): (z: seq<Byte>)
    ensures |z| == n
  {
    seq(n, _ => 0)
  }

  function Empties(n: nat): (e: seq<seq<Byte>>)
    ensures |e| == n
  {
    seq(n, _ => [])
  }

  lemma {:induction false} EmptiesAreZeros(n: nat)
    ensures Frames(Empties(n)) == Zeros(4 * n)
  {
    if n > 0 {
      EmptiesAreZeros(n - 1);
      assert Empties(n)[1..] == Empties(n - 1);
      assert Framed([]) == LE(0, 4) == Zeros(4);
      assert Zeros(4) + Zeros(4 * (n - 1)) == Zeros(4 * n);
    }
  }

  // One part of 2^32 zero bytes and 2^30 + 1 empty parts sign alike: the length written is 0.
  lemma LongPartCollides(domain: seq<Byte>)
    ensures SigningInput(domain, [Zeros(U32)]) == SigningInput(domain, Empties(U32 / 4 + 1))
  {
    hide LE;
    EmptiesAreZeros(U32 / 4 + 1);
    LengthOfU32();
    assert Frames([Zeros(U32)]) == Framed(Zeros(U32)) + Frames([]);
    assert Framed(Zeros(U32)) == Zeros(4) + Zeros(U32) == Zeros(U32 + 4);
  }

  lemma LengthOfU32()
    ensures LE(U32, 4) == Zeros(4)
  {
    assert LE(U32, 4) == [0] + LE(0x100_0000, 3) && LE(0x100_0000, 3) == [0] + LE(0x1_0000, 2);
    assert LE(0x1_0000, 2) == [0] + LE(0x100, 1) && LE(0x100, 1) == [0] + LE(1, 0);
  }

  // Every two signing inputs of zero-free domains and parts shorter than `limit` tell them apart.
  ghost predicate Unambiguous(limit: nat) {
    forall d: seq<Byte>, a: seq<seq<Byte>>, e: seq<Byte>, b: seq<seq<Byte>> |
      0 !in d && 0 !in e && Shorter(a, limit) && Shorter(b, limit) && SigningInput(d, a) == SigningInput(e, b) ::
      d == e && a == b
  }

  predicate Shorter(parts: seq<seq<Byte>>, limit: nat) { forall p <- parts :: |p| < limit }

  // The layout is unambiguous exactly for parts whose length fits the 32 bits it is written in.
  lemma UnambiguousExactly(limit: nat)
    ensures Unambiguous(limit) <==> limit <= U32
  {
    if limit <= U32 {
      forall d: seq<Byte>, a: seq<seq<Byte>>, e: seq<Byte>, b: seq<seq<Byte>> |
        0 !in d && 0 !in e && Shorter(a, limit) && Shorter(b, limit) && SigningInput(d, a) == SigningInput(e, b)
        ensures d == e && a == b
      {
        SigningInputInjective(d, a, e, b);
      }
    } else {
      hide SigningInput;
      var a, b := [Zeros(U32)], Empties(U32 / 4 + 1);
      LongPartCollides([]);
      assert Shorter(a, limit) && Shorter(b, limit) && |a| != |b|;
    }
  }

  // ---------------------------------------------------------------------- builders

  lemma FourBytes(n: nat)
    ensures LE(n, 4) == [n % 256, n / 256 % 256, n / 256 / 256 % 256, n / 256 / 256 / 256 % 256]
  {
    var a, b, c := n / 256, n / 256 / 256, n / 256 / 256 / 256;
    assert LE(c, 1) == [c % 256] + LE(c / 256, 0);
    assert LE(b, 2) == [b % 256] + LE(c, 1);
    assert LE(a, 3) == [a % 256] + LE(b, 2);
    assert LE(n, 4) == [n % 256] + LE(a, 3);
  }

  lemma Quotients(n: nat)
    ensures n / 256 / 256 == n / 0x1_0000 && n / 256 / 256 / 256 == n / 0x100_0000
  {
  }

  lemma LengthBytes(n: nat)
    ensures LE(n, 4) == [n % 256, n / 256 % 256, n / 0x1_0000 % 256, n / 0x100_0000 % 256]
  {
    hide LE;
    FourBytes(n);
    Quotients(n);
  }

  // A length is first cut to 32 bits on either side.
  lemma CutLength(n: nat)
    ensures LE(n % U32, 4) == LE(n, 4)
  {
    hide LE;
    LengthBytes(n);
    LengthBytes(n % U32);
    SecondByte(n / U32, n % U32);
    ThirdByte(n / U32, n % U32);
    FourthByte(n / U32, n % U32);
  }

  lemma Drop256(a: nat, r: nat)
    ensures (256 * a + r) % 256 == r % 256 && (256 * a + r) / 256 == a + r / 256
  {
  }

  lemma SecondByte(q: nat, r: nat)
    ensures (U32 * q + r) % 256 == r % 256 && (U32 * q + r) / 256 % 256 == r / 256 % 256
  {
    Drop256(0x100_0000 * q, r);
    Drop256(0x1_0000 * q, r / 256);
  }

  lemma Drop65536(a: nat, r: nat)
    ensures (0x1_0000 * a + r) / 0x1_0000 == a + r / 0x1_0000
  {
  }

  lemma ThirdByte(q: nat, r: nat)
    ensures (U32 * q + r) / 0x1_0000 % 256 == r / 0x1_0000 % 256
  {
    Drop65536(0x1_0000 * q, r);
    Drop256(256 * q, r / 0x1_0000);
  }

  lemma Drop2To24(a: nat, r: nat)
    ensures (0x100_0000 * a + r) / 0x100_0000 == a + r / 0x100_0000
  {
  }

  lemma FourthByte(q: nat, r: nat)
    ensures (U32 * q + r) / 0x100_0000 % 256 == r / 0x100_0000 % 256
  {
    Drop2To24(256 * q, r);
    Drop256(q, r / 0x100_0000);
  }

  lemma NoParts()
    ensures Frames([]) == [] && Concat([]) == []
  {
  }

  lemma {:induction false} OneMoreFrame(parts: seq<seq<Byte>>, p: seq<Byte>)
    ensures Frames(parts + [p]) == Frames(parts) + Framed(p)
  {
    hide Framed;
    if parts == [] {
      assert Frames([p]) == Framed(p) + Frames([]);
    } else {
      assert (parts + [p])[1..] == parts[1..] + [p];
      OneMoreFrame(parts[1..], p);
    }
  }

  lemma UpTo(parts: seq<seq<Byte>>, i: nat)
    requires i < |parts|
    ensures Frames(parts[..i + 1]) == Frames(parts[..i]) + Framed(parts[i])
  {
    assert parts[..i + 1] == parts[..i] + [parts[i]];
    OneMoreFrame(parts[..i], parts[i]);
  }

  // The four bytes of the length one by one, then the part.
  method GoAppend(buf: seq<Byte>, part: seq<Byte>) returns (r: seq<Byte>)
    ensures r == buf + Framed(part)
  {
    hide LE;
    var n := |part| % U32;
    CutLength(|part|);
    LengthBytes(n);
    r := buf + [n % 256, n / 256 % 256, n / 0x1_0000 % 256, n / 0x100_0000 % 256];
    r := r + part;
  }

  method GoSigningInput(domain: seq<Byte>, parts: seq<seq<Byte>>) returns (buf: seq<Byte>)
    ensures buf == SigningInput(domain, parts)
  {
    hide Framed, Frames;
    buf := domain + [0];
    NoParts();
    for i := 0 to |parts|
      invariant buf == domain + [0] + Frames(parts[..i])
    {
      buf := GoAppend(buf, parts[i]);
      UpTo(parts, i);
    }
    assert parts[..|parts|] == parts;
  }

  method GoTranscript(domain: seq<Byte>, t: Transcript) returns (h: seq<Byte>)
    ensures h == TranscriptInput(domain, t)
  {
    hide Framed, Frames;
    NoParts();
    var parts := [domain] + Fields(t);
    h := [];
    for i := 0 to 9
      invariant h == Frames(parts[..i])
    {
      h := GoAppend(h, parts[i]);
      UpTo(parts, i);
    }
    assert parts[..9] == parts;
  }

  function Concat(chunks: seq<seq<Byte>>): seq<Byte> {
    if chunks == [] then [] else Concat(chunks[..|chunks| - 1]) + chunks[|chunks| - 1]
  }

  function Total(chunks: seq<seq<Byte>>): (n: nat)
    ensures n == |Concat(chunks)|
  {
    if chunks == [] then 0 else Total(chunks[..|chunks| - 1]) + |chunks[|chunks| - 1]|
  }

  lemma {:induction false} TotalGrows(chunks: seq<seq<Byte>>, i: nat)
    requires i <= |chunks|
    ensures Total(chunks[..i]) <= Total(chunks)
    decreases |chunks|
  {
    if i < |chunks| {
      var n := |chunks| - 1;
      TotalGrows(chunks[..n], i);
      assert chunks[..n][..i] == chunks[..i];
    } else {
      assert chunks[..i] == chunks;
    }
  }

  // One buffer of the size of all chunks, each copied in at its offset.
  method ConcatBytes(chunks: seq<seq<Byte>>) returns (out: array<Byte>)
    ensures fresh(out) && out[..] == Concat(chunks)
  {
    var total := 0;
    for i := 0 to |chunks|
      invariant total == Total(chunks[..i])
    {
      assert chunks[..i + 1][..i] == chunks[..i];
      total := total + |chunks[i]|;
    }
    assert chunks[..|chunks|] == chunks;
    out := new Byte[total](_ => 0);
    var offset := 0;
    for i := 0 to |chunks|
      invariant offset == Total(chunks[..i]) <= total
      invariant out[..offset] == Concat(chunks[..i])
    {
      TotalGrows(chunks, i + 1);
      assert chunks[..i + 1][..i] == chunks[..i];
      Copy(out, offset, chunks[i]);
      offset := offset + |chunks[i]|;
    }
    assert out[..offset] == out[..];
  }

  // Copies a chunk in at its offset.
  method Copy(out: array<Byte>, offset: nat, p: seq<Byte>)
    requires offset + |p| <= out.Length
    modifies out
    ensures out[..offset + |p|] == old(out[..offset]) + p
  {
    for j := 0 to |p|
      invariant out[..offset + j] == old(out[..offset]) + p[..j]
    {
      out[offset + j] := p[j];
      assert p[..j + 1] == p[..j] + [p[j]];
      assert out[..offset + j + 1] == out[..offset + j] + [p[j]];
    }
    assert p[..|p|] == p;
  }

  // setUint32 on a buffer of four bytes.
  method JsLength(n: nat) returns (length: seq<Byte>)
    ensures length == LE(n, 4)
  {
    hide LE;
    var u := n % U32;
    CutLength(n);
    LengthBytes(u);
    length := [u % 256, u / 256 % 256, u / 0x1_0000 % 256, u / 0x100_0000 % 256];
  }

  lemma TwoChunks(chunks: seq<seq<Byte>>, a: seq<Byte>, b: seq<Byte>)
    ensures Concat(chunks + [a, b]) == Concat(chunks) + (a + b)
  {
    var all := chunks + [a, b];
    assert all[..|all| - 1] == chunks + [a] && (chunks + [a])[..|chunks|] == chunks;
  }

  method JsChunks(start: seq<seq<Byte>>, parts: seq<seq<Byte>>) returns (chunks: seq<seq<Byte>>)
    ensures Concat(chunks) == Concat(start) + Frames(parts)
  {
    hide Concat, Frames, LE;
    NoParts();
    chunks := start;
    for i := 0 to |parts|
      invariant Concat(chunks) == Concat(start) + Frames(parts[..i])
    {
      var length := JsLength(|parts[i]|);
      TwoChunks(chunks, length, parts[i]);
      UpTo(parts, i);
      chunks := chunks + [length, parts[i]];
    }
    assert parts[..|parts|] == parts;
  }

  method JsSigningInput(domain: seq<Byte>, parts: seq<seq<Byte>>) returns (out: array<Byte>)
    ensures fresh(out) && out[..] == SigningInput(domain, parts)
  {
    hide Frames, Concat;
    TwoChunks([], domain, [0]);
    assert [] + [domain, [0]] == [domain, [0]];
    NoParts();
    var chunks := JsChunks([domain, [0]], parts);
    out := ConcatBytes(chunks);
  }

  method JsTranscript(domain: seq<Byte>, t: Transcript) returns (out: array<Byte>)
    ensures fresh(out) && out[..] == TranscriptInput(domain, t)
  {
    hide Frames, Concat;
    NoParts();
    var chunks := JsChunks([], [domain] + Fields(t));
    out := ConcatBytes(chunks);
  }

  // ------------------------------------------------------------------------ layouts

  lemma SmallLength(n: Byte)
    ensures LE(n, 4) == [n, 0, 0, 0]
  {
    LengthBytes(n);
    hide LE;
    assert n / 256 == 0 && n / 0x1_0000 == 0 && n / 0x100_0000 == 0;
  }

  // What the bytes of a small signing input are.
  lemma SigningVector()
    ensures SigningInput([0x61, 0x62], [[1, 2, 3], []]) == [0x61, 0x62, 0, 3, 0, 0, 0, 1, 2, 3, 0, 0, 0, 0]
  {
    hide LE;
    SmallLength(3);
    SmallLength(0);
    var parts: seq<seq<Byte>> := [[1, 2, 3], []];
    assert parts[1..] == [[]] && parts[1..][1..] == [];
  }

  lemma OneFramed(b: Byte)
    ensures Framed([b]) == [1, 0, 0, 0, b]
  {
    SmallLength(1);
  }

  lemma FirstFrame(b: Byte, rest: seq<seq<Byte>>)
    ensures Frames([[b]] + rest) == [1, 0, 0, 0, b] + Frames(rest)
  {
    OneFramed(b);
    assert ([[b]] + rest)[1..] == rest;
  }

  // And of a small transcript: the domain first, then the fields in their order.
  lemma TranscriptVector()
    ensures TranscriptInput([9], Transcript([1], [2], [3], [4], [5], [6], [7], [8])) ==
      [1, 0, 0, 0, 9] + ([1, 0, 0, 0, 1] + ([1, 0, 0, 0, 2] + ([1, 0, 0, 0, 3] + ([1, 0, 0, 0, 4]
      + ([1, 0, 0, 0, 5] + ([1, 0, 0, 0, 6] + ([1, 0, 0, 0, 7] + [1, 0, 0, 0, 8])))))))
  {
    hide Frames;
    FirstFrame(8, []);
    NoParts();
    assert [[8]] + [] == [[8]] && [1, 0, 0, 0, 8] + [] == [1, 0, 0, 0, 8];
    FirstFrame(7, [[8]]);
    FirstFrame(6, [[7], [8]]);
    FirstFrame(5, [[6], [7], [8]]);
    FirstFrame(4, [[5], [6], [7], [8]]);
    FirstFrame(3, [[4], [5], [6], [7], [8]]);
    FirstFrame(2, [[3], [4], [5], [6], [7], [8]]);
    FirstFrame(1, [[2], [3], [4], [5], [6], [7], [8]]);
    FirstFrame(9, [[1], [2], [3], [4], [5], [6], [7], [8]]);
    assert [[7]] + [[8]] == [[7], [8]] && [[6]] + [[7], [8]] == [[6], [7], [8]];
    assert [[5]] + [[6], [7], [8]] == [[5], [6], [7], [8]];
    assert [[4]] + [[5], [6], [7], [8]] == [[4], [5], [6], [7], [8]];
    assert [[3]] + [[4], [5], [6], [7], [8]] == [[3], [4], [5], [6], [7], [8]];
    assert [[2]] + [[3], [4], [5], [6], [7], [8]] == [[2], [3], [4], [5], [6], [7], [8]];
    assert [[1]] + [[2], [3], [4], [5], [6], [7], [8]] == [[1], [2], [3], [4], [5], [6], [7], [8]];
  }
}
