// The run-length half of the level 2 graphics compressor
// (filter_dotmatrix/graphics.c, the loop inside graphic()), proved against the
// RunLengthDecode filter of section 3.13.3 of the PostScript Language
// Reference, third edition.

module Bytes {
  type byte = x: int | 0 <= x < 256
}

module RunLength {
  import opened Bytes

  // ---------------------------------------------------------------- the filter

  /** The RunLengthDecode filter: a length byte below 128 is followed by that
      many bytes plus one to copy, one above 128 by a byte to repeat, and 128 is
      the end of the data. A packet cut off by the end of the input stops it. */
  function Decode(s: seq<byte>): (r: seq<byte>)
    decreases |s|
  {
    if |s| < 2 || s[0] == 128 then []
    else if s[0] < 128 then
      if |s| < s[0] + 2 then [] else s[1..s[0] + 2] + Decode(s[s[0] + 2..])
    else
      seq(257 - s[0], _ => s[1]) + Decode(s[2..])
  }

  /** `s` is a row of complete packets, none of which is the end-of-data byte. */
  predicate WellPacked(s: seq<byte>)
    decreases |s|
  {
    s == [] ||
    (|s| >= 2 && s[0] != 128 &&
     if s[0] < 128 then |s| >= s[0] + 2 && WellPacked(s[s[0] + 2..])
     else WellPacked(s[2..]))
  }

  /** The bytes the first packet stands for, and its length in the packed form. */
  function Head(s: seq<byte>): seq<byte>
    requires s != [] && WellPacked(s)
  {
    if s[0] < 128 then s[1..s[0] + 2] else seq(257 - s[0], _ => s[1])
  }

  function HeadLength(s: seq<byte>): nat
    requires s != [] && WellPacked(s)
  {
    if s[0] < 128 then s[0] + 2 else 2
  }

  /** The first packet does not depend on what follows. */
  lemma PacketOf(a: seq<byte>, s: seq<byte>)
    requires a != [] && WellPacked(a) && a <= s
    ensures HeadLength(a) <= |a| && WellPacked(a[HeadLength(a)..])
    ensures Decode(s) == Head(a) + Decode(s[HeadLength(a)..])
    ensures WellPacked(s[HeadLength(a)..]) ==> WellPacked(s)
  {
    if a[0] < 128 {
      assert s[1..a[0] + 2] == a[1..a[0] + 2];
    }
  }

  /** Complete packets are decoded one at a time, whatever follows. */
  lemma DecodeStep(a: seq<byte>, b: seq<byte>)
    requires a != [] && WellPacked(a)
    ensures HeadLength(a) <= |a| && WellPacked(a[HeadLength(a)..])
    ensures Decode(a) == Head(a) + Decode(a[HeadLength(a)..])
    ensures Decode(a + b) == Head(a) + Decode(a[HeadLength(a)..] + b)
    ensures WellPacked(a[HeadLength(a)..] + b) ==> WellPacked(a + b)
  {
    hide Decode, WellPacked, Head, HeadLength;
    PacketOf(a, a);
    PacketOf(a, a + b);
    DropConcat(a, b, HeadLength(a));
  }

  lemma DropConcat(a: seq<byte>, b: seq<byte>, k: nat)
    requires k <= |a|
    ensures (a + b)[k..] == a[k..] + b
  {
  }

  lemma Assoc(a: seq<byte>, b: seq<byte>, c: seq<byte>)
    ensures a + (b + c) == (a + b) + c
  {
  }

  /** Decoding goes packet by packet, so it distributes over concatenation. */
  lemma {:induction false} DecodeConcat(a: seq<byte>, b: seq<byte>)
    requires WellPacked(a)
    ensures Decode(a + b) == Decode(a) + Decode(b)
    ensures WellPacked(b) ==> WellPacked(a + b)
    decreases |a|
  {
    if a == [] {
      assert a + b == b;
    } else {
      DecodeStep(a, b);
      var rest := a[HeadLength(a)..];
      DecodeConcat(rest, b);
      hide Decode, WellPacked, Head, HeadLength;
      Assoc(Head(a), Decode(rest), Decode(b));
    }
  }

  lemma DecodeRunPacket(n: nat, c: byte)
    requires 1 <= n <= 128
    ensures var p: seq<byte> := [(257 - n) % 256, c];
            WellPacked(p) && Decode(p) == seq(n, _ => c)
  {
    var p: seq<byte> := [(257 - n) % 256, c];
    assert p[2..] == [];
    if n == 1 {
      assert p[0] == 0 && p[1..2] == [c];
      assert seq(n, _ => c) == [c];
    }
  }

  lemma DecodeLiteralPacket(s: seq<byte>)
    requires 1 <= |s| <= 128
    ensures var p: seq<byte> := [|s| - 1] + s; WellPacked(p) && Decode(p) == s
  {
    var p: seq<byte> := [|s| - 1] + s;
    assert p[|s| + 1..] == [];
    assert p[1..|s| + 1] == s;
  }

  // --------------------------------------------------------------- the encoder

  /** What every step of the encoder keeps: the packets so far decode to the
      first `p` bytes scanned. */
  ghost predicate Packed(out: seq<byte>, g: seq<byte>, p: nat)
  {
    p <= |g| && WellPacked(out) && Decode(out) == g[..p] && |out| <= 2 * p
  }

  lemma PackedStart(g: seq<byte>)
    ensures Packed([], g, 0)
  {
  }

  lemma PackedEnd(out: seq<byte>, g: seq<byte>)
    requires Packed(out, g, |g|) && g != []
    ensures WellPacked(out) && Decode(out) == g && 2 <= |out| <= 2 * |g|
  {
    assert g[..|g|] == g;
  }

  lemma PackedRun(out: seq<byte>, g: seq<byte>, p: nat, n: nat, c: byte)
    requires Packed(out, g, p) && 1 <= n <= 128 && p + n <= |g|
    requires forall i :: p <= i < p + n ==> g[i] == c
    ensures Packed(out + [(257 - n) % 256, c], g, p + n)
  {
    DecodeRunPacket(n, c);
    DecodeConcat(out, [(257 - n) % 256, c]);
    assert g[..p + n] == g[..p] + seq(n, _ => c);
  }

  lemma PackedLiteral(out: seq<byte>, g: seq<byte>, p: nat, n: nat)
    requires Packed(out, g, p) && 1 <= n <= 128 && p + n <= |g|
    ensures Packed(out + [n - 1] + g[p..p + n], g, p + n)
    ensures |out| + n + 1 <= 2 * (p + n)
  {
    DecodeLiteralPacket(g[p..p + n]);
    var packet: seq<byte> := [n - 1] + g[p..p + n];
    DecodeConcat(out, packet);
    assert out + [n - 1] + g[p..p + n] == out + packet;
    assert g[..p + n] == g[..p] + g[p..p + n];
  }

  /** Dump a run. Storing in an `unsigned char` truncates 257 - 1 to 0, which
      turns a run of one byte into a literal of one byte. */
  method DumpRun(gbuffer2: array<byte>, di0: nat, rlength: nat, lastc: byte, ghost g: seq<byte>, ghost p: nat)
    returns (di: nat)
    requires di0 <= gbuffer2.Length && Packed(gbuffer2[..di0], g, p)
    requires 1 <= rlength <= 128 && p + rlength <= |g| && 2 * |g| <= gbuffer2.Length
    requires forall i :: p <= i < p + rlength ==> g[i] == lastc
    modifies gbuffer2
    ensures di <= gbuffer2.Length && Packed(gbuffer2[..di], g, p + rlength)
  {
    PackedRun(gbuffer2[..di0], g, p, rlength, lastc);
    di := di0;
    gbuffer2[di] := (257 - rlength) % 256; di := di + 1;
    gbuffer2[di] := lastc; di := di + 1;
    assert gbuffer2[..di] == old(gbuffer2[..di0]) + [(257 - rlength) % 256, lastc];
  }

  /** Dump the `litlength0` bytes that end `unclaimed` bytes before position `x`. */
  method DumpLiteral(gbuffer: array<byte>, gbuffer2: array<byte>, di0: nat, x: nat, litlength0: nat, unclaimed: nat,
                     ghost g: seq<byte>, ghost p: nat)
    returns (di: nat)
    requires gbuffer != gbuffer2 && g <= gbuffer[..]
    requires di0 <= gbuffer2.Length && Packed(gbuffer2[..di0], g, p)
    requires 1 <= litlength0 <= 128 && p + litlength0 + unclaimed == x <= |g| && 2 * |g| <= gbuffer2.Length
    modifies gbuffer2
    ensures di <= gbuffer2.Length && Packed(gbuffer2[..di], g, p + litlength0)
  {
    hide *;
    PackedLiteral(gbuffer2[..di0], g, p, litlength0);
    var litlength := litlength0;
    di := di0;
    gbuffer2[di] := litlength - 1; di := di + 1;
    while litlength > 0
      invariant 0 <= litlength <= litlength0
      invariant di == di0 + 1 + (litlength0 - litlength)
      invariant gbuffer2[..di] ==
                old(gbuffer2[..di0]) + [litlength0 - 1] + g[p..p + litlength0 - litlength]
    {
      litlength := litlength - 1;
      gbuffer2[di] := gbuffer[x - litlength - unclaimed - 1];
      di := di + 1;
      assert g[p..p + litlength0 - litlength] ==
             g[p..p + litlength0 - litlength - 1] + [gbuffer[x - litlength - unclaimed - 1]];
    }
  }

  /** The compressor: scan `n + 1` bytes (the `n` of the graphic and the one
      after them) and store packets that decode to exactly those bytes. */
  method PackBits(gbuffer: array<byte>, n: nat, gbuffer2: array<byte>) returns (di: nat)
    requires gbuffer != gbuffer2
    requires n < gbuffer.Length && 2 * (n + 1) <= gbuffer2.Length
    modifies gbuffer2
    ensures 2 <= di <= 2 * (n + 1)
    ensures WellPacked(gbuffer2[..di])
    ensures Decode(gbuffer2[..di]) == gbuffer[..n + 1]
  {
    hide *;
    ghost var g := gbuffer[..n + 1];
    PackedStart(g);
    ghost var p: nat := 0;          // scanned bytes already in a packet
    var unclaimed, litlength, rlength := 0, 0, 0;
    var lastlastc: int, lastc: int := -1, -1;
    var countdown := n + 1;
    var x: nat := 0;
    di := 0;
    while countdown > 0
      invariant 0 <= countdown && x + countdown == n + 1
      invariant di <= gbuffer2.Length && Packed(gbuffer2[..di], g, p)
      invariant p + rlength + litlength + unclaimed == x
      invariant lastc == if x == 0 then -1 else g[x - 1]
      invariant lastlastc == if x <= 1 then -1 else g[x - 2]
      invariant 0 <= rlength <= 128 && 0 <= litlength <= 128
      invariant unclaimed == (if x == 1 && n > 0 then 1 else 0)
      invariant rlength == 0 || litlength == 0
      invariant rlength > 0 ==> x >= 2 && lastlastc == lastc
      invariant rlength > 0 ==> forall i :: p <= i < x ==> g[i] == lastc
    {
      countdown := countdown - 1;
      var c := gbuffer[x];
      if countdown > 0 && lastc == -1 {
        unclaimed := unclaimed + 1;
      } else {
        if rlength > 0 && (c != lastc || rlength == 128) {
          di := DumpRun(gbuffer2, di, rlength, lastc, g, p);
          p := p + rlength;
          rlength := 0;
        }
        if litlength >= 2 && c == lastc && c == lastlastc {
          litlength := litlength - 2;
          unclaimed := unclaimed + 2;
        }
        if litlength > 0 && ((c == lastc && c == lastlastc) || litlength == 128) {
          di := DumpLiteral(gbuffer, gbuffer2, di, x, litlength, unclaimed, g, p);
          p := p + litlength;
          litlength := 0;
        }
        if c == lastc && c == lastlastc {
          rlength := rlength + 1;
          rlength := rlength + unclaimed;
          unclaimed := 0;
        } else {
          litlength := litlength + 1;
          litlength := litlength + unclaimed;
          unclaimed := 0;
        }
      }
      x, lastlastc, lastc := x + 1, lastc, c;
    }
    if rlength > 0 {
      di := DumpRun(gbuffer2, di, rlength, lastc, g, p);
      p := p + rlength;
    } else if litlength > 0 {
      di := DumpLiteral(gbuffer, gbuffer2, di, x, litlength, unclaimed, g, p);
      p := p + litlength;
    }
    PackedEnd(gbuffer2[..di], g);
  }
}
