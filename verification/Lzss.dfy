/** The LZSS stream decoder of the boot loader (patmos/c/bootloader/decompress.c): a pure decoder
    that keeps its whole history, and the wire format. */
module Lzss {
  import opened Bytes

  const N := 1024      // size of the ring buffer
  const F := 66        // longest match
  const START := N - F // first write position
  const BLANK: byte := 32 // ' '

  // ----- The pure decoder ------------------------------------------------------------------

  /** Ring index of a match: `i | (j & 0xC0) << 2`, the high bits of `hi` above the bits of `lo`. */
  function MatchIndex(lo: byte, hi: byte): (i: nat)
    ensures i < N
  {
    lo + hi / 64 * 256
  }

  /** How many bytes a match copies: the low six bits of `hi` and three more. */
  function MatchLength(hi: byte): (n: nat)
    ensures 3 <= n <= F
  {
    hi % 64 + 3
  }

  /** The ring position after `p`. */
  function Next(p: nat): nat
  {
    if p + 1 == N then 0 else p + 1
  }

  /** The ring position `d` places before position `w`. */
  function Back(w: nat, d: nat): nat
    requires w < N && d <= N
  {
    if d <= w then w - d else w + N - d
  }

  /** The write position once `n` bytes have been decoded. */
  function WritePos(n: nat): (w: nat)
    ensures w < N
  {
    if n == 0 then START else Next(WritePos(n - 1))
  }

  /** How far back ring index `i` lies when the next byte goes to position `w`. */
  function Distance(w: nat, i: nat): (d: nat)
    requires w < N && i < N
    ensures 1 <= d <= N && Back(w, d) == i
  {
    if i < w then w - i else w + N - i
  }

  lemma {:induction false} WritePosWraps(n: nat)
    ensures WritePos(n) == (958 + n) % 1024
  {
    if n > 0 { WritePosWraps(n - 1); }
  }

  /** Append `n` bytes to `h`, each a copy of the byte `d` places back. */
  function Extend(h: seq<byte>, d: nat, n: nat): (r: seq<byte>)
    requires 1 <= d <= |h|
    ensures |r| == |h| + n && h <= r
    decreases n
  {
    if n == 0 then h else AppendBack(Extend(h, d, n - 1), d)
  }

  function AppendBack(h: seq<byte>, d: nat): seq<byte>
    requires 1 <= d <= |h|
  {
    h + [h[|h| - d]]
  }

  /** Append `n` bytes to `h`, copied from ring index `i` on. */
  function Copy(h: seq<byte>, i: nat, n: nat): (r: seq<byte>)
    requires |h| >= N && i < N
    ensures h <= r && |r| == |h| + n
  {
    Extend(h, Distance(WritePos(|h| - N), i), n)
  }

  /** Everything decoded from `input` after the history `h`, with flags `q` still unused. */
  function Decode(h: seq<byte>, q: seq<bool>, input: seq<byte>): seq<byte>
    requires |h| >= N
    decreases |input|
  {
    if input == [] then []
    else if q == [] then Decode(h, Bits(input[0]), input[1..])
    else if q[0] then [input[0]] + Decode(h + [input[0]], q[1..], input[1..])
    else if |input| == 1 then []
    else
      var h' := Copy(h, MatchIndex(input[0], input[1]), MatchLength(input[1]));
      h'[|h|..] + Decode(h', q[1..], input[2..])
  }

  /** The history before the first byte: what the last F ring bytes held before initialisation
      (oldest), then N - F blanks. */
  function InitialHistory(ring: seq<byte>): (h: seq<byte>)
    requires |ring| == N
    ensures |h| == N
  {
    ring[START..] + seq(START, _ => BLANK)
  }

  lemma InitialHistoryIs(ring: seq<byte>)
    requires |ring| == 1024
    ensures |InitialHistory(ring)| == 1024
    ensures forall k :: 0 <= k < 66 ==> InitialHistory(ring)[k] == ring[958 + k]
    ensures forall k :: 66 <= k < 1024 ==> InitialHistory(ring)[k] == 32
  {
  }

  lemma ExtendStart(h: seq<byte>, d: nat)
    requires 1 <= d <= |h|
    ensures Extend(h, d, 0) == h
  {
  }

  lemma ExtendStep(h: seq<byte>, d: nat, m: nat)
    requires 1 <= d <= |h|
    ensures Extend(h, d, m + 1) == AppendBack(Extend(h, d, m), d)
  {
  }

  /** A copied byte equals the one `d` places before it, also when the copy overlaps its source. */
  lemma {:induction false} ExtendCopies(h: seq<byte>, d: nat, n: nat)
    requires 1 <= d <= |h|
    ensures forall k :: |h| <= k < |h| + n ==> Extend(h, d, n)[k] == Extend(h, d, n)[k - d]
    decreases n
  {
    if n > 0 { ExtendCopies(h, d, n - 1); }
  }

  // ----- The wire format, written out -------------------------------------------------------

  /** A flag byte, used from its lowest bit. */
  lemma FlagsMean(h: seq<byte>, f: byte, rest: seq<byte>)
    requires |h| >= 1024
    ensures Decode(h, [], [f] + rest)
         == Decode(h, [f % 2 == 1, f / 2 % 2 == 1, f / 4 % 2 == 1, f / 8 % 2 == 1,
                       f / 16 % 2 == 1, f / 32 % 2 == 1, f / 64 % 2 == 1, f / 128 % 2 == 1], rest)
  {
    assert ([f] + rest)[1..] == rest;
    BitValues(f);
    hide Decode;
    var q: seq<bool> := [];
    FlagLoaded(h, q, [f] + rest);
  }

  lemma FlagLoaded(h: seq<byte>, q: seq<bool>, input: seq<byte>)
    requires |h| >= 1024 && q == [] && input != []
    ensures Decode(h, q, input) == Decode(h, Bits(input[0]), input[1..])
  {
  }

  /** A flag of 1: the next byte is a byte of the text. */
  lemma LiteralMeans(h: seq<byte>, c: byte, q: seq<bool>, rest: seq<byte>)
    requires |h| >= 1024
    ensures Decode(h, [true] + q, [c] + rest) == [c] + Decode(h + [c], q, rest)
  {
    assert ([true] + q)[1..] == q && ([c] + rest)[1..] == rest;
  }

  /** A flag of 0: two bytes name the ring index (eight bits and, above them, the two highest of the second) and the
      number of bytes less three (the six lowest of the second). The text byte `k` of the match is the one `d` places
      before it, where `d` places before the next write position, which started at 958, lies that index. */
  lemma MatchMeans(h: seq<byte>, lo: byte, hi: byte, q: seq<bool>, rest: seq<byte>) returns (c: seq<byte>, d: nat)
    requires |h| >= 1024
    ensures Decode(h, [false] + q, [lo, hi] + rest) == c + Decode(h + c, q, rest)
    ensures |c| == hi % 64 + 3
    ensures 1 <= d <= 1024 && (|h| + 958 - d) % 1024 == lo + hi / 64 * 256
    ensures forall k :: 0 <= k < |c| ==> c[k] == (h + c)[|h| + k - d]
  {
    var i, n, w := MatchIndex(lo, hi), MatchLength(hi), WritePos(|h| - N);
    var r := Copy(h, i, n);
    d := Distance(w, i);
    c := r[|h|..];
    assert h + c == r;
    MatchTaken(h, lo, hi, q, rest);
    ExtendCopies(h, d, n);
    WritePosWraps(|h| - N);
    assert forall k :: 0 <= k < |c| ==> c[k] == r[|h| + k];
    hide Decode;
    IndexBehind(|h|, d, w, i);
  }

  lemma IndexBehind(n: nat, d: nat, w: nat, i: nat)
    requires n >= 1024 && 1 <= d <= 1024 && w == (958 + (n - 1024)) % 1024 && i < 1024
    requires i == if d <= w then w - d else w + 1024 - d
    ensures (n + 958 - d) % 1024 == i
  {
  }

  lemma MatchTaken(h: seq<byte>, lo: byte, hi: byte, q: seq<bool>, rest: seq<byte>)
    requires |h| >= 1024
    ensures var r := Copy(h, MatchIndex(lo, hi), MatchLength(hi));
            Decode(h, [false] + q, [lo, hi] + rest) == r[|h|..] + Decode(r, q, rest)
  {
    assert ([false] + q)[1..] == q && ([lo, hi] + rest)[2..] == rest;
  }

  // ----- The flag word ---------------------------------------------------------------------

  /** Bit 8 of the flag word, which tells whether flags are left. */
  predicate Loaded(flags: nat)
  {
    flags / 256 % 2 == 1
  }

  /** The flags a flag word still holds: shifting until bit 8 is found clear. */
  function Queue(flags: nat): seq<bool>
    decreases flags
  {
    if Loaded(flags / 2) then [flags / 2 % 2 == 1] + Queue(flags / 2) else []
  }

  /** `c | 0xFF00` */
  function Load(c: byte): nat
  {
    c + 0xFF00
  }

  /** The flag word that still serves the bits of `b`, `n` of them, `p` being 2 to the `n`. */
  lemma {:induction false} QueueOf(flags: nat, b: nat, n: nat, p: nat)
    requires n <= 7 && p == Pow2(n) && b < p && flags / 2 == b + 255 * p
    ensures Queue(flags) == LowBits(b, n)
    decreases n
  {
    var f := b + 255 * p;
    if n > 0 {
      assert p == 2 * Pow2(n - 1);
      LoadedWhile(f, b, n, p);
      QueueOf(f, b / 2, n - 1, p / 2);
      LowBitsStep(b, n);
      assert f % 2 == b % 2;
    } else {
      assert f == 255;
    }
  }

  lemma LoadedWhile(f: nat, b: nat, n: nat, p: nat)
    requires 1 <= n <= 7 && p == Pow2(n) && b < p && f == b + 255 * p
    ensures Loaded(f) && f / 2 == b / 2 + 255 * (p / 2)
  {
    assert Pow2(1) == 2 && Pow2(2) == 4 && Pow2(3) == 8 && Pow2(4) == 16;
    assert Pow2(5) == 32 && Pow2(6) == 64 && Pow2(7) == 128;
  }

  /** A freshly loaded flag word serves, after its first token, exactly seven more in bit order. */
  lemma FlagTrick(c: byte)
    ensures Queue(Load(c)) == Bits(c)[1..]
    ensures Load(c) % 2 == 1 <==> Bits(c)[0]
  {
    assert Pow2(4) == 16 && Pow2(7) == 128;
    LowBitsStep(c, 8);
    QueueOf(Load(c), c / 2, 7, 128);
  }
}
