/** The delay-line effects (patmos/c/audio_apps/wcet_audio.c): circular buffers with a pointer that moves down
    implement difference equations over the whole streams, and no 32-bit accumulator overflows. */
module Audio {

  import opened Bytes
  import opened Machine
  import opened Products

  // ----- Streams and circular buffers --------------------------------------------------------------------

  /** The sample `d` steps before the last one; silence before the beginning. */
  function Back(xs: seq<short>, d: nat): short
  {
    if d < |xs| then xs[|xs| - 1 - d] else 0
  }

  /** The sample `d` steps before time `t`; silence before the beginning. */
  function Before(xs: seq<short>, t: nat, d: nat): (x: int)
    requires t < |xs|
    ensures x == if d <= t then xs[t - d] else 0
  {
    if d <= t then xs[t - d] else 0
  }

  /** (pnt + d) % length. */
  function Slot(length: nat, pnt: nat, d: nat): (s: nat)
    requires pnt < length && d < length
    ensures s < length && s == (pnt + d) % length
  {
    if pnt + d < length then pnt + d else pnt + d - length
  }

  /** The pointer moves down, and from the bottom to the top. */
  function Down(length: nat, pnt: nat): (p: nat)
    requires pnt < length
    ensures p < length
  {
    if pnt == 0 then length - 1 else pnt - 1
  }

  /** The pointer before it moved down. */
  function Up(length: nat, pnt: nat): (p: nat)
    requires pnt < length
    ensures p < length && Down(length, p) == pnt
  {
    if pnt + 1 == length then 0 else pnt + 1
  }

  lemma UpDown(length: nat, pnt: nat)
    requires pnt < length
    ensures Up(length, Down(length, pnt)) == pnt
  {
  }

  /** The buffer holds the last samples of the stream, the newest at `pnt`, the one `d` steps back `d` above it. */
  predicate Ring(row: seq<short>, pnt: nat, xs: seq<short>)
  {
    pnt < |row| && forall d :: 0 <= d < |row| ==> row[Slot(|row|, pnt, d)] == Back(xs, d)
  }

  /** The next sample goes below the newest one, where the oldest is. */
  lemma Push(row: seq<short>, pnt: nat, xs: seq<short>, x: short)
    requires Ring(row, pnt, xs)
    ensures Ring(row[Down(|row|, pnt) := x], Down(|row|, pnt), xs + [x])
  {
    var n, p := |row|, Down(|row|, pnt);
    var row' := row[p := x];
    forall d | 0 <= d < n ensures row'[Slot(n, p, d)] == Back(xs + [x], d) {
      if d > 0 {
        assert Slot(n, p, d) == Slot(n, pnt, d - 1) != p;
        assert row[Slot(n, pnt, d - 1)] == Back(xs, d - 1);
      }
    }
  }

  /** Replacing the newest sample. */
  lemma Replace(row: seq<short>, pnt: nat, xs: seq<short>, x: short, y: short)
    requires Ring(row, pnt, xs + [x])
    ensures Ring(row[pnt := y], pnt, xs + [y])
  {
    forall d | 0 <= d < |row| ensures row[pnt := y][Slot(|row|, pnt, d)] == Back(xs + [y], d) {
      assert row[Slot(|row|, pnt, d)] == Back(xs + [x], d);
    }
  }

  // ----- Fixed-point taps ------------------------------------------------------------------------------------

  const ACCUM_MAX := 0x7FF_FFFF
  const ACCUM_MIN := -0x800_0000

  /** (g*x) >> 2. */
  function Tap(g: short, x: short): int
  {
    g * x / 4
  }

  function Saturate(a: int): (s: int)
    ensures ACCUM_MIN <= s <= ACCUM_MAX
    ensures ACCUM_MIN <= a <= ACCUM_MAX ==> s == a
  {
    if a > ACCUM_MAX then ACCUM_MAX else if a < ACCUM_MIN then ACCUM_MIN else a
  }

  lemma TapBound(g: short, x: short)
    ensures -0x1000_0000 <= Tap(g, x) <= 0x1000_0000
  {
    ProductBound(g, x, 0x8000, 0x8000);
  }

  /** The three taps of the chorus. */
  function Comb3(g: seq<short>, a: short, b: short, c: short): (y: short)
    requires |g| == 3
    ensures -0x4000 <= y <= 0x3FFF
  {
    Saturate(Tap(g[0], a) + Tap(g[1], b) + Tap(g[2], c)) / 0x2000
  }

  /** The two taps of the delay. */
  function Comb2(g: seq<short>, a: short, b: short): (y: short)
    requires |g| == 2
    ensures -0x4000 <= y <= 0x3FFF
  {
    Saturate(Tap(g[0], a) + Tap(g[1], b)) / 0x2000
  }

  /** Outputs of the comb filters have two bits to spare. */
  lemma CombRange(a: int)
    ensures -0x4000 <= Saturate(a) / 0x2000 <= 0x3FFF
  {
  }

  /** A sample is written where the pointer stands. */
  method WriteSample(buf: array<short>, pnt: nat, x: short, ghost xs: seq<short>)
    requires pnt < buf.Length && Ring(buf[..], Up(buf.Length, pnt), xs)
    modifies buf
    ensures Ring(buf[..], pnt, xs + [x])
  {
    Push(buf[..], Up(buf.Length, pnt), xs, x);
    ghost var row := buf[..];
    buf[pnt] := x;
    assert buf[..] == row[pnt := x];
  }

  /** One channel of combFilter_2nd: the buffer is read at three delays from the pointer. */
  method CombFilter2nd(buf: array<short>, pnt: nat, g: seq<short>, del: seq<nat>, ghost xs: seq<short>)
      returns (y: short)
    requires |g| == 3 && |del| == 3 && Ring(buf[..], pnt, xs)
    requires del[0] < buf.Length && del[1] < buf.Length && del[2] < buf.Length
    ensures y == Comb3(g, Back(xs, del[0]), Back(xs, del[1]), Back(xs, del[2]))
  {
    var n := buf.Length;
    var a, b, c := buf[(pnt + del[0]) % n], buf[(pnt + del[1]) % n], buf[(pnt + del[2]) % n];
    assert a == buf[..][Slot(n, pnt, del[0])] && b == buf[..][Slot(n, pnt, del[1])]
      && c == buf[..][Slot(n, pnt, del[2])];
    TapBound(g[0], a);
    TapBound(g[1], b);
    TapBound(g[2], c);
    hide Tap; hide Int32; hide Ring; hide Back; hide Slot;
    var accum := 0;
    accum := Int32(accum + Tap(g[0], a));
    accum := Int32(accum + Tap(g[1], b));
    accum := Int32(accum + Tap(g[2], c));
    CombRange(accum);
    if accum > ACCUM_MAX {
      accum := ACCUM_MAX;
    } else if accum < ACCUM_MIN {
      accum := ACCUM_MIN;
    }
    y := Int16(accum / 0x2000);
  }

  /** One channel of combFilter_1st. */
  method CombFilter1st(buf: array<short>, pnt: nat, g: seq<short>, del: seq<nat>, ghost xs: seq<short>)
      returns (y: short)
    requires |g| == 2 && |del| == 2 && Ring(buf[..], pnt, xs) && del[0] < buf.Length && del[1] < buf.Length
    ensures y == Comb2(g, Back(xs, del[0]), Back(xs, del[1]))
  {
    var n := buf.Length;
    var a, b := buf[(pnt + del[0]) % n], buf[(pnt + del[1]) % n];
    assert a == buf[..][Slot(n, pnt, del[0])] && b == buf[..][Slot(n, pnt, del[1])];
    TapBound(g[0], a);
    TapBound(g[1], b);
    hide Tap; hide Int32; hide Ring; hide Back; hide Slot;
    var accum := 0;
    accum := Int32(accum + Tap(g[0], a));
    accum := Int32(accum + Tap(g[1], b));
    CombRange(accum);
    if accum > ACCUM_MAX {
      accum := ACCUM_MAX;
    } else if accum < ACCUM_MIN {
      accum := ACCUM_MIN;
    }
    y := Int16(accum / 0x2000);
  }

  // ----- Blocks of stereo samples ------------------------------------------------------------------------------

  const LOOPS: nat := 100

  /** The first `n` samples of channel `j` of an interleaved block. */
  function Channel(x: seq<short>, j: nat, n: nat): (c: seq<short>)
    requires j < 2 && 2 * n <= |x|
    ensures |c| == n
  {
    seq(n, i requires 0 <= i < n => x[2 * i + j])
  }

  lemma ChannelMore(x: seq<short>, j: nat, n: nat)
    requires j < 2 && 2 * n + 2 <= |x|
    ensures Channel(x, j, n + 1) == Channel(x, j, n) + [x[2 * n + j]]
  {
  }

  /** Writing frame `n` of a block. */
  lemma ChannelWrite(y: seq<short>, n: nat, l: short, r: short)
    requires 2 * n + 2 <= |y|
    ensures var y' := y[2 * n := l][2 * n + 1 := r];
            Channel(y', 0, n + 1) == Channel(y, 0, n) + [l] && Channel(y', 1, n + 1) == Channel(y, 1, n) + [r]
  {
  }

  /** Quotient and remainder are unique. */
  lemma SameRemainder(q: int, r: int, k: int, s: int, p: int)
    requires q * p + r == k * p + s && 0 <= r < p && 0 <= s < p
    ensures r == s
  {
    if q > k {
      assert (q - k) * p == s - r;
      MulBound(1, p, q - k, p);
    } else if q < k {
      assert (k - q) * p == r - s;
      MulBound(1, p, k - q, p);
    }
  }

  lemma NextRemainder(q: nat, r: nat, k: nat, s: nat, p: nat)
    requires q * p + r + 1 == k * p + s && r < p && s < p
    ensures s == if r + 1 < p then r + 1 else 0
  {
    if r + 1 < p {
      SameRemainder(q, r + 1, k, s, p);
    } else {
      assert (q + 1) * p == q * p + p;
      SameRemainder(q + 1, 0, k, s, p);
    }
  }

  lemma WrapsOnce(r: nat, p: nat)
    requires r < p
    ensures (r + 1) % p == if r + 1 < p then r + 1 else 0
  {
  }

  lemma DivMod(t: nat, p: nat)
    requires p > 0
    ensures t == (t / p) * p + t % p
  {
  }

  /** The periodic pointers of the effects. */
  lemma ModStep(t: nat, p: nat)
    requires p > 0
    ensures (t % p + 1) % p == (t + 1) % p
  {
    DivMod(t, p);
    DivMod(t + 1, p);
    WrapsOnce(t % p, p);
    NextRemainder(t / p, t % p, (t + 1) / p, (t + 1) % p, p);
  }

  // ----- Chorus ----------------------------------------------------------------------------------------------------

  const CHORUS_L: nat := 2083

  /** The delays of a chorus tap over time, all within the buffer. */
  predicate Delays(mod: seq<nat>)
  {
    |mod| > 0 && forall k :: 0 <= k < |mod| ==> mod[k] < CHORUS_L
  }

  /** The chorus output after the stream `xs`: its last sample and two earlier ones, at delays that vary with time. */
  function ChorusOut(g: seq<short>, mod1: seq<nat>, mod2: seq<nat>, xs: seq<short>): short
    requires |g| == 3 && |mod1| > 0 && |mod2| > 0 && xs != []
  {
    var t := |xs| - 1;
    Comb3(g, Back(xs, mod1[t % |mod1|]), Back(xs, mod2[t % |mod2|]), xs[t])
  }

  /** The chorus as a difference equation over whole streams. */
  function ChorusStream(g: seq<short>, mod1: seq<nat>, mod2: seq<nat>, xs: seq<short>): (ys: seq<short>)
    requires |g| == 3 && |mod1| > 0 && |mod2| > 0
    ensures |ys| == |xs|
  {
    seq(|xs|, t requires 0 <= t < |xs| => ChorusOut(g, mod1, mod2, xs[..t + 1]))
  }

  lemma ChorusMore(g: seq<short>, mod1: seq<nat>, mod2: seq<nat>, xs: seq<short>, x: short)
    requires |g| == 3 && |mod1| > 0 && |mod2| > 0
    ensures ChorusStream(g, mod1, mod2, xs + [x])
        == ChorusStream(g, mod1, mod2, xs) + [ChorusOut(g, mod1, mod2, xs + [x])]
  {
    hide ChorusOut;
    var more := xs + [x];
    forall t | 0 <= t < |xs| ensures ChorusStream(g, mod1, mod2, more)[t] == ChorusStream(g, mod1, mod2, xs)[t] {
      assert more[..t + 1] == xs[..t + 1];
    }
    assert (xs + [x])[..|xs| + 1] == xs + [x];
  }

  /** The difference equation of the chorus: each output is made of the present input and two earlier ones, at the
      delays of that time, with silence before the beginning; every product is halved twice, the sum is limited and
      loses 13 bits. */
  lemma ChorusEquation(g: seq<short>, mod1: seq<nat>, mod2: seq<nat>, xs: seq<short>, t: nat)
    requires |g| == 3 && |mod1| > 0 && |mod2| > 0 && t < |xs|
    ensures var d, e := mod1[t % |mod1|], mod2[t % |mod2|];
            var s := g[0] * Before(xs, t, d) / 4 + g[1] * Before(xs, t, e) / 4 + g[2] * Before(xs, t, 0) / 4;
            ChorusStream(g, mod1, mod2, xs)[t]
            == (if s > 0x7FF_FFFF then 0x7FF_FFFF else if s < -0x800_0000 then -0x800_0000 else s) / 8192
  {
    var past := xs[..t + 1];
    var d, e := mod1[t % |mod1|], mod2[t % |mod2|];
    assert ChorusStream(g, mod1, mod2, xs)[t] == ChorusOut(g, mod1, mod2, past) by { hide ChorusOut; }
    BackBefore(xs, t, d);
    BackBefore(xs, t, e);
    Comb3Is(g, Back(past, d), Back(past, e), xs[t]);
    hide Comb3; hide ChorusStream; hide Back;
  }

  lemma Comb3Is(g: seq<short>, a: short, b: short, c: short)
    requires |g| == 3
    ensures var s: int := g[0] * a / 4 + g[1] * b / 4 + g[2] * c / 4;
            Comb3(g, a, b, c)
            == (if s > 0x7FF_FFFF then 0x7FF_FFFF else if s < -0x800_0000 then -0x800_0000 else s) / 8192
  {
  }

  lemma BackBefore(xs: seq<short>, t: nat, d: nat)
    requires t < |xs|
    ensures Back(xs[..t + 1], d) == Before(xs, t, d)
  {
  }

  class Chorus {
    const g: seq<short>
    const mod1: seq<nat>
    const mod2: seq<nat>
    const left: array<short>
    const right: array<short>
    var del: seq<nat>
    var pnt: nat
    var c1Pnt: nat
    var c2Pnt: nat
    // Everything each channel was given and returned so far.
    ghost var heard0: seq<short>
    ghost var heard1: seq<short>
    ghost var said0: seq<short>
    ghost var said1: seq<short>

    ghost predicate Valid()
      reads this, left, right
    {
      Buffers() && Pointers() && Streams()
    }

    ghost predicate Buffers()
      reads this, left, right
    {
      && left != right && left.Length == right.Length == CHORUS_L && pnt < CHORUS_L
      && Ring(left[..], Up(CHORUS_L, pnt), heard0) && Ring(right[..], Up(CHORUS_L, pnt), heard1)
    }

    ghost predicate Pointers()
      reads this
    {
      && |g| == 3 && Delays(mod1) && Delays(mod2) && |del| == 3 && del[2] == 0
      && |heard0| == |heard1| && c1Pnt == |heard0| % |mod1| && c2Pnt == |heard0| % |mod2|
    }

    ghost predicate Streams()
      requires Pointers()
      reads this
    {
      said0 == ChorusStream(g, mod1, mod2, heard0) && said1 == ChorusStream(g, mod1, mod2, heard1)
    }

    constructor (g: seq<short>, mod1: seq<nat>, mod2: seq<nat>)
      requires |g| == 3 && Delays(mod1) && Delays(mod2)
      ensures Valid() && fresh(left) && fresh(right) && heard0 == heard1 == []
      ensures this.g == g && this.mod1 == mod1 && this.mod2 == mod2
    {
      this.g, this.mod1, this.mod2 := g, mod1, mod2;
      left := new short[CHORUS_L](_ => 0);
      right := new short[CHORUS_L](_ => 0);
      del, pnt, c1Pnt, c2Pnt := [0, 0, 0], CHORUS_L - 1, 0, 0;
      heard0, heard1, said0, said1 := [], [], [], [];
    }

    /** The delays of the next frame. */
    method Modulate()
      requires Pointers()
      modifies `del, `c1Pnt, `c2Pnt
      ensures del == [mod1[|heard0| % |mod1|], mod2[|heard0| % |mod2|], 0]
      ensures c1Pnt == (|heard0| + 1) % |mod1| && c2Pnt == (|heard0| + 1) % |mod2|
    {
      ModStep(|heard0|, |mod1|);
      ModStep(|heard0|, |mod2|);
      del := [mod1[c1Pnt], mod2[c2Pnt], del[2]];
      c1Pnt := (c1Pnt + 1) % |mod1|;
      c2Pnt := (c2Pnt + 1) % |mod2|;
    }

    /** The new samples go into the buffers, the filters read them, the pointer moves down. */
    method Filter(l: short, r: short) returns (yl: short, yr: short)
      requires Buffers() && |g| == 3 && |del| == 3 && del[0] < CHORUS_L && del[1] < CHORUS_L && del[2] == 0
      modifies `pnt, `heard0, `heard1, left, right
      ensures Buffers() && heard0 == old(heard0) + [l] && heard1 == old(heard1) + [r]
      ensures yl == Comb3(g, Back(heard0, del[0]), Back(heard0, del[1]), l)
      ensures yr == Comb3(g, Back(heard1, del[0]), Back(heard1, del[1]), r)
    {
      UpDown(CHORUS_L, pnt);
      hide Ring; hide Slot; hide Comb3; hide Up;
      WriteSample(left, pnt, l, heard0);
      WriteSample(right, pnt, r, heard1);
      heard0, heard1 := heard0 + [l], heard1 + [r];
      yl := CombFilter2nd(left, pnt, g, del, heard0);
      yr := CombFilter2nd(right, pnt, g, del, heard1);
      if pnt == 0 {
        pnt := CHORUS_L - 1;
      } else {
        pnt := pnt - 1;
      }
    }

    /** One pass of the loop in audio_chorus. */
    method Frame(l: short, r: short) returns (yl: short, yr: short)
      requires Valid()
      modifies this, left, right
      ensures Valid() && heard0 == old(heard0) + [l] && heard1 == old(heard1) + [r]
      ensures said0 == old(said0) + [yl] && said1 == old(said1) + [yr]
    {
      ChorusMore(g, mod1, mod2, heard0, l);
      ChorusMore(g, mod1, mod2, heard1, r);
      hide Comb3; hide ChorusStream; hide Back; hide Buffers;
      Modulate();
      yl, yr := Filter(l, r);
      said0, said1 := said0 + [yl], said1 + [yr];
    }

    /** What each channel has returned so far is what the equations give for all it was given. */
    lemma Returned()
      requires Valid()
      ensures said0 == ChorusStream(g, mod1, mod2, heard0) && said1 == ChorusStream(g, mod1, mod2, heard1)
    {
    }

    /** audio_chorus: one block. Over any number of calls the streams go on where they stopped, and what was written
        out is what the difference equation gives for all that was read. */
    method Process(x: array<short>, y: array<short>)
      requires Valid() && x.Length == y.Length == 200
      requires x != y && x != left && x != right && y != left && y != right
      modifies this, left, right, y
      ensures Valid()
      ensures said0 == ChorusStream(g, mod1, mod2, heard0) && said1 == ChorusStream(g, mod1, mod2, heard1)
      ensures heard0 == old(heard0) + Channel(x[..], 0, 100) && heard1 == old(heard1) + Channel(x[..], 1, 100)
      ensures said0 == old(said0) + Channel(y[..], 0, 100) && said1 == old(said1) + Channel(y[..], 1, 100)
    {
      hide Valid;
      ghost var block := x[..];
      var i := 0;
      while i < LOOPS
        invariant 0 <= i <= LOOPS && Valid() && x[..] == block
        invariant heard0 == old(heard0) + Channel(block, 0, i) && heard1 == old(heard1) + Channel(block, 1, i)
        invariant said0 == old(said0) + Channel(y[..], 0, i) && said1 == old(said1) + Channel(y[..], 1, i)
      {
        ghost var was := y[..];
        ChannelMore(block, 0, i);
        ChannelMore(block, 1, i);
        var yl, yr := Frame(x[2 * i], x[2 * i + 1]);
        ChannelWrite(was, i, yl, yr);
        hide Channel;
        y[2 * i] := yl;
        y[2 * i + 1] := yr;
        assert y[..] == was[2 * i := yl][2 * i + 1 := yr];
        i := i + 1;
      }
      Returned();
    }
  }

  // ----- Delay -----------------------------------------------------------------------------------------------------

  const DELAY_L: nat := 13020

  /** The next output of the delay: the buffer holds former outputs, and the new input in front. */
  function EchoOut(g: seq<short>, del: seq<nat>, ys: seq<short>, x: short): short
    requires |g| == |del| == 2
  {
    Comb2(g, Back(ys + [x], del[0]), Back(ys + [x], del[1]))
  }

  /** The outputs of the delay for the inputs `xs`. */
  function EchoStream(g: seq<short>, del: seq<nat>, xs: seq<short>): (ys: seq<short>)
    requires |g| == |del| == 2
    ensures |ys| == |xs|
    decreases |xs|
  {
    if xs == [] then []
    else
      var before := EchoStream(g, del, xs[..|xs| - 1]);
      before + [EchoOut(g, del, before, xs[|xs| - 1])]
  }

  lemma EchoMore(g: seq<short>, del: seq<nat>, xs: seq<short>, x: short)
    requires |g| == |del| == 2
    ensures EchoStream(g, del, xs + [x]) == EchoStream(g, del, xs) + [EchoOut(g, del, EchoStream(g, del, xs), x)]
  {
    assert (xs + [x])[..|xs|] == xs;
    hide EchoOut;
  }

  /** With the delays the program sets, the difference equation of the delay: each output is made of the present input
      and the output 13019 steps before, with silence before the beginning. */
  lemma {:induction false} EchoEquation(g: seq<short>, xs: seq<short>, t: nat)
    requires |g| == 2 && t < |xs|
    ensures var ys := EchoStream(g, [DELAY_L - 1, 0], xs);
            var s := g[0] * Before(ys, t, 13019) / 4 + g[1] * Before(xs, t, 0) / 4;
            ys[t] == (if s > 0x7FF_FFFF then 0x7FF_FFFF else if s < -0x800_0000 then -0x800_0000 else s) / 8192
    decreases |xs|
  {
    var n := |xs| - 1;
    var before := EchoStream(g, [DELAY_L - 1, 0], xs[..n]);
    if t < n {
      hide Comb2;
      EchoEquation(g, xs[..n], t);
    } else {
      EchoNow(g, before, xs, t, EchoStream(g, [DELAY_L - 1, 0], xs));
      hide Comb2; hide EchoOut; hide Before;
    }
  }

  lemma EchoNow(g: seq<short>, ys: seq<short>, xs: seq<short>, t: nat, more: seq<short>)
    requires |g| == 2 && |ys| == t < |xs| && more == ys + [EchoOut(g, [DELAY_L - 1, 0], ys, xs[t])]
    ensures var s := g[0] * Before(more, t, 13019) / 4 + g[1] * Before(xs, t, 0) / 4;
            more[t] == (if s > 0x7FF_FFFF then 0x7FF_FFFF else if s < -0x800_0000 then -0x800_0000 else s) / 8192
  {
    var x := xs[t];
    Comb2Is(g, Back(ys + [x], 13019), Back(ys + [x], 0));
    hide Comb2;
  }

  lemma Comb2Is(g: seq<short>, a: short, b: short)
    requires |g| == 2
    ensures var s: int := g[0] * a / 4 + g[1] * b / 4;
            Comb2(g, a, b)
            == (if s > 0x7FF_FFFF then 0x7FF_FFFF else if s < -0x800_0000 then -0x800_0000 else s) / 8192
  {
  }

  /** What one channel was given and what was returned. */
  predicate Echoes(g: seq<short>, del: seq<nat>, xs: seq<short>, ys: seq<short>)
    requires |g| == |del| == 2
  {
    ys == EchoStream(g, del, xs)
  }

  lemma EchoesMore(g: seq<short>, del: seq<nat>, xs: seq<short>, ys: seq<short>, x: short)
    requires |g| == |del| == 2 && Echoes(g, del, xs, ys)
    ensures Echoes(g, del, xs + [x], ys + [EchoOut(g, del, ys, x)])
  {
    EchoMore(g, del, xs, x);
    hide EchoOut;
  }

  class EchoDelay {
    const g: seq<short>
    const del: seq<nat>
    const left: array<short>
    const right: array<short>
    var pnt: nat
    ghost var heard0: seq<short>
    ghost var heard1: seq<short>
    ghost var said0: seq<short>
    ghost var said1: seq<short>

    ghost predicate Valid()
      reads this, left, right
    {
      Buffers() && Settings() && Echoes(g, del, heard0, said0) && Echoes(g, del, heard1, said1)
    }

    predicate Settings()
    {
      |g| == |del| == 2 && del[0] < DELAY_L && del[1] < DELAY_L
    }

    /** The buffers hold what was returned, not what was read. */
    ghost predicate Buffers()
      reads this, left, right
    {
      && left != right && left.Length == right.Length == DELAY_L && pnt < DELAY_L
      && Ring(left[..], Up(DELAY_L, pnt), said0) && Ring(right[..], Up(DELAY_L, pnt), said1)
    }

    constructor (g: seq<short>, del: seq<nat>)
      requires |g| == |del| == 2 && del[0] < DELAY_L && del[1] < DELAY_L
      ensures Valid() && fresh(left) && fresh(right) && heard0 == heard1 == [] && this.g == g && this.del == del
    {
      this.g, this.del, pnt := g, del, DELAY_L - 1;
      left := new short[DELAY_L](_ => 0);
      right := new short[DELAY_L](_ => 0);
      heard0, heard1, said0, said1 := [], [], [], [];
    }

    /** One channel: the input in front, the filter, the output in its place. */
    method Filter(buf: array<short>, x: short, ghost ys: seq<short>) returns (y: short)
      requires Settings() && buf.Length == DELAY_L && pnt < DELAY_L && Ring(buf[..], Up(DELAY_L, pnt), ys)
      modifies buf
      ensures y == EchoOut(g, del, ys, x) && Ring(buf[..], pnt, ys + [y])
    {
      hide Ring; hide Comb2; hide Back; hide Up;
      WriteSample(buf, pnt, x, ys);
      y := CombFilter1st(buf, pnt, g, del, ys + [x]);
      Replace(buf[..], pnt, ys, x, y);
      ghost var row := buf[..];
      buf[pnt] := y;
      assert buf[..] == row[pnt := y];
    }

    /** Both channels; then the pointer moves down. */
    method FilterBoth(l: short, r: short) returns (yl: short, yr: short)
      requires Settings() && Buffers()
      modifies `pnt, `said0, `said1, left, right
      ensures Buffers() && said0 == old(said0) + [yl] && said1 == old(said1) + [yr]
      ensures yl == EchoOut(g, del, old(said0), l) && yr == EchoOut(g, del, old(said1), r)
    {
      UpDown(DELAY_L, pnt);
      hide Ring; hide EchoOut; hide Up;
      yl := Filter(left, l, said0);
      yr := Filter(right, r, said1);
      said0, said1 := said0 + [yl], said1 + [yr];
      if pnt == 0 {
        pnt := DELAY_L - 1;
      } else {
        pnt := pnt - 1;
      }
    }

    /** One pass of the loop in audio_delay. */
    method Frame(l: short, r: short) returns (yl: short, yr: short)
      requires Valid()
      modifies this, left, right
      ensures Valid() && heard0 == old(heard0) + [l] && heard1 == old(heard1) + [r]
      ensures said0 == old(said0) + [yl] && said1 == old(said1) + [yr]
    {
      EchoesMore(g, del, heard0, said0, l);
      EchoesMore(g, del, heard1, said1, r);
      hide EchoOut; hide Echoes; hide Buffers;
      yl, yr := FilterBoth(l, r);
      heard0, heard1 := heard0 + [l], heard1 + [r];
    }

    /** What each channel has returned so far is what the equations give for all it was given. */
    lemma Returned()
      requires Valid()
      ensures said0 == EchoStream(g, del, heard0) && said1 == EchoStream(g, del, heard1)
    {
    }

    /** audio_delay: one block. */
    method Process(x: array<short>, y: array<short>)
      requires Valid() && x.Length == y.Length == 200
      requires x != y && x != left && x != right && y != left && y != right
      modifies this, left, right, y
      ensures Valid()
      ensures said0 == EchoStream(g, del, heard0) && said1 == EchoStream(g, del, heard1)
      ensures heard0 == old(heard0) + Channel(x[..], 0, 100) && heard1 == old(heard1) + Channel(x[..], 1, 100)
      ensures said0 == old(said0) + Channel(y[..], 0, 100) && said1 == old(said1) + Channel(y[..], 1, 100)
    {
      hide Valid;
      ghost var block := x[..];
      var i := 0;
      while i < LOOPS
        invariant 0 <= i <= LOOPS && Valid() && x[..] == block
        invariant heard0 == old(heard0) + Channel(block, 0, i) && heard1 == old(heard1) + Channel(block, 1, i)
        invariant said0 == old(said0) + Channel(y[..], 0, i) && said1 == old(said1) + Channel(y[..], 1, i)
      {
        ghost var was := y[..];
        ChannelMore(block, 0, i);
        ChannelMore(block, 1, i);
        var yl, yr := Frame(x[2 * i], x[2 * i + 1]);
        ChannelWrite(was, i, yl, yr);
        hide Channel;
        y[2 * i] := yl;
        y[2 * i + 1] := yr;
        assert y[..] == was[2 * i := yl][2 * i + 1 := yr];
        i := i + 1;
      }
      Returned();
    }
  }

  // ----- Second-order filter ------------------------------------------------------------------------------------

  /** The three-sample buffer of the filter: the pointer moves up, the oldest sample stands behind it. */
  predicate Last3(row: seq<short>, pnt: nat, xs: seq<short>)
  {
    && |row| == 3 && pnt < 3
    && row[pnt] == Back(xs, 0) && row[(pnt + 2) % 3] == Back(xs, 1) && row[(pnt + 1) % 3] == Back(xs, 2)
  }

  lemma Push3(row: seq<short>, pnt: nat, xs: seq<short>, x: short)
    requires Last3(row, pnt, xs)
    ensures Last3(row[(pnt + 1) % 3 := x], (pnt + 1) % 3, xs + [x])
  {
  }

  /** The accumulator after the first `k` rounds: round `i` takes the samples `2 - i` steps back. */
  function Partial(b: seq<short>, a: seq<short>, x: seq<short>, y: seq<short>, k: nat): int
    requires |b| == |a| == |x| == |y| == 3 && k <= 3
  {
    if k == 0 then 0 else Partial(b, a, x, y, k - 1) + Tap(b[k - 1], x[k - 1]) - Tap(a[k - 1], y[k - 1])
  }

  /** The sum of the filter: the last three inputs, and the outputs one, two and three steps before. */
  function FilterSum(b: seq<short>, a: seq<short>, xs: seq<short>, ys: seq<short>): int
    requires |b| == |a| == 3
  {
    Partial(b, a, [Back(xs, 2), Back(xs, 1), Back(xs, 0)], [Back(ys, 1), Back(ys, 0), Back(ys, 2)], 3)
  }

  /** The next value in the output buffer. */
  function FilterOut(b: seq<short>, a: seq<short>, shiftLeft: nat, xs: seq<short>, ys: seq<short>): short
    requires |b| == |a| == 3 && shiftLeft <= 13
  {
    Int16(Saturate(FilterSum(b, a, xs, ys)) / Pow2(13 - shiftLeft))
  }

  function FilterStream(b: seq<short>, a: seq<short>, shiftLeft: nat, xs: seq<short>): (ys: seq<short>)
    requires |b| == |a| == 3 && shiftLeft <= 13
    ensures |ys| == |xs|
    decreases |xs|
  {
    if xs == [] then []
    else
      var before := FilterStream(b, a, shiftLeft, xs[..|xs| - 1]);
      before + [FilterOut(b, a, shiftLeft, xs, before)]
  }

  /** Six taps fit 32 bits, with any gains and samples. */
  lemma PartialBound(b: seq<short>, a: seq<short>, x: seq<short>, y: seq<short>, k: nat)
    requires |b| == |a| == |x| == |y| == 3 && k <= 3
    ensures -0x2000_0000 * k <= Partial(b, a, x, y, k) <= 0x2000_0000 * k
    decreases k
  {
    if k > 0 {
      PartialBound(b, a, x, y, k - 1);
      TapBound(b[k - 1], x[k - 1]);
      TapBound(a[k - 1], y[k - 1]);
      hide Tap;
    }
  }

  /** What is left after the shift stays within 16 bits. */
  predicate Uncut(shiftLeft: nat, s: int)
    requires shiftLeft <= 13
  {
    SHORT_MIN <= Saturate(s) / Pow2(13 - shiftLeft) <= SHORT_MAX
  }

  lemma QuotientAtLeast(a: nat, p: nat, q: nat)
    requires p > 0 && q * p <= a
    ensures a / p >= q
  {
    var k := a / p;
    assert a < (k + 1) * p;
    if k < q {
      MulBound(k + 1, p, q, p);
    }
  }

  /** All gains and three constant inputs at their largest drive the accumulator to its limit. */
  lemma AccumFills(b: seq<short>, a: seq<short>, xs: seq<short>, ys: seq<short>)
    requires b == [SHORT_MAX, SHORT_MAX, SHORT_MAX] && a == [0, 0, 0] && xs == [SHORT_MAX, SHORT_MAX, SHORT_MAX]
    ensures FilterSum(b, a, xs, ys) > ACCUM_MAX
  {
    assert Tap(SHORT_MAX, SHORT_MAX) == 268419072;
    assert Tap(0, Back(ys, 0)) == Tap(0, Back(ys, 1)) == Tap(0, Back(ys, 2)) == 0;
    Rounds(b, a, [Back(xs, 2), Back(xs, 1), Back(xs, 0)], [Back(ys, 1), Back(ys, 0), Back(ys, 2)]);
    hide Partial; hide Tap;
  }

  /** The filter's sum at the end of a run over the inputs `xs`. */
  function LastSum(b: seq<short>, a: seq<short>, shiftLeft: nat, xs: seq<short>): int
    requires |b| == |a| == 3 && shiftLeft <= 13 && xs != []
  {
    FilterSum(b, a, xs, FilterStream(b, a, shiftLeft, xs[..|xs| - 1]))
  }

  /** In all runs, with any gains and any 16-bit samples, the output needs no more than 16 bits: exactly if the shift is
      0 or 1. */
  lemma NeverCutIff(shiftLeft: nat)
    requires shiftLeft <= 13
    ensures shiftLeft <= 1 <==>
              forall b: seq<short>, a: seq<short>, xs: seq<short> ::
                |b| == |a| == 3 && xs != [] ==> Uncut(shiftLeft, LastSum(b, a, shiftLeft, xs))
  {
    var p := Pow2(13 - shiftLeft);
    assert Pow2(11) == 2048 && Pow2(12) == 4096 && Pow2(13) == 8192;
    hide FilterSum; hide FilterStream;
    if shiftLeft > 1 {
      Pow2Monotone(13 - shiftLeft, 11);
      MulBound(p, 0x8000, 2048, 0x8000);
      QuotientAtLeast(ACCUM_MAX, p, 0x8000);
      var most: seq<short>, none: seq<short> := [SHORT_MAX, SHORT_MAX, SHORT_MAX], [0, 0, 0];
      AccumFills(most, none, most, FilterStream(most, none, shiftLeft, most[..|most| - 1]));
      assert !Uncut(shiftLeft, LastSum(most, none, shiftLeft, most));
    }
  }

  /** With a[2] = 0 the filter is of second order: it depends on the last three inputs and the last two outputs. */
  lemma SecondOrder(b: seq<short>, a: seq<short>, xs: seq<short>, ys: seq<short>)
    requires |b| == |a| == 3 && a[2] == 0
    ensures FilterSum(b, a, xs, ys) ==
            Tap(b[2], Back(xs, 0)) + Tap(b[1], Back(xs, 1)) + Tap(b[0], Back(xs, 2))
            - Tap(a[1], Back(ys, 0)) - Tap(a[0], Back(ys, 1))
  {
    var x: seq<short>, y: seq<short> := [Back(xs, 2), Back(xs, 1), Back(xs, 0)],
        [Back(ys, 1), Back(ys, 0), Back(ys, 2)];
    assert Tap(a[2], y[2]) == 0;
    hide Tap; hide Back;
    Rounds(b, a, x, y);
  }

  lemma Rounds(b: seq<short>, a: seq<short>, x: seq<short>, y: seq<short>)
    requires |b| == |a| == |x| == |y| == 3
    ensures Partial(b, a, x, y, 3) ==
            Tap(b[0], x[0]) + Tap(b[1], x[1]) + Tap(b[2], x[2]) - Tap(a[0], y[0]) - Tap(a[1], y[1]) - Tap(a[2], y[2])
  {
    hide Tap;
    var k := 3;
    assert Partial(b, a, x, y, k) == Partial(b, a, x, y, k - 1) + Tap(b[2], x[2]) - Tap(a[2], y[2]);
    assert Partial(b, a, x, y, k - 1) == Partial(b, a, x, y, k - 2) + Tap(b[1], x[1]) - Tap(a[1], y[1]);
    assert Partial(b, a, x, y, k - 2) == Partial(b, a, x, y, k - 3) + Tap(b[0], x[0]) - Tap(a[0], y[0]);
  }

  lemma FilterMore(b: seq<short>, a: seq<short>, shiftLeft: nat, xs: seq<short>, x: short)
    requires |b| == |a| == 3 && shiftLeft <= 13
    ensures var before := FilterStream(b, a, shiftLeft, xs);
            FilterStream(b, a, shiftLeft, xs + [x]) == before + [FilterOut(b, a, shiftLeft, xs + [x], before)]
  {
    assert (xs + [x])[..|xs|] == xs;
    hide FilterOut;
  }

  /** The difference equation of the filter, for all gains and shifts: the present input, the two inputs before it, and
      the outputs one, two and three steps before; silence before the beginning. The limited sum loses the bits below
      the shift, and what is left is cut to 16 bits. */
  lemma {:induction false} FilterEquation(b: seq<short>, a: seq<short>, shiftLeft: nat, xs: seq<short>, t: nat)
    requires |b| == |a| == 3 && shiftLeft <= 13 && t < |xs|
    ensures var ys := FilterStream(b, a, shiftLeft, xs);
            var s := b[2] * Before(xs, t, 0) / 4 + b[1] * Before(xs, t, 1) / 4 + b[0] * Before(xs, t, 2) / 4
                     - a[1] * Before(ys, t, 1) / 4 - a[0] * Before(ys, t, 2) / 4 - a[2] * Before(ys, t, 3) / 4;
            ys[t] == Int16((if s > 0x7FF_FFFF then 0x7FF_FFFF else if s < -0x800_0000 then -0x800_0000 else s)
                           / Pow2(13 - shiftLeft))
    decreases |xs|
  {
    var n := |xs| - 1;
    if t < n {
      hide Pow2; hide Int16; hide FilterOut;
      FilterEquation(b, a, shiftLeft, xs[..n], t);
    } else {
      FilterNow(b, a, shiftLeft, xs, FilterStream(b, a, shiftLeft, xs[..n]), t, FilterStream(b, a, shiftLeft, xs));
      hide FilterOut; hide Pow2; hide Int16; hide Before;
    }
  }

  lemma FilterNow(b: seq<short>, a: seq<short>, shiftLeft: nat, xs: seq<short>, ys: seq<short>, t: nat,
                  more: seq<short>)
    requires |b| == |a| == 3 && shiftLeft <= 13 && |ys| == t && |xs| == t + 1
    requires more == ys + [FilterOut(b, a, shiftLeft, xs, ys)]
    ensures var s := b[2] * Before(xs, t, 0) / 4 + b[1] * Before(xs, t, 1) / 4 + b[0] * Before(xs, t, 2) / 4
                     - a[1] * Before(more, t, 1) / 4 - a[0] * Before(more, t, 2) / 4 - a[2] * Before(more, t, 3) / 4;
            more[t] == Int16((if s > 0x7FF_FFFF then 0x7FF_FFFF else if s < -0x800_0000 then -0x800_0000 else s)
                             / Pow2(13 - shiftLeft))
  {
    Rounds(b, a, [Back(xs, 2), Back(xs, 1), Back(xs, 0)], [Back(ys, 1), Back(ys, 0), Back(ys, 2)]);
    PastSamples(xs, ys, t, more);
    hide Partial; hide Pow2; hide Int16; hide Back; hide Before;
  }

  lemma PastSamples(xs: seq<short>, ys: seq<short>, t: nat, more: seq<short>)
    requires |ys| == t && |xs| == t + 1 && |more| == t + 1 && more[..t] == ys
    ensures Back(xs, 0) == Before(xs, t, 0) && Back(xs, 1) == Before(xs, t, 1) && Back(xs, 2) == Before(xs, t, 2)
    ensures Back(ys, 0) == Before(more, t, 1) && Back(ys, 1) == Before(more, t, 2) && Back(ys, 2) == Before(more, t, 3)
  {
  }

  /** With a[2] = 0 and a shift of 0 or 1 nothing is cut, and the filter is of second order. */
  lemma FilterUncut(b: seq<short>, a: seq<short>, shiftLeft: nat, xs: seq<short>, t: nat)
    requires |b| == |a| == 3 && a[2] == 0 && shiftLeft <= 1 && t < |xs|
    ensures var ys := FilterStream(b, a, shiftLeft, xs);
            var s := b[2] * Before(xs, t, 0) / 4 + b[1] * Before(xs, t, 1) / 4 + b[0] * Before(xs, t, 2) / 4
                     - a[1] * Before(ys, t, 1) / 4 - a[0] * Before(ys, t, 2) / 4;
            ys[t] == (if s > 0x7FF_FFFF then 0x7FF_FFFF else if s < -0x800_0000 then -0x800_0000 else s)
                     / (if shiftLeft == 0 then 8192 else 4096)
  {
    FilterEquation(b, a, shiftLeft, xs, t);
    var ys := FilterStream(b, a, shiftLeft, xs);
    assert a[2] * Before(ys, t, 3) == 0;
    assert Pow2(13) == 8192 && Pow2(12) == 4096;
    hide Pow2; hide FilterStream; hide Before;
  }

  /** What the effect gives out for an input and the filter's value, by the type of the filter: half the difference for
      a band pass (2), half the sum for a band reject (3), the value for a high or low pass. */
  function Output(kind: int, x: short, y: short): (o: short)
    ensures kind == 2 ==> 2 * o <= x - y < 2 * o + 2
    ensures kind == 3 ==> 2 * o <= x + y < 2 * o + 2
    ensures kind != 2 && kind != 3 ==> o == y
  {
    if kind == BAND_PASS then (x - y) / 2 else if kind == BAND_REJECT then (x + y) / 2 else y
  }

  const BAND_PASS := 2
  const BAND_REJECT := 3

  /** The returned stream, for a[2] = 0 and a shift of 0 or 1: the limited sum of the difference equation, or, rounded
      down, half of what lacks from the input or half of both together. */
  lemma ReturnedEquation(b: seq<short>, a: seq<short>, shiftLeft: nat, kind: int, xs: seq<short>, t: nat)
    returns (s: int, v: int)
    requires |b| == |a| == 3 && a[2] == 0 && shiftLeft <= 1 && t < |xs|
    ensures var ys := FilterStream(b, a, shiftLeft, xs);
            s == b[2] * Before(xs, t, 0) / 4 + b[1] * Before(xs, t, 1) / 4 + b[0] * Before(xs, t, 2) / 4
                 - a[1] * Before(ys, t, 1) / 4 - a[0] * Before(ys, t, 2) / 4
    ensures v == (if s > 0x7FF_FFFF then 0x7FF_FFFF else if s < -0x800_0000 then -0x800_0000 else s)
                 / (if shiftLeft == 0 then 8192 else 4096)
    ensures var os := Outputs(kind, xs, FilterStream(b, a, shiftLeft, xs));
            && |os| == |xs|
            && (kind == 2 ==> 0 <= Before(xs, t, 0) - v - 2 * Before(os, t, 0) <= 1)
            && (kind == 3 ==> 0 <= Before(xs, t, 0) + v - 2 * Before(os, t, 0) <= 1)
            && (kind != 2 && kind != 3 ==> os[t] == v)
  {
    FilterUncut(b, a, shiftLeft, xs, t);
    var ys := FilterStream(b, a, shiftLeft, xs);
    s := b[2] * Before(xs, t, 0) / 4 + b[1] * Before(xs, t, 1) / 4 + b[0] * Before(xs, t, 2) / 4
      - a[1] * Before(ys, t, 1) / 4 - a[0] * Before(ys, t, 2) / 4;
    v := ys[t];
    assert Outputs(kind, xs, ys)[t] == Output(kind, xs[t], ys[t]);
    hide Outputs; hide FilterStream; hide Output;
  }

  /** The loop goes through the inputs from the oldest to the newest. */
  lemma InputOrder(row: seq<short>, pnt: nat, xs: seq<short>, i: nat)
    requires Last3(row, pnt, xs) && i < 3
    ensures row[(pnt + i + 1) % 3] == Back(xs, 2 - i)
  {
    hide Back;
  }

  /** And through the outputs from the one before last, with that of three steps before at the end. */
  lemma OutputOrder(row: seq<short>, pnt: nat, ys: seq<short>, i: nat)
    requires pnt < 3 && Last3(row, (pnt + 2) % 3, ys) && i < 3
    ensures row[(pnt + i + 1) % 3] == Back(ys, (4 - i) % 3)
  {
    hide Back;
  }

  /** What round `i` of the loop takes from the two buffers. */
  lemma Taken(xRow: seq<short>, yRow: seq<short>, pnt: nat, xs: seq<short>, ys: seq<short>, i: nat)
    requires pnt < 3 && Last3(xRow, pnt, xs) && Last3(yRow, (pnt + 2) % 3, ys) && i < 3
    ensures |xRow| == |yRow| == 3
    ensures xRow[(pnt + i + 1) % 3] == [Back(xs, 2), Back(xs, 1), Back(xs, 0)][i]
    ensures yRow[(pnt + i + 1) % 3] == [Back(ys, 1), Back(ys, 0), Back(ys, 2)][i]
  {
    InputOrder(xRow, pnt, xs, i);
    OutputOrder(yRow, pnt, ys, i);
    hide Back;
  }

  lemma Behind(pnt: nat)
    requires pnt < 3
    ensures ((pnt + 2) % 3 + 1) % 3 == pnt
  {
  }

  /** One channel of filterIIR_2nd: the current input stands at `pnt`, the output of three steps before is replaced. */
  method FilterIir2nd(xBuf: array<short>, yBuf: array<short>, pnt: nat, b: seq<short>, a: seq<short>, shiftLeft: nat,
                      ghost xs: seq<short>, ghost ys: seq<short>)
    requires |b| == |a| == 3 && shiftLeft <= 13 && xBuf != yBuf && pnt < 3
    requires Last3(xBuf[..], pnt, xs) && Last3(yBuf[..], (pnt + 2) % 3, ys)
    modifies yBuf
    ensures yBuf[pnt] == FilterOut(b, a, shiftLeft, xs, ys) && Last3(yBuf[..], pnt, ys + [yBuf[pnt]])
  {
    ghost var x: seq<short>, y: seq<short> := [Back(xs, 2), Back(xs, 1), Back(xs, 0)],
        [Back(ys, 1), Back(ys, 0), Back(ys, 2)];
    ghost var xRow, yRow := xBuf[..], yBuf[..];
    Push3(yRow, (pnt + 2) % 3, ys, FilterOut(b, a, shiftLeft, xs, ys));
    Behind(pnt);
    hide Tap; hide Back; hide Last3; hide Pow2; hide Partial; hide Int16; hide Int32;
    var accum := 0;
    var i := 0;
    PartialStart(b, a, x, y);
    while i < 3
      invariant 0 <= i <= 3 && accum == Partial(b, a, x, y, i) && yBuf[..] == yRow
    {
      var p := (pnt + i + 1) % 3;
      Taken(xRow, yRow, pnt, xs, ys, i);
      assert xBuf[p] == xRow[p] == x[i] && yBuf[p] == yRow[p] == y[i];
      PartialStep(b, a, x, y, i);
      accum := Int32(accum + Tap(b[i], xBuf[p]));
      accum := Int32(accum - Tap(a[i], yBuf[p]));
      i := i + 1;
    }
    if accum > ACCUM_MAX {
      accum := ACCUM_MAX;
    } else if accum < ACCUM_MIN {
      accum := ACCUM_MIN;
    }
    yBuf[pnt] := Int16(accum / Pow2(13 - shiftLeft));
    assert yBuf[..] == yRow[pnt := yBuf[pnt]];
  }

  lemma PartialStart(b: seq<short>, a: seq<short>, x: seq<short>, y: seq<short>)
    requires |b| == |a| == |x| == |y| == 3
    ensures Partial(b, a, x, y, 0) == 0
  {
  }

  /** No sum on the way overflows. */
  lemma PartialStep(b: seq<short>, a: seq<short>, x: seq<short>, y: seq<short>, i: nat)
    requires |b| == |a| == |x| == |y| == 3 && i < 3
    ensures var s, t := Partial(b, a, x, y, i) + Tap(b[i], x[i]), Tap(a[i], y[i]);
            Int32(s) == s && Int32(s - t) == s - t == Partial(b, a, x, y, i + 1)
  {
    PartialBound(b, a, x, y, i);
    TapBound(b[i], x[i]);
    TapBound(a[i], y[i]);
    hide Tap; hide Int32;
  }

  function Outputs(kind: int, xs: seq<short>, ys: seq<short>): (os: seq<short>)
  {
    seq(if |xs| <= |ys| then |xs| else |ys|, t requires 0 <= t < |xs| && t < |ys| => Output(kind, xs[t], ys[t]))
  }

  lemma OutputsMore(kind: int, xs: seq<short>, ys: seq<short>, x: short, y: short)
    requires |xs| == |ys|
    ensures Outputs(kind, xs + [x], ys + [y]) == Outputs(kind, xs, ys) + [Output(kind, x, y)]
  {
  }

  /** What one channel was given, what its filter computed, and what was returned. */
  predicate Consistent(b: seq<short>, a: seq<short>, shiftLeft: nat, kind: int, xs: seq<short>, ys: seq<short>,
      os: seq<short>)
    requires |b| == |a| == 3 && shiftLeft <= 13
  {
    ys == FilterStream(b, a, shiftLeft, xs) && os == Outputs(kind, xs, ys)
  }

  lemma ConsistentMore(b: seq<short>, a: seq<short>, shiftLeft: nat, kind: int,
                       xs: seq<short>, ys: seq<short>, os: seq<short>, x: short, y: short)
    requires |b| == |a| == 3 && shiftLeft <= 13 && Consistent(b, a, shiftLeft, kind, xs, ys, os)
    requires y == FilterOut(b, a, shiftLeft, xs + [x], ys)
    ensures Consistent(b, a, shiftLeft, kind, xs + [x], ys + [y], os + [Output(kind, x, y)])
  {
    FilterMore(b, a, shiftLeft, xs, x);
    OutputsMore(kind, xs, ys, x, y);
    hide FilterOut; hide Output; hide Outputs;
  }

  class IirFilter {
    const b: seq<short>
    const a: seq<short>
    const shiftLeft: nat
    const kind: int
    const xLeft: array<short>
    const xRight: array<short>
    const yLeft: array<short>
    const yRight: array<short>
    var pnt: nat
    // What each channel was given, what the filter computed, what was returned.
    ghost var heard0: seq<short>
    ghost var heard1: seq<short>
    ghost var filtered0: seq<short>
    ghost var filtered1: seq<short>
    ghost var said0: seq<short>
    ghost var said1: seq<short>

    predicate Settings()
    {
      |b| == |a| == 3 && shiftLeft <= 13
    }

    ghost predicate Buffers()
      reads this, xLeft, xRight, yLeft, yRight
    {
      && xLeft != yLeft && xLeft != yRight && xRight != yLeft && xRight != yRight && xLeft != xRight && yLeft != yRight
      && pnt < 3
      && Last3(xLeft[..], pnt, heard0) && Last3(xRight[..], pnt, heard1)
      && Last3(yLeft[..], pnt, filtered0) && Last3(yRight[..], pnt, filtered1)
    }

    ghost predicate Streams()
      requires Settings()
      reads this
    {
      && Consistent(b, a, shiftLeft, kind, heard0, filtered0, said0)
      && Consistent(b, a, shiftLeft, kind, heard1, filtered1, said1)
    }

    ghost predicate Valid()
      reads this, xLeft, xRight, yLeft, yRight
    {
      Settings() && Buffers() && Streams()
    }

    constructor (b: seq<short>, a: seq<short>, shiftLeft: nat, kind: int)
      requires |b| == |a| == 3 && shiftLeft <= 13
      ensures Valid() && fresh(xLeft) && fresh(xRight) && fresh(yLeft) && fresh(yRight) && heard0 == heard1 == []
      ensures this.b == b && this.a == a && this.shiftLeft == shiftLeft && this.kind == kind
    {
      this.b, this.a, this.shiftLeft, this.kind := b, a, shiftLeft, kind;
      xLeft := new short[3](_ => 0);
      xRight := new short[3](_ => 0);
      yLeft := new short[3](_ => 0);
      yRight := new short[3](_ => 0);
      pnt := 2;
      heard0, heard1, filtered0, filtered1, said0, said1 := [], [], [], [], [], [];
    }

    /** One channel of one pass: the sample is stored, the filter runs, the kind of filter decides on the output. */
    method OneChannel(xBuf: array<short>, yBuf: array<short>, p: nat, x: short, ghost xs: seq<short>,
        ghost ys: seq<short>)
      returns (o: short, ghost y: short)
      requires Settings() && xBuf != yBuf && p < 3
      requires Last3(xBuf[..], p, xs) && Last3(yBuf[..], p, ys)
      modifies xBuf, yBuf
      ensures y == FilterOut(b, a, shiftLeft, xs + [x], ys) && o == Output(kind, x, y)
      ensures Last3(xBuf[..], (p + 1) % 3, xs + [x]) && Last3(yBuf[..], (p + 1) % 3, ys + [y])
    {
      var q := (p + 1) % 3;
      assert (q + 2) % 3 == p;
      ghost var row := xBuf[..];
      Push3(row, p, xs, x);
      assert |row| == 3;
      hide Last3; hide FilterOut;
      xBuf[q] := x;
      assert xBuf[..] == row[q := x];
      FilterIir2nd(xBuf, yBuf, q, b, a, shiftLeft, xs + [x], ys);
      y := yBuf[q];
      var accum: int;
      if kind == BAND_PASS {
        accum := Int32(x - yBuf[q]) / 2;
      } else if kind == BAND_REJECT {
        accum := Int32(x + yBuf[q]) / 2;
      } else {
        accum := yBuf[q];
      }
      o := Int16(accum);
    }

    /** One pass of the loop in audio_filter. */
    method Frame(l: short, r: short) returns (yl: short, yr: short)
      requires Valid()
      modifies this, xLeft, xRight, yLeft, yRight
      ensures Valid() && heard0 == old(heard0) + [l] && heard1 == old(heard1) + [r]
      ensures said0 == old(said0) + [yl] && said1 == old(said1) + [yr]
    {
      hide Last3; hide FilterOut; hide Output; hide Consistent;
      ghost var y0, y1;
      yl, y0 := OneChannel(xLeft, yLeft, pnt, l, heard0, filtered0);
      yr, y1 := OneChannel(xRight, yRight, pnt, r, heard1, filtered1);
      pnt := (pnt + 1) % 3;
      ConsistentMore(b, a, shiftLeft, kind, heard0, filtered0, said0, l, y0);
      ConsistentMore(b, a, shiftLeft, kind, heard1, filtered1, said1, r, y1);
      heard0, heard1, filtered0, filtered1 := heard0 + [l], heard1 + [r], filtered0 + [y0], filtered1 + [y1];
      said0, said1 := said0 + [yl], said1 + [yr];
    }

    /** What each channel has returned so far is what the equations give for all it was given. */
    lemma Returned()
      requires Valid()
      ensures said0 == Outputs(kind, heard0, FilterStream(b, a, shiftLeft, heard0))
          && said1 == Outputs(kind, heard1, FilterStream(b, a, shiftLeft, heard1))
    {
    }

    /** audio_filter: one block. */
    method Process(x: array<short>, y: array<short>)
      requires Valid() && x.Length == y.Length == 200 && x != y
      requires x != xLeft && x != xRight && x != yLeft && x != yRight
      requires y != xLeft && y != xRight && y != yLeft && y != yRight
      modifies this, xLeft, xRight, yLeft, yRight, y
      ensures Valid()
      ensures said0 == Outputs(kind, heard0, FilterStream(b, a, shiftLeft, heard0))
          && said1 == Outputs(kind, heard1, FilterStream(b, a, shiftLeft, heard1))
      ensures heard0 == old(heard0) + Channel(x[..], 0, 100) && heard1 == old(heard1) + Channel(x[..], 1, 100)
      ensures said0 == old(said0) + Channel(y[..], 0, 100) && said1 == old(said1) + Channel(y[..], 1, 100)
    {
      hide Valid;
      ghost var block := x[..];
      var i := 0;
      while i < LOOPS
        invariant 0 <= i <= LOOPS && Valid() && x[..] == block
        invariant heard0 == old(heard0) + Channel(block, 0, i) && heard1 == old(heard1) + Channel(block, 1, i)
        invariant said0 == old(said0) + Channel(y[..], 0, i) && said1 == old(said1) + Channel(y[..], 1, i)
      {
        ghost var was := y[..];
        ChannelMore(block, 0, i);
        ChannelMore(block, 1, i);
        var yl, yr := Frame(x[2 * i], x[2 * i + 1]);
        ChannelWrite(was, i, yl, yr);
        hide Channel;
        y[2 * i] := yl;
        y[2 * i + 1] := yr;
        assert y[..] == was[2 * i := yl][2 * i + 1 := yr];
        i := i + 1;
      }
      Returned();
    }
  }

  // ----- Vibrato ------------------------------------------------------------------------------------------------

  const VIBRATO_L: nat := 200

  /** The delays and fractions over one period: the sample after the delayed one is in the buffer too. */
  predicate Wave(sin: seq<nat>, frac: seq<short>)
  {
    && 0 < |sin| == |frac| && (forall k :: 0 <= k < |sin| ==> sin[k] <= VIBRATO_L - 2)
    && (forall k :: 0 <= k < |frac| ==> 0 <= frac[k])
  }

  /** Between two samples: `f` of 32767 parts of the first. */
  function Blend(x: short, y: short, f: short): int
  {
    (x * f + y * (SHORT_MAX - f)) / 0x8000
  }

  /** The mixed value fits the output; so does each product, and their sum fits 32 bits. */
  lemma BlendBound(x: short, y: short, f: short)
    requires 0 <= f
    ensures INT_MIN <= x * f <= INT_MAX && INT_MIN <= x * f + y * (SHORT_MAX - f) <= INT_MAX
    ensures SHORT_MIN <= Blend(x, y, f) <= SHORT_MAX
  {
    ScaleBound(x, f);
    ScaleBound(y, SHORT_MAX - f);
    var a, b := x * f, y * (SHORT_MAX - f);
    assert -0x8000 * SHORT_MAX <= a + b <= SHORT_MAX * SHORT_MAX;
  }

  lemma ScaleBound(x: short, f: int)
    requires 0 <= f
    ensures -0x8000 * f <= x * f <= SHORT_MAX * f
  {
    MulBound(x + 0x8000, f, 0xFFFF, f);
    assert (x + 0x8000) * f == x * f + 0x8000 * f;
    assert 0xFFFF * f == SHORT_MAX * f + 0x8000 * f;
  }

  /** The vibrato output after the stream `xs`: a mix of two neighbouring samples, at a delay that varies with time. */
  function VibratoOut(sin: seq<nat>, frac: seq<short>, xs: seq<short>): short
    requires Wave(sin, frac) && xs != []
  {
    var k := (|xs| - 1) % |sin|;
    var x, y := Back(xs, sin[k] + 1), Back(xs, sin[k]);
    BlendBound(x, y, frac[k]);
    Blend(x, y, frac[k])
  }

  function VibratoStream(sin: seq<nat>, frac: seq<short>, xs: seq<short>): (ys: seq<short>)
    requires Wave(sin, frac)
    ensures |ys| == |xs|
  {
    seq(|xs|, t requires 0 <= t < |xs| => VibratoOut(sin, frac, xs[..t + 1]))
  }

  lemma VibratoMore(sin: seq<nat>, frac: seq<short>, xs: seq<short>, x: short)
    requires Wave(sin, frac)
    ensures VibratoStream(sin, frac, xs + [x]) == VibratoStream(sin, frac, xs) + [VibratoOut(sin, frac, xs + [x])]
  {
    hide VibratoOut; hide Wave;
    var more := xs + [x];
    forall t | 0 <= t < |xs| ensures VibratoStream(sin, frac, more)[t] == VibratoStream(sin, frac, xs)[t] {
      assert more[..t + 1] == xs[..t + 1];
    }
    assert (xs + [x])[..|xs| + 1] == xs + [x];
  }

  /** The difference equation of the vibrato: the sample at the delay of that time and the one before it, mixed in 32767
      parts, with silence before the beginning. */
  lemma VibratoEquation(sin: seq<nat>, frac: seq<short>, xs: seq<short>, t: nat)
    requires Wave(sin, frac) && t < |xs|
    ensures var d, f := sin[t % |sin|], frac[t % |sin|];
            VibratoStream(sin, frac, xs)[t]
            == (Before(xs, t, d + 1) * f + Before(xs, t, d) * (32767 - f)) / 32768
  {
    var k, past := t % |sin|, xs[..t + 1];
    assert VibratoStream(sin, frac, xs)[t] == VibratoOut(sin, frac, past) by { hide VibratoOut; hide Wave; }
    BackBefore(xs, t, sin[k] + 1);
    BackBefore(xs, t, sin[k]);
    BlendIs(Back(past, sin[k] + 1), Back(past, sin[k]), frac[k]);
    hide Blend; hide VibratoStream; hide Back;
  }

  lemma BlendIs(x: short, y: short, f: short)
    ensures Blend(x, y, f) == (x * f + y * (32767 - f)) / 32768
  {
  }

  class Vibrato {
    const sin: seq<nat>
    const frac: seq<short>
    const left: array<short>
    const right: array<short>
    var pnt: nat
    var vPnt: nat
    ghost var heard0: seq<short>
    ghost var heard1: seq<short>
    ghost var said0: seq<short>
    ghost var said1: seq<short>

    ghost predicate Buffers()
      reads this, left, right
    {
      && left != right && left.Length == right.Length == VIBRATO_L && pnt < VIBRATO_L
      && Ring(left[..], Up(VIBRATO_L, pnt), heard0) && Ring(right[..], Up(VIBRATO_L, pnt), heard1)
    }

    ghost predicate Valid()
      reads this, left, right
    {
      && Wave(sin, frac) && Buffers() && |heard0| == |heard1| && vPnt == |heard0| % |sin|
      && said0 == VibratoStream(sin, frac, heard0) && said1 == VibratoStream(sin, frac, heard1)
    }

    constructor (sin: seq<nat>, frac: seq<short>)
      requires Wave(sin, frac)
      ensures Valid() && fresh(left) && fresh(right) && heard0 == heard1 == [] && this.sin == sin && this.frac == frac
    {
      this.sin, this.frac, pnt, vPnt := sin, frac, VIBRATO_L - 1, 0;
      left := new short[VIBRATO_L](_ => 0);
      right := new short[VIBRATO_L](_ => 0);
      heard0, heard1, said0, said1 := [], [], [], [];
    }

    /** One channel of one pass. */
    method Mix(buf: array<short>, x: short, del: nat, f: short, ghost xs: seq<short>) returns (y: short)
      requires buf.Length == VIBRATO_L && pnt < VIBRATO_L && Ring(buf[..], Up(VIBRATO_L, pnt), xs)
      requires del <= VIBRATO_L - 2 && 0 <= f
      modifies buf
      ensures Ring(buf[..], pnt, xs + [x]) && y == Blend(Back(xs + [x], del + 1), Back(xs + [x], del), f)
    {
      WriteSample(buf, pnt, x, xs);
      var audioPnt, nextPnt := (pnt + del) % VIBRATO_L, (pnt + del + 1) % VIBRATO_L;
      assert buf[audioPnt] == buf[..][Slot(VIBRATO_L, pnt, del)]
        && buf[nextPnt] == buf[..][Slot(VIBRATO_L, pnt, del + 1)];
      assert buf[audioPnt] == Back(xs + [x], del) && buf[nextPnt] == Back(xs + [x], del + 1);
      BlendBound(buf[nextPnt], buf[audioPnt], f);
      hide Ring; hide Back; hide Slot; hide Up; hide Int32;
      var accum := Int32(buf[nextPnt] * f);
      accum := Int32(accum + buf[audioPnt] * (SHORT_MAX - f));
      y := Int16(accum / 0x8000);
    }

    /** One pass of the loop in audio_vibrato. */
    method Frame(l: short, r: short) returns (yl: short, yr: short)
      requires Valid()
      modifies this, left, right
      ensures Valid() && heard0 == old(heard0) + [l] && heard1 == old(heard1) + [r]
      ensures said0 == old(said0) + [yl] && said1 == old(said1) + [yr]
    {
      VibratoMore(sin, frac, heard0, l);
      VibratoMore(sin, frac, heard1, r);
      UpDown(VIBRATO_L, pnt);
      ModStep(|heard0|, |sin|);
      hide Ring; hide Blend; hide VibratoStream; hide Up; hide Back;
      var del, f := sin[vPnt], frac[vPnt];
      vPnt := (vPnt + 1) % |sin|;
      yl := Mix(left, l, del, f, heard0);
      yr := Mix(right, r, del, f, heard1);
      heard0, heard1, said0, said1 := heard0 + [l], heard1 + [r], said0 + [yl], said1 + [yr];
      if pnt == 0 {
        pnt := VIBRATO_L - 1;
      } else {
        pnt := pnt - 1;
      }
    }

    /** What each channel has returned so far is what the equations give for all it was given. */
    lemma Returned()
      requires Valid()
      ensures said0 == VibratoStream(sin, frac, heard0) && said1 == VibratoStream(sin, frac, heard1)
    {
    }

    /** audio_vibrato: one block. */
    method Process(x: array<short>, y: array<short>)
      requires Valid() && x.Length == y.Length == 200
      requires x != y && x != left && x != right && y != left && y != right
      modifies this, left, right, y
      ensures Valid()
      ensures said0 == VibratoStream(sin, frac, heard0) && said1 == VibratoStream(sin, frac, heard1)
      ensures heard0 == old(heard0) + Channel(x[..], 0, 100) && heard1 == old(heard1) + Channel(x[..], 1, 100)
      ensures said0 == old(said0) + Channel(y[..], 0, 100) && said1 == old(said1) + Channel(y[..], 1, 100)
    {
      hide Valid;
      ghost var block := x[..];
      var i := 0;
      while i < LOOPS
        invariant 0 <= i <= LOOPS && Valid() && x[..] == block
        invariant heard0 == old(heard0) + Channel(block, 0, i) && heard1 == old(heard1) + Channel(block, 1, i)
        invariant said0 == old(said0) + Channel(y[..], 0, i) && said1 == old(said1) + Channel(y[..], 1, i)
      {
        ghost var was := y[..];
        ChannelMore(block, 0, i);
        ChannelMore(block, 1, i);
        var yl, yr := Frame(x[2 * i], x[2 * i + 1]);
        ChannelWrite(was, i, yl, yr);
        hide Channel;
        y[2 * i] := yl;
        y[2 * i + 1] := yr;
        assert y[..] == was[2 * i := yl][2 * i + 1 := yr];
        i := i + 1;
      }
      Returned();
    }
  }
}
