/** The host's side of the compressed line (patmos/tools/java/src/patserdow/CompressionOutputStream.java):
    tokens, the wire format, and the proof that the boot loader's decoder inverts it. */
module Encoder {
  import opened Bytes
  import opened Lzss
  import opened Seqs

  type index10 = x: int | 0 <= x < N
  type code6 = x: int | 0 <= x < 64

  /** One unit of code: a byte as it is, or a ring index and a length less three. */
  datatype Token = Literal(c: byte) | Match(index: index10, code: code6)

  /** The bytes of the text one token stands for, after the history `h`. */
  function Length(t: Token): (n: nat)
    ensures 1 <= n <= F
  {
    if t.Literal? then 1 else t.code + 3
  }

  /** `h` followed by what the token stands for. */
  function Apply(h: seq<byte>, t: Token): (r: seq<byte>)
    requires |h| >= N
    ensures h <= r && |r| == |h| + Length(t)
  {
    match t
    case Literal(c) => h + [c]
    case Match(index, _) => Copy(h, index, Length(t))
  }

  function Expand(h: seq<byte>, ts: seq<Token>): (r: seq<byte>)
    requires |h| >= N
    ensures h <= r
    decreases ts
  {
    if ts == [] then h else Expand(Apply(h, ts[0]), ts[1..])
  }

  // ----- The wire format -------------------------------------------------------------------

  function Unit(t: Token): (u: seq<byte>)
    ensures 1 <= |u| <= 2
  {
    match t
    case Literal(c) => [c]
    case Match(index, code) => [index % 256, index / 256 * 64 + code]
  }

  function Units(ts: seq<Token>): seq<byte>
  {
    if ts == [] then [] else Unit(ts[0]) + Units(ts[1..])
  }

  function LiteralFlags(ts: seq<Token>): seq<bool>
  {
    seq(|ts|, k requires 0 <= k < |ts| => ts[k].Literal?)
  }

  /** Bit k announces whether unit k is a literal. */
  function FlagByte(ts: seq<Token>): byte
    requires |ts| <= 8
  {
    FlagRange(ts);
    Value(LiteralFlags(ts))
  }

  /** Groups of up to eight units, each group behind its flag byte. */
  function Serialise(ts: seq<Token>): seq<byte>
    decreases |ts|
  {
    if ts == [] then []
    else
      var m := if |ts| < 8 then |ts| else 8;
      Group(ts[..m]) + Serialise(ts[m..])
  }

  function Group(ts: seq<Token>): seq<byte>
    requires |ts| <= 8
  {
    [FlagByte(ts)] + Units(ts)
  }

  // ----- The decoder inverts the format ------------------------------------------------------

  lemma LiteralDecodes(h: seq<byte>, c: byte, q: seq<bool>, input: seq<byte>)
    requires |h| >= N
    ensures Decode(h, [true] + q, [c] + input) == [c] + Decode(h + [c], q, input)
  {
    assert ([true] + q)[1..] == q && ([c] + input)[1..] == input;
  }

  lemma MatchDecodes(h: seq<byte>, lo: byte, hi: byte, i: nat, n: nat, q: seq<bool>, input: seq<byte>)
    requires |h| >= N && i == MatchIndex(lo, hi) as nat && n == MatchLength(hi)
    ensures Decode(h, [false] + q, [lo, hi] + input) == Copy(h, i, n)[|h|..] + Decode(Copy(h, i, n), q, input)
  {
    assert ([false] + q)[1..] == q && ([lo, hi] + input)[2..] == input;
  }

  lemma TokenDecodes(h: seq<byte>, t: Token, q: seq<bool>, input: seq<byte>)
    requires |h| >= N
    ensures Decode(h, [t.Literal?] + q, Unit(t) + input) == Apply(h, t)[|h|..] + Decode(Apply(h, t), q, input)
  {
    match t
    case Literal(c) =>
      LiteralDecodes(h, c, q, input);
    case Match(index, code) =>
      var lo, hi := Unit(t)[0], Unit(t)[1];
      MatchDecodes(h, lo, hi, index, Length(t), q, input);
  }

  lemma FirstToken(ts: seq<Token>, q: seq<bool>, rest: seq<byte>)
    requires ts != []
    ensures LiteralFlags(ts) + q == [ts[0].Literal?] + (LiteralFlags(ts[1..]) + q)
    ensures Units(ts) + rest == Unit(ts[0]) + (Units(ts[1..]) + rest)
  {
    assert LiteralFlags(ts) == [ts[0].Literal?] + LiteralFlags(ts[1..]);
  }

  lemma {:induction false} UnitsDecode(h: seq<byte>, ts: seq<Token>, q: seq<bool>, rest: seq<byte>)
    requires |h| >= N
    ensures Decode(h, LiteralFlags(ts) + q, Units(ts) + rest)
            == Expand(h, ts)[|h|..] + Decode(Expand(h, ts), q, rest)
    decreases ts
  {
    if ts == [] {
      assert LiteralFlags(ts) + q == q && Units(ts) + rest == rest;
    } else {
      var t, ts' := ts[0], ts[1..];
      var input, flags := Units(ts') + rest, LiteralFlags(ts') + q;
      var h' := Apply(h, t);
      UnitsDecode(h', ts', q, rest);
      FirstToken(ts, q, rest);
      TokenDecodes(h, t, flags, input);
      Suffixes(h, h', Expand(h', ts'), Decode(Expand(h', ts'), q, rest));
    }
  }

  // ----- Flag bytes --------------------------------------------------------------------------

  function NoFlags(n: nat): seq<bool>
  {
    seq(n, _ => false)
  }

  lemma FlagRange(ts: seq<Token>)
    requires |ts| <= 8
    ensures Value(LiteralFlags(ts)) < 256
  {
    ByteRange();
    LowBitsOfValue(LiteralFlags(ts));
    Pow2Monotone(|ts|, 8);
  }

  lemma {:induction false} ValuePadded(q: seq<bool>, n: nat)
    ensures Value(q + NoFlags(n)) == Value(q)
  {
    if q == [] {
      assert q + NoFlags(n) == NoFlags(n);
      if n > 0 {
        assert NoFlags(n)[1..] == [] + NoFlags(n - 1);
        ValuePadded([], n - 1);
      }
    } else {
      TailConcat(q, NoFlags(n));
      ValuePadded(q[1..], n);
    }
  }

  /** The decoder reads a flag byte as the encoder meant it; unused flags are clear. */
  lemma GroupFlags(ts: seq<Token>)
    requires |ts| <= 8
    ensures Bits(FlagByte(ts)) == LiteralFlags(ts) + NoFlags(8 - |ts|)
  {
    var q := LiteralFlags(ts) + NoFlags(8 - |ts|);
    ValuePadded(LiteralFlags(ts), 8 - |ts|);
    LowBitsOfValue(q);
  }

  // ----- The round trip ------------------------------------------------------------------------

  lemma DecodeLoad(h: seq<byte>, f: byte, input: seq<byte>)
    requires |h| >= N
    ensures Decode(h, [], [f] + input) == Decode(h, Bits(f), input)
  {
    assert ([f] + input)[1..] == input;
  }

  lemma GroupDecodes(h: seq<byte>, ts: seq<Token>, rest: seq<byte>)
    requires |h| >= N && 1 <= |ts| <= 8 && (|ts| < 8 ==> rest == [])
    ensures Decode(h, [], Group(ts) + rest) == Expand(h, ts)[|h|..] + Decode(Expand(h, ts), [], rest)
  {
    var f, q := FlagByte(ts), NoFlags(8 - |ts|);
    GroupFlags(ts);
    UnitsDecode(h, ts, q, rest);
    ConsAssoc(f, Units(ts), rest);
    DecodeLoad(h, f, Units(ts) + rest);
    NoMoreInput(Expand(h, ts), q, rest);
  }

  lemma NoMoreInput(h: seq<byte>, q: seq<bool>, rest: seq<byte>)
    requires |h| >= N && (q == [] || rest == [])
    ensures Decode(h, q, rest) == Decode(h, [], rest)
  {
  }

  /** Round trip: the boot loader decodes a serialised token list to exactly what it stands for. */
  lemma {:induction false} DecodeSerialised(h: seq<byte>, ts: seq<Token>)
    requires |h| >= N
    ensures Decode(h, [], Serialise(ts)) == Expand(h, ts)[|h|..]
    decreases |ts|
  {
    if ts != [] {
      var m := if |ts| < 8 then |ts| else 8;
      var a, b := ts[..m], ts[m..];
      var g, rest := Expand(h, a), Serialise(b);
      DecodeSerialised(g, b);
      SplitAt(ts, m);
      GroupThenRest(h, a, b, g, Expand(g, b), rest);
    }
  }

  lemma GroupThenRest(h: seq<byte>, a: seq<Token>, b: seq<Token>, g: seq<byte>, e: seq<byte>, rest: seq<byte>)
    requires |h| >= N && 1 <= |a| <= 8 && (|a| < 8 ==> rest == [])
    requires g == Expand(h, a) && e == Expand(g, b) && Decode(g, [], rest) == e[|g|..]
    ensures Decode(h, [], Group(a) + rest) == Expand(h, a + b)[|h|..]
  {
    GroupDecodes(h, a, rest);
    ExpandConcat(h, a, b);
    Suffixes(h, g, e, []);
  }

  lemma {:induction false} ExpandConcat(h: seq<byte>, a: seq<Token>, b: seq<Token>)
    requires |h| >= N
    ensures Expand(h, a + b) == Expand(Expand(h, a), b)
    decreases a
  {
    if a == [] {
      assert a + b == b;
    } else {
      ExpandConcat(Apply(h, a[0]), a[1..], b);
      TailConcat(a, b);
    }
  }

  // ----- What the encoder may send --------------------------------------------------------------

  /** A token stands for the next bytes of `text`: the next byte itself, or a stretch that really
      occurs in the window, at the ring index the match finder reported. */
  predicate Covers(h: seq<byte>, t: Token, text: seq<byte>)
    requires |h| >= N
  {
    && Length(t) <= |text|
    && match t
       case Literal(c) => c == text[0]
       case Match(index, _) =>
         var all, d := h + text, Distance(WritePos(|h| - N), index);
         forall k :: |h| <= k < |h| + Length(t) ==> all[k] == all[k - d]
  }

  /** The tokens cover the text one after the other. */
  predicate Tokenises(h: seq<byte>, ts: seq<Token>, text: seq<byte>)
    requires |h| >= N
    decreases ts
  {
    if ts == [] then text == []
    else
      && Covers(h, ts[0], text)
      && Tokenises(h + text[..Length(ts[0])], ts[1..], text[Length(ts[0])..])
  }

  /** A copy is determined by its first source byte and its distance. */
  lemma {:induction false} ExtendIs(h: seq<byte>, d: nat, n: nat, all: seq<byte>)
    requires 1 <= d <= |h| && |h| + n <= |all| && h == all[..|h|]
    requires forall k :: |h| <= k < |h| + n ==> all[k] == all[k - d]
    ensures Extend(h, d, n) == all[..|h| + n]
    decreases n
  {
    if n > 0 { ExtendIs(h, d, n - 1, all); }
  }

  lemma CoveredApplies(h: seq<byte>, t: Token, text: seq<byte>)
    requires |h| >= N && Covers(h, t, text)
    ensures Apply(h, t) == h + text[..Length(t)]
  {
    if t.Match? {
      var all := h + text;
      assert h == all[..|h|];
      ExtendIs(h, Distance(WritePos(|h| - N), t.index), Length(t), all);
      assert all[..|h| + Length(t)] == h + text[..Length(t)];
    }
  }

  /** Any encoder that only reports true matches stands for its text, whatever matches it picks. */
  lemma {:induction false} TokenisesExpands(h: seq<byte>, ts: seq<Token>, text: seq<byte>)
    requires |h| >= N && Tokenises(h, ts, text)
    ensures Expand(h, ts) == h + text
    decreases ts
  {
    if ts == [] {
      assert h + text == h;
    } else {
      var n := Length(ts[0]);
      CoveredApplies(h, ts[0], text);
      TokenisesExpands(h + text[..n], ts[1..], text[n..]);
      MoveOver(h, text, n);
    }
  }

  /** Every text can be sent: at worst byte for byte. */
  lemma {:induction false} LiteralsTokenise(h: seq<byte>, text: seq<byte>) returns (ts: seq<Token>)
    requires |h| >= N
    ensures Tokenises(h, ts, text)
    decreases text
  {
    if text == [] {
      ts := [];
    } else {
      var rest := LiteralsTokenise(h + text[..1], text[1..]);
      ts := [Literal(text[0])] + rest;
      assert ts[1..] == rest;
    }
  }

  // ----- The encoder's code buffer ----------------------------------------------------------------

  lemma {:induction false} ValueAppend(q: seq<bool>, b: bool)
    ensures Value(q + [b]) == Value(q) + if b then Pow2(|q|) else 0
  {
    if q == [] {
      assert q + [b] == [b] && [b][1..] == [];
    } else {
      TailConcat(q, [b]);
      ValueAppend(q[1..], b);
    }
  }

  /** The mask is one bit, moved left once per pending unit; adding it sets that unit's flag. */
  lemma FlagByteAppend(ts: seq<Token>, t: Token)
    requires |ts| < 8
    ensures FlagByte(ts + [t]) == FlagByte(ts) + if t.Literal? then Pow2(|ts|) else 0
  {
    ValueAppend(LiteralFlags(ts), t.Literal?);
    assert LiteralFlags(ts + [t]) == LiteralFlags(ts) + [t.Literal?];
  }

  /** The mask leaves the byte with the eighth unit. */
  lemma MaskRange(n: nat)
    requires n <= 8
    ensures Pow2(n) < 256 <==> n < 8
  {
    ByteRange();
    if n < 8 {
      Pow2Monotone(n, 7);
      assert Pow2(8) == 2 * Pow2(7);
    }
  }

  lemma {:induction false} UnitsAppend(ts: seq<Token>, t: Token)
    ensures Units(ts + [t]) == Units(ts) + Unit(t)
  {
    if ts == [] {
      assert (ts + [t])[1..] == [];
    } else {
      TailConcat(ts, [t]);
      UnitsAppend(ts[1..], t);
    }
  }

  lemma {:induction false} UnitsSize(ts: seq<Token>)
    ensures |ts| <= |Units(ts)| <= 2 * |ts|
  {
    if ts != [] { UnitsSize(ts[1..]); }
  }

  lemma SerialiseOne(b: seq<Token>)
    requires 1 <= |b| <= 8
    ensures Serialise(b) == Group(b)
  {
    assert b[..|b|] == b && b[|b|..] == [];
  }

  lemma SerialiseMore(a: seq<Token>, g: seq<Token>, r: seq<Token>)
    requires |g| == 8 && a == g + r
    ensures Serialise(a) == Group(g) + Serialise(r)
  {
    assert a[..8] == g && a[8..] == r;
  }

  lemma {:induction false} SerialiseAppend(a: seq<Token>, b: seq<Token>)
    requires |a| % 8 == 0 && 1 <= |b| <= 8
    ensures Serialise(a + b) == Serialise(a) + Group(b)
    decreases |a|
  {
    if a == [] {
      assert a + b == b;
      SerialiseOne(b);
    } else {
      var g, r := a[..8], a[8..];
      SerialiseAppend(r, b);
      SplitAt(a, 8);
      ConcatAssoc(g, r, b);
      SerialiseMore(a, g, r);
      SerialiseMore(a + b, g, r + b);
      ConcatAssoc(Group(g), Serialise(r), Group(b));
    }
  }

  /** The unit encode sends: matches of at most two bytes are not worth a reference. */
  function UnitFor(current: byte, matchPosition: index10, matchLength: nat, currLen: nat): Token
    requires 1 <= currLen && matchLength <= F
  {
    var n := if matchLength > currLen then currLen else matchLength;
    if n <= 2 then Literal(current) else Match(matchPosition, n - 3)
  }

  /** Whatever the match finder reports truthfully is sent as a unit that covers the text. */
  lemma TrueMatchCovers(h: seq<byte>, text: seq<byte>, matchPosition: index10, matchLength: nat)
    requires |h| >= N && text != [] && matchLength <= F
    requires var all, d := h + text, Distance(WritePos(|h| - N), matchPosition);
             forall k :: |h| <= k < |h| + matchLength && k < |all| ==> all[k] == all[k - d]
    ensures Covers(h, UnitFor(text[0], matchPosition, matchLength, |text|), text)
  {
    var n := if matchLength > |text| then |text| else matchLength;
    assert n > 2 ==> Length(Match(matchPosition, n - 3)) == n;
  }

  // ----- The ring the match finder searches ------------------------------------------------------------------

  /** The first F - 1 bytes of the ring stand once more behind its end, to compare strings without wrapping. */
  predicate Mirrored(textBuf: seq<byte>)
  {
    |textBuf| == N + F - 1 && forall i :: 0 <= i < F - 1 ==> textBuf[N + i] == textBuf[i]
  }

  /** Ring position `q`, or the same one behind the end. */
  function InRing(q: nat): (p: nat)
    requires q < 2 * N
    ensures p < N
  {
    if q < N then q else q - N
  }

  /** The encoder's ring: the text read ahead from the present position on, and before it the last bytes sent. */
  predicate Window(textBuf: seq<byte>, h: seq<byte>, text: seq<byte>)
    requires |h| >= N
  {
    var w := WritePos(|h| - N);
    && Mirrored(textBuf) && |text| <= F
    && (forall i :: 0 <= i < |text| ==> textBuf[InRing(w + i)] == text[i])
    && (forall d :: 1 <= d <= N - |text| ==> textBuf[Back(w, d)] == h[|h| - d])
  }

  /** insertNode has compared `n` bytes from node `p` with those from the present position `w`, and found them equal. */
  predicate MatchFound(textBuf: seq<byte>, w: nat, p: nat, n: nat)
    requires Mirrored(textBuf) && w < N && p < N && n <= F
  {
    textBuf[p..p + n] == textBuf[w..w + n]
  }

  lemma MirroredAt(textBuf: seq<byte>, q: nat)
    requires Mirrored(textBuf) && q < N + F - 1
    ensures textBuf[q] == textBuf[InRing(q)]
  {
  }

  /** Byte `i` of a match is the byte `d` places before it, whether it lies in what was sent or in the text ahead. */
  lemma MatchedByte(textBuf: seq<byte>, h: seq<byte>, text: seq<byte>, p: nat, i: nat)
    requires |h| >= N && Window(textBuf, h, text) && p < N && i < |text|
    requires Distance(WritePos(|h| - N), p) <= N - |text|
    ensures var all, d := h + text, Distance(WritePos(|h| - N), p);
            textBuf[p + i] == all[|h| + i - d] && textBuf[WritePos(|h| - N) + i] == all[|h| + i]
  {
    var w := WritePos(|h| - N);
    var d := Distance(w, p);
    MirroredAt(textBuf, p + i);
    MirroredAt(textBuf, w + i);
    hide WritePos; hide Mirrored;
    if i < d {
      assert InRing(p + i) == Back(w, d - i);
    } else {
      assert InRing(p + i) == InRing(w + (i - d));
    }
  }

  lemma EqualBytes(textBuf: seq<byte>, w: nat, p: nat, n: nat, i: nat)
    requires Mirrored(textBuf) && w < N && p < N && n <= F && MatchFound(textBuf, w, p, n) && i < n
    ensures textBuf[p + i] == textBuf[w + i]
  {
    assert textBuf[p..p + n][i] == textBuf[w..w + n][i];
  }

  /** A match found in the ring, at a node that the text ahead has not overwritten, is sent as a unit that covers the
      text, however far past the end of the text the comparison went. */
  lemma FoundMatchCovers(textBuf: seq<byte>, h: seq<byte>, text: seq<byte>, p: index10, matchLength: nat)
    requires |h| >= N && text != [] && matchLength <= F && Window(textBuf, h, text)
    requires Distance(WritePos(|h| - N), p) <= N - |text|
    requires MatchFound(textBuf, WritePos(|h| - N), p, if matchLength < |text| then matchLength else |text|)
    ensures Covers(h, UnitFor(text[0], p, matchLength, |text|), text)
  {
    var all, w := h + text, WritePos(|h| - N);
    var d, n := Distance(w, p), if matchLength < |text| then matchLength else |text|;
    assert Mirrored(textBuf);
    hide WritePos; hide Window; hide UnitFor; hide Covers; hide Distance; hide Mirrored; hide MatchFound;
    forall k | |h| <= k < |h| + matchLength && k < |all| ensures all[k] == all[k - d] {
      var i := k - |h|;
      MatchedByte(textBuf, h, text, p, i);
      EqualBytes(textBuf, w, p, n, i);
    }
    TrueMatchCovers(h, text, p, matchLength);
  }

  /** What covers the text read ahead covers the whole text. */
  lemma CoversMore(h: seq<byte>, t: Token, text: seq<byte>, rest: seq<byte>)
    requires |h| >= N && Covers(h, t, text)
    ensures Covers(h, t, text + rest)
  {
    if t.Match? {
      var all, more, d := h + text, h + (text + rest), Distance(WritePos(|h| - N), t.index);
      forall k | |h| <= k < |h| + Length(t) ensures more[k] == more[k - d] {
        assert more[k] == all[k] && more[k - d] == all[k - d];
      }
    }
  }

  /** `codeMask <<= 1` on a Java byte. */
  function ShiftLeft(mask: byte): byte
  {
    2 * mask % 256
  }

  lemma ShiftLeftMask(mask: byte, n: nat)
    requires n < 8 && mask == Pow2(n)
    ensures ShiftLeft(mask) == if n < 7 then Pow2(n + 1) else 0
  {
    MaskRange(n + 1);
  }

  class CodeBuffer {
    const codeBuf: array<byte>
    var codeBufPtr: nat
    var codeMask: byte
    var out: seq<byte>             // what the line has been given
    ghost var sent: seq<Token>     // the tokens of complete groups
    ghost var pending: seq<Token>  // the tokens in codeBuf

    ghost predicate Valid()
      reads this, codeBuf
    {
      Holds() && |pending| < 8 && codeMask == Pow2(|pending|)
    }

    constructor ()
      ensures Valid() && sent == pending == [] && fresh(codeBuf)
    {
      codeBuf := new byte[17](_ => 0);
      codeBufPtr, codeMask, out, sent, pending := 1, 1, [], [], [];
    }

    /** codeBuf holds the group of the pending units. */
    ghost predicate Holds()
      reads this, codeBuf
    {
      && codeBuf.Length == 17 && |pending| <= 8 && |sent| % 8 == 0
      && codeBufPtr == 1 + |Units(pending)| <= 17
      && codeBuf[0] == FlagByte(pending) && codeBuf[1..codeBufPtr] == Units(pending)
      && out == Serialise(sent)
    }

    method SendGroup()
      requires Holds() && pending != []
      modifies this`codeBufPtr, this`codeMask, this`out, this`sent, this`pending, codeBuf
      ensures out == Serialise(sent) && sent == old(sent + pending) && pending == []
      ensures codeBufPtr == 1 && codeMask == 1 && codeBuf[0] == 0
    {
      SerialiseAppend(sent, pending);
      assert codeBuf[..codeBufPtr] == Group(pending);
      out := out + codeBuf[..codeBufPtr];
      codeBuf[0] := 0;
      codeBufPtr := 1;
      codeMask := 1;
      sent, pending := sent + pending, [];
    }

    /** flushBuffer */
    method Flush()
      requires Holds()
      modifies this`codeBufPtr, this`codeMask, this`out, this`sent, this`pending, codeBuf
      ensures out == Serialise(old(sent + pending)) && sent + pending == old(sent + pending)
      ensures |old(pending)| == 8 ==> Valid()
    {
      UnitsSize(pending);
      ghost var all := sent + pending;
      if codeBufPtr > 1 {
        SendGroup();
      }
      assert sent + [] == sent && all == sent;
    }

    /** Store one code byte. */
    method Store(c: byte)
      requires codeBuf.Length == 17 && 1 <= codeBufPtr < 17
      modifies this`codeBufPtr, codeBuf
      ensures codeBufPtr == old(codeBufPtr) + 1 && codeBuf[0] == old(codeBuf[0])
      ensures codeBuf[1..codeBufPtr] == old(codeBuf[1..codeBufPtr]) + [c]
    {
      codeBuf[codeBufPtr] := c;
      codeBufPtr := codeBufPtr + 1;
    }

    /** The middle part of encode: the unit enters the buffer, and a literal sets its flag. */
    method Add(t: Token)
      requires Valid()
      modifies this`codeBufPtr, this`pending, codeBuf
      ensures Holds() && |pending| >= 1 && pending == old(pending) + [t]
    {
      FlagByteAppend(pending, t);
      UnitsAppend(pending, t);
      UnitsSize(pending);
      var u := Unit(t);
      Store(u[0]);
      if t.Match? {
        Store(u[1]);
      }
      assert codeBuf[1..codeBufPtr] == Units(pending + [t]);
      SetFlag(t.Literal?);
      pending := pending + [t];
    }

    method SetFlag(literal: bool)
      requires codeBuf.Length == 17 && 1 <= codeBufPtr <= 17
      modifies codeBuf
      requires literal ==> codeBuf[0] + codeMask < 256
      ensures codeBuf[0] == old(if literal then codeBuf[0] + codeMask else codeBuf[0])
      ensures codeBuf[1..codeBufPtr] == old(codeBuf[1..codeBufPtr])
    {
      if literal {
        codeBuf[0] := codeBuf[0] + codeMask; // the mask's bit is still clear
      }
    }

    /** One unit and its flag enter the buffer, which goes out when its eight flags are used. */
    method Emit(t: Token)
      requires Valid()
      modifies this`codeBufPtr, this`codeMask, this`out, this`sent, this`pending, codeBuf
      ensures Valid() && sent + pending == old(sent + pending) + [t]
    {
      hide Pow2; hide Serialise; hide Units; hide FlagByte;
      ConcatAssoc(sent, pending, [t]);
      Add(t);
      ShiftLeftMask(codeMask, |pending| - 1);
      codeMask := ShiftLeft(codeMask);
      if codeMask == 0 {
        Flush();
      }
    }

    /** encode: `current` is the byte at the current position, `matchPosition` and `matchLength`
        what the match finder reported for it, `currLen` the length of the remaining text. The
        result is how far the text advances. */
    method Encode(current: byte, matchPosition: index10, matchLength: nat, currLen: nat) returns (lastMatchLength: nat)
      requires Valid() && 1 <= currLen && matchLength <= F
      modifies this`codeBufPtr, this`codeMask, this`out, this`sent, this`pending, codeBuf
      ensures Valid() && sent + pending == old(sent + pending) + [UnitFor(current, matchPosition, matchLength, currLen)]
      ensures lastMatchLength == Length(UnitFor(current, matchPosition, matchLength, currLen)) <= currLen
      ensures var n := if matchLength > currLen then currLen else matchLength;
              lastMatchLength == if n <= 2 then 1 else n
    {
      lastMatchLength := if matchLength > currLen then currLen else matchLength;
      if lastMatchLength <= 2 {
        lastMatchLength := 1;
        Emit(Literal(current));
      } else {
        Emit(Match(matchPosition, lastMatchLength - 3));
      }
    }

    /** finish: the rest of the buffer goes out. */
    method Finish()
      requires Valid()
      modifies this`codeBufPtr, this`codeMask, this`out, this`sent, this`pending, codeBuf
      ensures out == Serialise(old(sent + pending))
    {
      Flush();
    }
  }
}
