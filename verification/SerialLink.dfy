/** The core's side of the serial line: `uart_read`, and `get_byte` with or without the ring-buffer
    decompressor (patmos/c/bootloader/decompress.c, patmos/c/bootloader/download.c). */
module SerialLink {
  import opened Bytes
  import opened Lzss
  import opened Seqs
  import opened Wrappers

  /** `k & (N - 1)` */
  function Wrap(k: nat): (p: nat)
    ensures p < N && (k < N ==> p == k)
  {
    if k < N then k else Wrap(k - N)
  }

  lemma WrapSmall(k: nat)
    requires k < N
    ensures Wrap(k) == k
  {
  }

  lemma {:induction false} NextWraps(k: nat)
    ensures Wrap(k + 1) == Next(Wrap(k))
  {
    if k >= N { NextWraps(k - N); }
  }

  lemma BackNext(w: nat, d: nat)
    requires w < N && 1 <= d <= N
    ensures Back(Next(w), d) == Back(w, d - 1)
    ensures Next(Back(w, d)) == Back(w, d - 1)
  {
  }

  class Link {
    const compression: bool   // whether get_byte decompresses
    const uart: seq<byte>     // every byte the host ever sends
    var taken: nat            // how many of them uart_read has returned

    const textBuf: array<byte>
    var writePos: nat
    var readPos: nat
    var flags: nat

    ghost var history: seq<byte> // the initial ring contents and every byte decoded since
    ghost var returned: nat      // how many decoded bytes get_byte has returned

    ghost predicate Valid()
      reads this, textBuf
    {
      && taken <= |uart|
      && (compression ==> Ring() && |history| < N + returned + F)
    }

    /** The ring holds the last N bytes of the history, and the read position trails the write
        position by the number of pending bytes. */
    ghost predicate Ring()
      reads this, textBuf
    {
      && textBuf.Length == N <= |history| && N + returned <= |history| <= N + returned + F
      && writePos == WritePos(|history| - N) && readPos == Back(writePos, |history| - N - returned)
      && forall d :: 1 <= d <= N ==> textBuf[Back(writePos, d)] == history[|history| - d]
    }

    /** The distance between the positions is the number of unread bytes, never more than 65: equal positions
        mean that nothing is unread, and no unread byte is ever overwritten. */
    lemma UnreadCount()
      requires compression && Valid()
      ensures (writePos - readPos) % N == |history| - N - returned <= F - 1
      ensures readPos == writePos <==> |history| == N + returned
    {
    }

    /** Every byte get_byte has still to return before the line runs dry. */
    ghost function Remaining(): seq<byte>
      reads this, textBuf
      requires Valid()
    {
      if compression then history[N + returned..] + Decode(history, Queue(flags), uart[taken..])
      else uart[taken..]
    }

    constructor (compression: bool, uart: seq<byte>, textBuf: array<byte>)
      requires textBuf.Length == N
      ensures this.compression == compression && this.uart == uart && this.textBuf == textBuf && taken == 0
    {
      this.compression := compression;
      this.uart := uart;
      this.textBuf := textBuf;
      taken, writePos, readPos, flags, history, returned := 0, 0, 0, 0, [], 0;
    }

    /** decompress_init: blank the ring up to the first write position. */
    method DecompressInit()
      requires compression && textBuf.Length == N && taken <= |uart|
      modifies this`writePos, this`readPos, this`flags, this`history, this`returned, textBuf
      ensures Valid()
      ensures Remaining() == Decode(InitialHistory(old(textBuf[..])), [], uart[taken..])
      ensures writePos == readPos == 958 && flags == 0
      ensures forall k :: 0 <= k < 958 ==> textBuf[k] == 32
      ensures forall k :: 958 <= k < 1024 ==> textBuf[k] == old(textBuf[k])
    {
      ghost var before := textBuf[..];
      writePos := 0;
      while writePos < N - F
        invariant writePos <= N - F
        invariant forall k :: 0 <= k < writePos ==> textBuf[k] == BLANK
        invariant textBuf[writePos..] == before[writePos..]
        modifies this`writePos, textBuf
      {
        textBuf[writePos] := BLANK;
        writePos := writePos + 1;
      }
      readPos := writePos;
      flags := 0;
      history, returned := InitialHistory(before), 0;
      forall d | 1 <= d <= N
        ensures textBuf[Back(writePos, d)] == history[N - d]
      {
        if d > START { assert textBuf[writePos..][N - d] == before[writePos..][N - d]; }
      }
      NothingPending();
    }

    /** uart_read: None when the core would wait forever, because the host sends nothing more. */
    method UartRead() returns (r: Option<byte>)
      requires taken <= |uart|
      modifies this`taken
      ensures if old(taken) == |uart| then r == None && taken == old(taken)
              else r == Some(uart[old(taken)]) && taken == old(taken) + 1
    {
      if taken == |uart| { return None; }
      r := Some(uart[taken]);
      taken := taken + 1;
    }

    /** One decoded byte enters the ring. */
    method Put(c: byte)
      requires Ring() && |history| < N + returned + F
      modifies this`writePos, this`history, textBuf
      ensures Ring() && history == old(history) + [c] && writePos == Next(old(writePos))
    {
      hide Decode; hide Queue;
      ghost var w, h := writePos, history;
      NextWraps(w);
      BackNext(w, |h| + 1 - N - returned);
      textBuf[writePos] := c;
      writePos := Wrap(writePos + 1);
      history := history + [c];
      forall d | 1 <= d <= N
        ensures textBuf[Back(writePos, d)] == history[|history| - d]
      {
        BackNext(w, d);
        if d > 1 { assert textBuf[Back(w, d - 1)] == h[|h| - (d - 1)]; }
      }
    }

    /** Everything still to be decoded from the line. */
    ghost function Undecoded(): seq<byte>
      reads this
      requires |history| >= N && taken <= |uart|
    {
      Decode(history, Queue(flags), uart[taken..])
    }

    /** Shift the flag word, or load the next flag byte once eight tokens have been served.
        False when the core waits forever for that byte. */
    method NextFlag() returns (ok: bool)
      requires |history| >= N && taken <= |uart|
      modifies this`taken, this`flags
      ensures !ok ==> old(Undecoded()) == []
      ensures ok ==> taken <= |uart|
                     && old(Undecoded()) == Decode(history, [flags % 2 == 1] + Queue(flags), uart[taken..])
    {
      hide Load; hide Bits;
      ghost var q, input := Queue(flags), uart[taken..];
      flags := flags / 2;
      if !Loaded(flags) {
        var r := UartRead();
        if r.None? { return false; }
        assert input != [] && uart[taken..] == input[1..];
        flags := Load(r.value);
        FlagTrick(r.value);
        assert Bits(r.value) == [Bits(r.value)[0]] + Bits(r.value)[1..];
      }
      ok := true;
    }

    /** A literal: one byte of the line enters the ring. */
    method Literal(ghost q: seq<bool>) returns (ok: bool)
      requires Ring() && taken <= |uart| && |history| == N + returned
      modifies this`taken, this`writePos, this`history, textBuf
      ensures !ok ==> Decode(old(history), [true] + q, old(uart[taken..])) == []
      ensures ok ==> Ring() && taken <= |uart| && |history| == |old(history)| + 1 && old(history) <= history
      ensures ok ==> Decode(old(history), [true] + q, old(uart[taken..]))
                     == history[|old(history)|..] + Decode(history, q, uart[taken..])
    {
      ghost var h, input := history, uart[taken..];
      var r := UartRead();
      if r.None? { return false; }
      Put(r.value);
      assert uart[taken..] == input[1..] && history[|h|..] == [input[0]];
      assert ([true] + q)[1..] == q;
      ok := true;
    }

    /** A match: two bytes of the line name a stretch of the ring to copy. */
    method Match(ghost q: seq<bool>) returns (ok: bool)
      requires Ring() && taken <= |uart| && |history| == N + returned
      modifies this`taken, this`writePos, this`history, textBuf
      ensures !ok ==> Decode(old(history), [false] + q, old(uart[taken..])) == []
      ensures ok ==> Ring() && taken <= |uart| && 3 <= |history| - |old(history)| <= F && old(history) <= history
      ensures ok ==> Decode(old(history), [false] + q, old(uart[taken..]))
                     == history[|old(history)|..] + Decode(history, q, uart[taken..])
    {
      ghost var h, input := history, uart[taken..];
      var lo := UartRead();
      if lo.None? { return false; }
      var hi := UartRead();
      if hi.None? { return false; }
      assert uart[taken..] == input[2..] && lo.value == input[0] && hi.value == input[1];
      assert ([false] + q)[1..] == q;
      CopyMatch(MatchIndex(lo.value, hi.value), MatchLength(hi.value));
      ok := true;
    }

    /** The copy loop of a match, `n` bytes from ring index `i` on. */
    method CopyMatch(i: nat, n: nat)
      requires Ring() && i < N && |history| == N + returned && n <= F
      modifies this`writePos, this`history, textBuf
      ensures Ring() && history == Copy(old(history), i, n)
    {
      hide Extend; hide Wrap; hide WritePos;
      ghost var h := history;
      ghost var d := Distance(writePos, i);
      ExtendStart(h, d);
      WrapSmall(i);
      for k := i to i + n
        invariant Ring() && history == Extend(h, d, k - i)
        invariant Wrap(k) == Back(writePos, d)
      {
        NextWraps(k);
        ExtendStep(h, d, k - i);
        CopyByte(Wrap(k), d);
      }
    }

    method CopyByte(k: nat, ghost d: nat)
      requires Ring() && |history| < N + returned + F
      requires 1 <= d <= N && k == Back(writePos, d)
      modifies this`writePos, this`history, textBuf
      ensures Ring() && history == AppendBack(old(history), d) && Back(writePos, d) == Next(k)
    {
      BackNext(writePos, d);
      Put(textBuf[k]);
    }

    /** The part of decompress_get_byte that runs when nothing is pending: one token is decoded.
        False when the core waits forever for a byte of it. */
    method Refill() returns (ok: bool)
      requires Ring() && taken <= |uart| && |history| == N + returned
      modifies this`taken, this`writePos, this`flags, this`history, textBuf
      ensures !ok ==> old(Undecoded()) == []
      ensures ok ==> Ring() && taken <= |uart| && |old(history)| < |history|
      ensures ok ==> old(Undecoded()) == history[|old(history)|..] + Undecoded()
    {
      ok := NextFlag();
      if !ok { return; }
      if flags % 2 == 1 {
        ok := Literal(Queue(flags));
      } else {
        ok := Match(Queue(flags));
      }
    }

    /** Between 1 and F decoded bytes wait to be handed out. */
    ghost predicate Pending()
      reads this, textBuf
    {
      compression && taken <= |uart| && Ring() && N + returned < |history|
    }

    /** The last two lines of decompress_get_byte: hand out the oldest pending byte. */
    method Take() returns (c: byte)
      requires Pending()
      modifies this`readPos, this`returned
      ensures Valid()
      ensures old(history[N + returned..] + Undecoded()) == [c] + Remaining()
    {
      hide Decode; hide Queue;
      ghost var n := N + returned;
      assert textBuf[Back(writePos, |history| - n)] == history[n];
      TakeFirst(history, n, Undecoded());
      NextWraps(readPos);
      BackNext(writePos, |history| - n);
      c := textBuf[readPos];
      readPos := Wrap(readPos + 1);
      returned := returned + 1;
    }

    /** Refill as decompress_get_byte uses it. */
    method RefillEmpty() returns (ok: bool)
      requires compression && Valid() && N + returned == |history|
      modifies this`taken, this`writePos, this`flags, this`history, textBuf
      ensures !ok ==> old(Remaining()) == []
      ensures ok ==> Pending() && old(Remaining()) == history[N + returned..] + Undecoded()
    {
      hide Decode; hide Queue;
      NothingPending();
      ok := Refill();
    }

    /** The guarded part of decompress_get_byte: refill when nothing is pending. */
    method MakePending() returns (ok: bool)
      requires compression && Valid()
      modifies this`taken, this`writePos, this`flags, this`history, textBuf
      ensures !ok ==> old(Remaining()) == []
      ensures ok ==> Pending() && old(Remaining()) == history[N + returned..] + Undecoded()
    {
      hide Decode; hide Queue;
      // equal positions always mean an empty buffer: at most F - 1 of N bytes are pending
      if readPos == writePos {
        ok := RefillEmpty();
      } else {
        ok := true;
      }
    }

    /** decompress_get_byte */
    method DecompressGetByte() returns (r: Option<byte>)
      requires compression && Valid()
      modifies this`taken, this`writePos, this`readPos, this`flags, this`history, this`returned, textBuf
      ensures r.None? ==> old(Remaining()) == []
      ensures r.Some? ==> Valid() && old(Remaining()) == [r.value] + Remaining()
    {
      hide Decode; hide Queue;
      var ok := MakePending();
      if !ok { return None; }
      var c := Take();
      r := Some(c);
    }

    lemma NothingPending()
      requires compression && Valid() && N + returned == |history|
      ensures Remaining() == Undecoded()
    {
      assert history[N + returned..] == [];
    }

    /** get_byte */
    method GetByte() returns (r: Option<byte>)
      requires Valid()
      modifies this`taken, this`writePos, this`readPos, this`flags, this`history, this`returned, textBuf
      ensures r.None? ==> old(Remaining()) == []
      ensures r.Some? ==> Valid() && old(Remaining()) == [r.value] + Remaining()
    {
      if compression {
        r := DecompressGetByte();
      } else {
        r := UartRead();
        if r.Some? { assert uart[taken - 1..] == [r.value] + uart[taken..]; }
      }
    }
  }
}
