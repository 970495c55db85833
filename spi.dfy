/** The word-pipelined full-duplex transfer of the ADS131M driver.

    A bus moves one word at a time in each direction and never blocks: every
    write or read attempt either completes, reports that it would have to
    block, or fails. `Transfer` drives such a bus to send one byte buffer while
    receiving another, keeping a write cursor and a read cursor over the bytes
    and a one-word cache for a write that has to be retried. */
module Spi {

  import opened Bytes

  /** The driver's error; a failed bus operation is an I/O error. */
  datatype Error = SpiIOError

  /** The result of a non-blocking bus operation, `nb::Result<T, Error>`. */
  datatype NbResult<T> = Ready(value: T) | WouldBlock | Other(error: Error)

  datatype Option<T> = None | Some(value: T)

  // ---------------------------------------------------------------------------
  // Sequence facts
  //
  // Small facts about sequences that the proofs below call at single steps,
  // so that the solver does not have to rediscover them inside larger goals.

  /** Slicing a sequence with one more element at its end. */
  lemma SliceSnoc<T>(s: seq<T>, k: nat, x: T)
    requires k <= |s|
    ensures (s + [x])[..k] == s[..k]
    ensures (s + [x])[k..] == s[k..] + [x]
  {
  }

  /** Appending is associative. */
  lemma AppendAssoc<T>(a: seq<T>, b: seq<T>, c: seq<T>)
    ensures (a + b) + c == a + (b + c)
  {
  }

  /** Appending nothing changes nothing. */
  lemma AppendEmpty<T>(a: seq<T>)
    ensures a + [] == a
  {
  }

  /** A common prefix cancels. */
  lemma CancelPrefix<T>(a: seq<T>, b: seq<T>, c: seq<T>)
    requires a + b == a + c
    ensures b == c
  {
    assert (a + b)[|a|..] == b;
    assert (a + c)[|a|..] == c;
  }

  // ---------------------------------------------------------------------------
  // Words

  /** The two word widths: `u8` words (one byte) and `u16` words (two bytes,
      big-endian). */
  datatype WordWidth = U8 | U16

  /** `WORD_LEN`, the bytes in a word. */
  function WordLen(width: WordWidth): nat
  {
    match width
    case U8 => 1
    case U16 => 2
  }

  /** A bus word, as the unsigned 16-bit value the bus carries; a `u8` word
      is below 0x100. */
  newtype Word = x: int | 0 <= x < 0x1_0000

  /** A word fits the word width. */
  predicate FitsWidth(width: WordWidth, w: Word)
  {
    width == U8 ==> w < 0x100
  }

  predicate Aligned(width: WordWidth, n: nat)
  {
    width == U8 || n % 2 == 0
  }

  /** One word past a word-aligned byte count is word-aligned. */
  lemma AlignedStep(width: WordWidth, n: nat)
    ensures Aligned(width, n + WordLen(width)) == Aligned(width, n)
  {
  }

  /** A word-aligned byte count below another is at least a word below it. */
  lemma AlignedBelow(width: WordWidth, a: nat, b: nat)
    requires Aligned(width, a) && Aligned(width, b)
    ensures a < b ==> a + WordLen(width) <= b
  {
  }

  /** The byte offset of word `k`, `k * WORD_LEN`. */
  function Offset(width: WordWidth, k: nat): nat
  {
    match width
    case U8 => k
    case U16 => 2 * k
  }

  function Max(a: nat, b: nat): nat
  {
    if a >= b then a else b
  }

  /** The bytes `read_word` stores for a received word: the big-endian bytes
      of a `u16` word (`to_be_bytes`), or the single byte of a `u8` word. */
  function WordBytes(width: WordWidth, w: Word): (buf: seq<Byte>)
    requires FitsWidth(width, w)
    ensures |buf| == WordLen(width)
    ensures w as int == if width == U8 then buf[0] as int else buf[0] as int * 0x100 + buf[1] as int
  {
    match width
    case U8 => [w as int as Byte]
    case U16 => [(w as int / 0x100) as Byte, (w as int % 0x100) as Byte]
  }

  /** `encode_word`: the word holding a buffer of `WORD_LEN` bytes
      (`from_be_bytes` for `u16` words); it is the big-endian value of the
      buffer, it fits the width, and its bytes are the buffer again. */
  function EncodeWord(width: WordWidth, buf: seq<Byte>): (w: Word)
    requires |buf| == WordLen(width)
    ensures FitsWidth(width, w)
    ensures w as int == if width == U8 then buf[0] as int else buf[0] as int * 0x100 + buf[1] as int
    ensures WordBytes(width, w) == buf
  {
    match width
    case U8 => buf[0] as int as Word
    case U16 => (buf[0] as int * 0x100 + buf[1] as int) as Word
  }

  /** Encoding the bytes of a word gives the word back, so a word and its
      bytes determine each other. */
  lemma WordBytesEncode(width: WordWidth, w: Word)
    requires FitsWidth(width, w)
    ensures EncodeWord(width, WordBytes(width, w)) == w
  {
  }

  // ---------------------------------------------------------------------------
  // What a transfer sends and receives

  /** `[0; WORD_LEN]`, the buffer of one zero word. */
  function ZeroBuffer(width: WordWidth): seq<Byte>
  {
    match width
    case U8 => [0]
    case U16 => [0, 0]
  }

  /** The word a transfer writes at byte position `pos`: the next `WORD_LEN`
      bytes of `send`, or the zero word once `send` is used up. */
  function WordToSend(width: WordWidth, send: seq<Byte>, pos: nat): (w: Word)
    requires Aligned(width, |send|) && Aligned(width, pos)
    ensures FitsWidth(width, w)
  {
    AlignedBelow(width, pos, |send|);
    if pos < |send| then EncodeWord(width, send[pos..pos + WordLen(width)])
    else EncodeWord(width, ZeroBuffer(width))
  }

  /** The words a transfer writes for its first `n` bytes, in order; there are
      `n / WORD_LEN` of them. */
  function SentWords(width: WordWidth, send: seq<Byte>, n: nat): (ws: seq<Word>)
    requires Aligned(width, |send|) && Aligned(width, n)
    ensures Offset(width, |ws|) == n
    ensures forall i :: 0 <= i < |ws| ==> FitsWidth(width, ws[i])
    decreases n
  {
    AlignedBelow(width, 0, n);
    if n == 0 then []
    else
      AlignedStep(width, n - WordLen(width));
      SentWords(width, send, n - WordLen(width)) + [WordToSend(width, send, n - WordLen(width))]
  }

  /** The words for one more word of bytes are the words so far followed by
      the word at the old cursor. */
  lemma SentWordsSnoc(width: WordWidth, send: seq<Byte>, n: nat)
    requires Aligned(width, |send|) && Aligned(width, n)
    ensures Aligned(width, n + WordLen(width))
    ensures SentWords(width, send, n + WordLen(width)) == SentWords(width, send, n) + [WordToSend(width, send, n)]
  {
    AlignedStep(width, n);
  }

  /** Word offsets are word-aligned, and a word-aligned offset falls on a
      word boundary: within a word of word `j`'s offset there is no other
      word's offset. */
  lemma OffsetFacts(width: WordWidth, k: nat, j: nat)
    ensures Aligned(width, Offset(width, k))
    ensures Offset(width, j) <= Offset(width, k) < Offset(width, j) + WordLen(width) ==> k == j
    ensures Offset(width, k) < Offset(width, j) ==> k < j
  {
  }

  /** Word k of what a transfer writes is the word at byte `k * WORD_LEN`. */
  lemma {:induction false} SentWordsAt(width: WordWidth, send: seq<Byte>, n: nat, k: nat)
    requires Aligned(width, |send|) && Aligned(width, n)
    requires Offset(width, k) < n
    ensures k < |SentWords(width, send, n)|
    ensures Aligned(width, Offset(width, k))
    ensures SentWords(width, send, n)[k] == WordToSend(width, send, Offset(width, k))
  {
    AlignedBelow(width, 0, n);
    var m := n - WordLen(width);
    AlignedStep(width, m);
    var ws := SentWords(width, send, m);
    assert SentWords(width, send, n) == ws + [WordToSend(width, send, m)];
    OffsetFacts(width, k, |ws|);
    if Offset(width, k) < m {
      SentWordsAt(width, send, m, k);
    }
  }

  /** The bytes of a sequence of words, each word contributing its
      `WORD_LEN` bytes in order. */
  function Concat(width: WordWidth, ws: seq<Word>): (bytes: seq<Byte>)
    requires forall i :: 0 <= i < |ws| ==> FitsWidth(width, ws[i])
    ensures |bytes| == Offset(width, |ws|)
  {
    if ws == [] then []
    else Concat(width, ws[..|ws| - 1]) + WordBytes(width, ws[|ws| - 1])
  }

  /** `send` followed by zeros, cut or padded to `n` bytes. */
  function Padded(send: seq<Byte>, n: nat): seq<Byte>
  {
    seq(n, i requires 0 <= i < n => if i < |send| then send[i] else 0)
  }

  /** Padding further by a block of bytes that agrees with `send` (then with
      zeros) at those positions appends that block. */
  lemma PaddedSnoc(send: seq<Byte>, m: nat, block: seq<Byte>)
    requires forall j :: 0 <= j < |block| ==> block[j] == if m + j < |send| then send[m + j] else 0
    ensures Padded(send, m + |block|) == Padded(send, m) + block
  {
    var lhs, rhs := Padded(send, m + |block|), Padded(send, m) + block;
    assert |lhs| == |rhs|;
    forall i | 0 <= i < |lhs|
      ensures lhs[i] == rhs[i]
    {
      if i >= m {
        assert rhs[i] == block[i - m];
      }
    }
  }

  /** While `send` has bytes left at `pos`, the word written there carries
      the next `WORD_LEN` of them. */
  lemma WordToSendInside(width: WordWidth, send: seq<Byte>, pos: nat)
    requires Aligned(width, |send|) && Aligned(width, pos) && pos < |send|
    ensures pos + WordLen(width) <= |send|
    ensures WordBytes(width, WordToSend(width, send, pos)) == send[pos..pos + WordLen(width)]
  {
    AlignedBelow(width, pos, |send|);
  }

  /** Past the end of `send` the word written is the zero word. */
  lemma WordToSendPast(width: WordWidth, send: seq<Byte>, pos: nat)
    requires Aligned(width, |send|) && Aligned(width, pos) && pos >= |send|
    ensures WordToSend(width, send, pos) == 0
    ensures WordBytes(width, WordToSend(width, send, pos)) == ZeroBuffer(width)
  {
  }

  /** Each byte of the word written at byte position `pos` is the byte of
      `send` at that position, or zero past its end. */
  lemma WordToSendBytes(width: WordWidth, send: seq<Byte>, pos: nat)
    requires Aligned(width, |send|) && Aligned(width, pos)
    ensures var block := WordBytes(width, WordToSend(width, send, pos));
      forall j :: 0 <= j < |block| ==> block[j] == if pos + j < |send| then send[pos + j] else 0
  {
    if pos < |send| {
      WordToSendInside(width, send, pos);
    } else {
      WordToSendPast(width, send, pos);
    }
  }

  /** Padding one word further appends the bytes of the word written there. */
  lemma PaddedWord(width: WordWidth, send: seq<Byte>, pos: nat)
    requires Aligned(width, |send|) && Aligned(width, pos)
    ensures Padded(send, pos + WordLen(width)) == Padded(send, pos) + WordBytes(width, WordToSend(width, send, pos))
  {
    WordToSendBytes(width, send, pos);
    PaddedSnoc(send, pos, WordBytes(width, WordToSend(width, send, pos)));
  }

  /** What a transfer writes for its first `n` bytes carries exactly the first
      `n` bytes of `send`, padded with zero bytes past its end. */
  lemma {:induction false} SentWordsBytes(width: WordWidth, send: seq<Byte>, n: nat)
    requires Aligned(width, |send|) && Aligned(width, n)
    ensures Concat(width, SentWords(width, send, n)) == Padded(send, n)
  {
    if n > 0 {
      AlignedBelow(width, 0, n);
      var m := n - WordLen(width);
      AlignedStep(width, m);
      var ws := SentWords(width, send, m);
      var w := WordToSend(width, send, m);
      SentWordsBytes(width, send, m);
      ConcatSnoc(width, ws, w);
      PaddedWord(width, send, m);
    }
  }

  // ---------------------------------------------------------------------------
  // The bus

  /** One bus attempt and its outcome. */
  datatype Attempt = WriteAttempt(word: Word, sent: NbResult<()>) | ReadAttempt(received: NbResult<Word>)
  {
    predicate Failed()
    {
      match this
      case WriteAttempt(_, sent) => sent.Other?
      case ReadAttempt(received) => received.Other?
    }
  }

  /** The replies to the write attempts of a log, in order. */
  function WriteOutcomes(log: seq<Attempt>): seq<NbResult<()>>
  {
    if log == [] then []
    else
      WriteOutcomes(log[..|log| - 1])
      + match log[|log| - 1]
        case WriteAttempt(_, sent) => [sent]
        case ReadAttempt(_) => []
  }

  /** The replies to the read attempts of a log, in order. */
  function ReadOutcomes(log: seq<Attempt>): seq<NbResult<Word>>
  {
    if log == [] then []
    else
      ReadOutcomes(log[..|log| - 1])
      + match log[|log| - 1]
        case WriteAttempt(_, _) => []
        case ReadAttempt(received) => [received]
  }

  /** The words delivered by the completed read attempts of a log, in order. */
  function ReadyWords(log: seq<Attempt>): seq<Word>
  {
    if log == [] then []
    else
      ReadyWords(log[..|log| - 1])
      + match log[|log| - 1]
        case WriteAttempt(_, _) => []
        case ReadAttempt(received) => if received.Ready? then [received.value] else []
  }

  /** The replies and the delivered words of two logs in a row are those of
      the first followed by those of the second. */
  lemma {:induction false} LogAppend(a: seq<Attempt>, b: seq<Attempt>)
    ensures WriteOutcomes(a + b) == WriteOutcomes(a) + WriteOutcomes(b)
    ensures ReadOutcomes(a + b) == ReadOutcomes(a) + ReadOutcomes(b)
    ensures ReadyWords(a + b) == ReadyWords(a) + ReadyWords(b)
    decreases |b|
  {
    if b == [] {
      assert a + b == a;
      AppendEmpty(WriteOutcomes(a));
      AppendEmpty(ReadOutcomes(a));
      AppendEmpty(ReadyWords(a));
    } else {
      var init, last := b[..|b| - 1], b[|b| - 1];
      assert (a + b)[..|a + b| - 1] == a + init;
      assert (a + b)[|a + b| - 1] == last;
      LogAppend(a, init);
      var w := match last case WriteAttempt(_, sent) => [sent] case ReadAttempt(_) => [];
      var r := match last case WriteAttempt(_, _) => [] case ReadAttempt(received) => [received];
      var v := match last
        case WriteAttempt(_, _) => []
        case ReadAttempt(received) => if received.Ready? then [received.value] else [];
      AppendAssoc(WriteOutcomes(a), WriteOutcomes(init), w);
      AppendAssoc(ReadOutcomes(a), ReadOutcomes(init), r);
      AppendAssoc(ReadyWords(a), ReadyWords(init), v);
    }
  }

  /** A full-duplex word bus that answers from two finite scripts: one reply
      for each write attempt and one for each read attempt, in order. It
      records the words it accepted, the words it supplied and every attempt;
      `writeScript` and `readScript` are the scripts it was built with. */
  class ScriptedBus {
    const width: WordWidth
    ghost const writeScript: seq<NbResult<()>>
    ghost const readScript: seq<NbResult<Word>>
    var writeReplies: seq<NbResult<()>>
    var readReplies: seq<NbResult<Word>>
    var accepted: seq<Word>
    var supplied: seq<Word>
    var log: seq<Attempt>

    /** The scripted words, and so the supplied words, fit the word width;
        the replies given so far, as the log records them, followed by the
        replies left make up the scripts; and the supplied words are the
        words of the completed reads in the log. */
    ghost predicate Valid()
      reads this
    {
      && (forall i :: 0 <= i < |readReplies| && readReplies[i].Ready? ==> FitsWidth(width, readReplies[i].value))
      && (forall i :: 0 <= i < |supplied| ==> FitsWidth(width, supplied[i]))
      && writeScript == WriteOutcomes(log) + writeReplies
      && readScript == ReadOutcomes(log) + readReplies
      && supplied == ReadyWords(log)
    }

    constructor (width: WordWidth, writeReplies: seq<NbResult<()>>, readReplies: seq<NbResult<Word>>)
      requires forall i :: 0 <= i < |readReplies| && readReplies[i].Ready? ==> FitsWidth(width, readReplies[i].value)
      ensures Valid()
      ensures this.width == width && this.writeReplies == writeReplies && this.readReplies == readReplies
      ensures writeScript == writeReplies && readScript == readReplies
      ensures accepted == [] && supplied == [] && log == []
    {
      this.width := width;
      this.writeScript, this.readScript := writeReplies, readReplies;
      this.writeReplies := writeReplies;
      this.readReplies := readReplies;
      accepted, supplied, log := [], [], [];
    }

    /** Attempts to write one word; the next write reply decides the outcome. */
    method Send(word: Word) returns (r: NbResult<()>)
      requires Valid() && |writeReplies| > 0
      modifies this
      ensures Valid()
      ensures r == old(writeReplies[0])
      ensures writeReplies == old(writeReplies[1..]) && readReplies == old(readReplies)
      ensures accepted == old(accepted) + (if r.Ready? then [word] else [])
      ensures supplied == old(supplied)
      ensures log == old(log) + [WriteAttempt(word, r)]
    {
      ghost var log0, replies0 := log, writeReplies;
      r := writeReplies[0];
      writeReplies := writeReplies[1..];
      if r.Ready? {
        accepted := accepted + [word];
      }
      log := log + [WriteAttempt(word, r)];
      assert log[..|log| - 1] == log0;
      assert replies0 == [r] + writeReplies;
      AppendAssoc(WriteOutcomes(log0), [r], writeReplies);
      AppendEmpty(ReadOutcomes(log0));
      AppendEmpty(ReadyWords(log0));
    }

    /** Attempts to read one word; the next read reply decides the outcome. */
    method Read() returns (r: NbResult<Word>)
      requires Valid() && |readReplies| > 0
      modifies this
      ensures Valid()
      ensures r == old(readReplies[0])
      ensures r.Ready? ==> FitsWidth(width, r.value)
      ensures readReplies == old(readReplies[1..]) && writeReplies == old(writeReplies)
      ensures supplied == old(supplied) + (if r.Ready? then [r.value] else [])
      ensures accepted == old(accepted)
      ensures log == old(log) + [ReadAttempt(r)]
    {
      ghost var log0, replies0 := log, readReplies;
      r := readReplies[0];
      readReplies := readReplies[1..];
      if r.Ready? {
        supplied := supplied + [r.value];
      }
      log := log + [ReadAttempt(r)];
      assert log[..|log| - 1] == log0;
      assert replies0 == [r] + readReplies;
      AppendAssoc(ReadOutcomes(log0), [r], readReplies);
      AppendEmpty(WriteOutcomes(log0));
      if !r.Ready? {
        AppendEmpty(ReadyWords(log0));
      }
    }
  }

  /** The replies since the log stood at `log0` are the ones taken off the
      scripts since then, and the words supplied since then are those of the
      completed reads since then. */
  lemma BusSince(bus: ScriptedBus, log0: seq<Attempt>, writes0: seq<NbResult<()>>, reads0: seq<NbResult<Word>>,
                 supplied0: seq<Word>)
    requires bus.Valid()
    requires bus.writeScript == WriteOutcomes(log0) + writes0 && bus.readScript == ReadOutcomes(log0) + reads0
    requires supplied0 == ReadyWords(log0)
    requires |log0| <= |bus.log| && bus.log[..|log0|] == log0
    ensures writes0 == WriteOutcomes(bus.log[|log0|..]) + bus.writeReplies
    ensures reads0 == ReadOutcomes(bus.log[|log0|..]) + bus.readReplies
    ensures bus.supplied == supplied0 + ReadyWords(bus.log[|log0|..])
  {
    var since := bus.log[|log0|..];
    assert bus.log == log0 + since;
    LogAppend(log0, since);
    AppendAssoc(WriteOutcomes(log0), WriteOutcomes(since), bus.writeReplies);
    CancelPrefix(WriteOutcomes(log0), writes0, WriteOutcomes(since) + bus.writeReplies);
    AppendAssoc(ReadOutcomes(log0), ReadOutcomes(since), bus.readReplies);
    CancelPrefix(ReadOutcomes(log0), reads0, ReadOutcomes(since) + bus.readReplies);
  }

  /** `read_word`: reads one word from the bus and, when it arrives, stores
      its bytes at `buf[at .. at + WORD_LEN]`; no other byte of `buf` changes. */
  method ReadWord(bus: ScriptedBus, buf: array<Byte>, at: nat) returns (r: NbResult<()>)
    requires bus.Valid() && |bus.readReplies| > 0
    requires at + WordLen(bus.width) <= buf.Length
    modifies bus, buf
    ensures bus.Valid()
    ensures bus.readReplies == old(bus.readReplies[1..]) && bus.writeReplies == old(bus.writeReplies)
    ensures bus.accepted == old(bus.accepted)
    ensures bus.log == old(bus.log) + [ReadAttempt(old(bus.readReplies[0]))]
    ensures r.Ready? <==> old(bus.readReplies[0]).Ready?
    ensures r.Other? <==> old(bus.readReplies[0]).Other?
    ensures r.Other? ==> r.error == old(bus.readReplies[0]).error
    ensures r.Ready? ==>
      && bus.supplied == old(bus.supplied) + [old(bus.readReplies[0]).value]
      && buf[..] == old(buf[..])[..at] + WordBytes(bus.width, old(bus.readReplies[0]).value) + old(buf[..])[at + WordLen(bus.width)..]
    ensures !r.Ready? ==> bus.supplied == old(bus.supplied) && buf[..] == old(buf[..])
  {
    var word := bus.Read();
    match word
    case Ready(w) =>
      var bytes := WordBytes(bus.width, w);
      buf[at] := bytes[0];
      if bus.width == U16 {
        buf[at + 1] := bytes[1];
      }
      r := Ready(());
    case WouldBlock =>
      r := WouldBlock;
    case Other(e) =>
      r := Other(e);
  }

  // ---------------------------------------------------------------------------
  // The transfer

  /** How a transfer ends: `Ok` and `Err` are the driver's results; the other
      two are where the model stops where the driver would not return:
      `OutOfBounds` is the panic of slicing `receive` past its end, and
      `Exhausted` means the scripted bus ran out of replies. */
  datatype TransferResult = Ok | Err(error: Error) | OutOfBounds | Exhausted

  /** How far a transfer has got: its write cursor and its read cursor, in
      bytes, whether a bus attempt has failed, and whether the current
      iteration of the transfer loop has made its write attempt (so that only
      its read attempt may follow). */
  datatype Progress = Progress(written: nat, read: nat, failed: bool, wrote: bool)

  /** The loop's read condition: the read cursor is behind the write cursor
      and short of the transfer length. */
  predicate ReadDue(transferLen: nat, written: nat, read: nat)
  {
    read < written && read < transferLen
  }

  /** Whether the transfer loop's next attempt from progress `p` is a read:
      the read is due, and the current iteration has made its write or there
      is nothing left to write. Otherwise, while `written < transferLen`, it
      is a write. */
  predicate ReadNext(transferLen: nat, p: Progress)
  {
    (p.wrote || p.written >= transferLen) && ReadDue(transferLen, p.written, p.read)
  }

  /** The progress after one more bus attempt, or None when the transfer loop
      never makes that attempt from progress `p`. No attempt follows a failed
      one. Each iteration of the loop makes a write attempt while `written <
      transferLen`, always with the word at the write cursor (so a write that
      would block is retried with the same word), and then a read attempt
      while the read is due; an iteration that makes neither ends the loop.
      A read whose word would not fit in the `receiveLen` bytes of `receive`
      is never made: the loop panics slicing `receive` before it. Only a
      completed attempt moves its cursor, by one word. */
  function Step(width: WordWidth, send: seq<Byte>, transferLen: nat, receiveLen: nat, p: Progress, a: Attempt): Option<Progress>
    requires Aligned(width, |send|)
  {
    if p.failed then None
    else if ReadNext(transferLen, p) then
      match a
      case ReadAttempt(received) =>
        if p.read + WordLen(width) <= receiveLen
        then Some(Progress(p.written, if received.Ready? then p.read + WordLen(width) else p.read, received.Other?, false))
        else None
      case WriteAttempt(_, _) => None
    else if p.written < transferLen && Aligned(width, p.written) then
      match a
      case WriteAttempt(word, sent) =>
        if word == WordToSend(width, send, p.written)
        then Some(Progress(if sent.Ready? then p.written + WordLen(width) else p.written, p.read, sent.Other?, true))
        else None
      case ReadAttempt(_) => None
    else None
  }

  /** The progress after a sequence of attempts starting from nothing, or
      None if the transfer loop never makes that sequence of attempts. */
  function Replay(width: WordWidth, send: seq<Byte>, transferLen: nat, receiveLen: nat, attempts: seq<Attempt>): Option<Progress>
    requires Aligned(width, |send|)
  {
    if attempts == [] then Some(Progress(0, 0, false, false))
    else
      match Replay(width, send, transferLen, receiveLen, attempts[..|attempts| - 1])
      case None => None
      case Some(p) => Step(width, send, transferLen, receiveLen, p, attempts[|attempts| - 1])
  }

  /** Cursors that are word-aligned with `read <= written <= transferLen`. */
  predicate InBounds(width: WordWidth, transferLen: nat, p: Progress)
  {
    p.read <= p.written <= transferLen && Aligned(width, p.written) && Aligned(width, p.read)
  }

  /** Every attempt the transfer loop can make keeps the cursors in bounds. */
  lemma StepBounds(width: WordWidth, send: seq<Byte>, transferLen: nat, receiveLen: nat, p: Progress, a: Attempt)
    requires Aligned(width, |send|) && Aligned(width, transferLen)
    requires InBounds(width, transferLen, p)
    requires Step(width, send, transferLen, receiveLen, p, a).Some?
    ensures InBounds(width, transferLen, Step(width, send, transferLen, receiveLen, p, a).value)
  {
    AlignedStep(width, p.written);
    AlignedStep(width, p.read);
    AlignedBelow(width, p.read, p.written);
    AlignedBelow(width, p.written, transferLen);
  }

  /** Every sequence of attempts the transfer loop can make keeps both cursors
      word-aligned and `read <= written <= transferLen`. */
  lemma {:induction false} ReplayBounds(width: WordWidth, send: seq<Byte>, transferLen: nat, receiveLen: nat, attempts: seq<Attempt>)
    requires Aligned(width, |send|) && Aligned(width, transferLen)
    requires Replay(width, send, transferLen, receiveLen, attempts).Some?
    ensures InBounds(width, transferLen, Replay(width, send, transferLen, receiveLen, attempts).value)
  {
    if attempts != [] {
      var prev := attempts[..|attempts| - 1];
      ReplayBounds(width, send, transferLen, receiveLen, prev);
      StepBounds(width, send, transferLen, receiveLen, Replay(width, send, transferLen, receiveLen, prev).value, attempts[|attempts| - 1]);
    }
  }

  /** The read cursor never passes the end of `receive`: the loop reads a
      word only where it fits. */
  lemma {:induction false} ReplayReadFits(width: WordWidth, send: seq<Byte>, transferLen: nat, receiveLen: nat,
                                          attempts: seq<Attempt>)
    requires Aligned(width, |send|)
    requires Replay(width, send, transferLen, receiveLen, attempts).Some?
    ensures Replay(width, send, transferLen, receiveLen, attempts).value.read <= receiveLen
  {
    if attempts != [] {
      ReplayReadFits(width, send, transferLen, receiveLen, attempts[..|attempts| - 1]);
    }
  }

  /** In a sequence of attempts the transfer loop can make, only the last
      attempt can have failed, and the progress records a failure exactly
      when it did. */
  lemma {:induction false} ReplayFailure(width: WordWidth, send: seq<Byte>, transferLen: nat, receiveLen: nat, attempts: seq<Attempt>)
    requires Aligned(width, |send|)
    requires Replay(width, send, transferLen, receiveLen, attempts).Some?
    ensures forall i :: 0 <= i < |attempts| - 1 ==> !attempts[i].Failed()
    ensures Replay(width, send, transferLen, receiveLen, attempts).value.failed <==> attempts != [] && attempts[|attempts| - 1].Failed()
  {
    if attempts != [] {
      var prev := attempts[..|attempts| - 1];
      ReplayFailure(width, send, transferLen, receiveLen, prev);
    }
  }

  /** Replaying one more attempt is one more step. */
  lemma ReplaySnoc(width: WordWidth, send: seq<Byte>, transferLen: nat, receiveLen: nat, attempts: seq<Attempt>, a: Attempt)
    requires Aligned(width, |send|)
    ensures Replay(width, send, transferLen, receiveLen, attempts + [a])
         == match Replay(width, send, transferLen, receiveLen, attempts)
            case None => None
            case Some(p) => Step(width, send, transferLen, receiveLen, p, a)
  {
    assert (attempts + [a])[..|attempts|] == attempts;
  }

  /** Read attempts never move the write cursor. */
  lemma {:induction false} ReadsKeepWritten(width: WordWidth, send: seq<Byte>, transferLen: nat, receiveLen: nat,
                                            prefix: seq<Attempt>, between: seq<Attempt>)
    requires Aligned(width, |send|)
    requires forall i :: 0 <= i < |between| ==> between[i].ReadAttempt?
    requires Replay(width, send, transferLen, receiveLen, prefix + between).Some?
    ensures Replay(width, send, transferLen, receiveLen, prefix).Some?
    ensures Replay(width, send, transferLen, receiveLen, prefix + between).value.written == Replay(width, send, transferLen, receiveLen, prefix).value.written
    decreases |between|
  {
    if between == [] {
      assert prefix + between == prefix;
    } else {
      var init := between[..|between| - 1];
      assert prefix + between == (prefix + init) + [between[|between| - 1]];
      ReplaySnoc(width, send, transferLen, receiveLen, prefix + init, between[|between| - 1]);
      ReadsKeepWritten(width, send, transferLen, receiveLen, prefix, init);
    }
  }

  /** A write that would block is retried with the same word: whatever between
      come in between, the next write attempt carries the cached word. */
  lemma BlockedWriteRetried(width: WordWidth, send: seq<Byte>, transferLen: nat, receiveLen: nat, attempts: seq<Attempt>,
                            word: Word, between: seq<Attempt>, retried: Word, sent: NbResult<()>)
    requires Aligned(width, |send|)
    requires forall i :: 0 <= i < |between| ==> between[i].ReadAttempt?
    requires Replay(width, send, transferLen, receiveLen,
                    attempts + [WriteAttempt(word, WouldBlock)] + between + [WriteAttempt(retried, sent)]).Some?
    ensures retried == word
  {
    var blocked := attempts + [WriteAttempt(word, WouldBlock)];
    ReplaySnoc(width, send, transferLen, receiveLen, blocked + between, WriteAttempt(retried, sent));
    ReadsKeepWritten(width, send, transferLen, receiveLen, blocked, between);
    ReplaySnoc(width, send, transferLen, receiveLen, attempts, WriteAttempt(word, WouldBlock));
  }

  /** After a completed write the loop always reads next: the read cursor is
      then behind the write cursor and short of the transfer length. */
  lemma CompletedWriteThenRead(width: WordWidth, send: seq<Byte>, transferLen: nat, receiveLen: nat, attempts: seq<Attempt>,
                               word: Word, a: Attempt)
    requires Aligned(width, |send|) && Aligned(width, transferLen)
    requires Replay(width, send, transferLen, receiveLen, attempts + [WriteAttempt(word, Ready(())), a]).Some?
    ensures a.ReadAttempt?
  {
    var wrote := attempts + [WriteAttempt(word, Ready(()))];
    assert attempts + [WriteAttempt(word, Ready(())), a] == wrote + [a];
    ReplaySnoc(width, send, transferLen, receiveLen, wrote, a);
    ReplaySnoc(width, send, transferLen, receiveLen, attempts, WriteAttempt(word, Ready(())));
    ReplayBounds(width, send, transferLen, receiveLen, attempts);
  }

  /** Two reads in a row happen only once the write cursor has reached the
      transfer length: until then every iteration writes before it reads. */
  lemma ConsecutiveReadsAtEnd(width: WordWidth, send: seq<Byte>, transferLen: nat, receiveLen: nat, attempts: seq<Attempt>,
                              first: NbResult<Word>, second: NbResult<Word>)
    requires Aligned(width, |send|) && Aligned(width, transferLen)
    requires Replay(width, send, transferLen, receiveLen, attempts + [ReadAttempt(first), ReadAttempt(second)]).Some?
    ensures Replay(width, send, transferLen, receiveLen, attempts).Some?
    ensures Replay(width, send, transferLen, receiveLen, attempts).value.written == transferLen
  {
    var once := attempts + [ReadAttempt(first)];
    assert attempts + [ReadAttempt(first), ReadAttempt(second)] == once + [ReadAttempt(second)];
    ReplaySnoc(width, send, transferLen, receiveLen, once, ReadAttempt(second));
    ReplaySnoc(width, send, transferLen, receiveLen, attempts, ReadAttempt(first));
    ReplayBounds(width, send, transferLen, receiveLen, once);
  }

  /** Overwriting the block right after `prefix` in `prefix + rest` moves the
      block into the prefix. */
  lemma Splice(prefix: seq<Byte>, rest: seq<Byte>, block: seq<Byte>)
    requires |block| <= |rest|
    ensures var s := prefix + rest;
      s[..|prefix|] + block + s[|prefix| + |block|..] == (prefix + block) + rest[|block|..]
  {
    var s := prefix + rest;
    assert s[..|prefix|] == prefix;
    assert s[|prefix| + |block|..] == rest[|block|..];
  }

  /** Appending one word to the supplied words appends its bytes. */
  lemma ConcatSnoc(width: WordWidth, ws: seq<Word>, w: Word)
    requires forall i :: 0 <= i < |ws| ==> FitsWidth(width, ws[i])
    requires FitsWidth(width, w)
    ensures Concat(width, ws + [w]) == Concat(width, ws) + WordBytes(width, w)
  {
    assert (ws + [w])[..|ws|] == ws;
  }

  /** What can be observed of a transfer in progress: the bus's log, the
      words it accepted, the words it supplied, and the receive buffer. */
  datatype Trace = Trace(log: seq<Attempt>, accepted: seq<Word>, supplied: seq<Word>, received: seq<Byte>)

  ghost function Observe(bus: ScriptedBus, receive: array<Byte>): Trace
    reads bus, receive
  {
    Trace(bus.log, bus.accepted, bus.supplied, receive[..])
  }

  /** The attempts logged since `log0` replay to progress `p`. */
  ghost predicate LogFrom(width: WordWidth, send: seq<Byte>, transferLen: nat, receiveLen: nat, log0: seq<Attempt>, log: seq<Attempt>, p: Progress)
  {
    && Aligned(width, |send|)
    && |log0| <= |log| && log[..|log0|] == log0
    && Replay(width, send, transferLen, receiveLen, log[|log0|..]) == Some(p)
  }

  /** Logging one more attempt steps the progress. */
  lemma LogFromSnoc(width: WordWidth, send: seq<Byte>, transferLen: nat, receiveLen: nat, log0: seq<Attempt>, log: seq<Attempt>,
                    p: Progress, a: Attempt)
    requires LogFrom(width, send, transferLen, receiveLen, log0, log, p)
    requires Step(width, send, transferLen, receiveLen, p, a).Some?
    ensures LogFrom(width, send, transferLen, receiveLen, log0, log + [a], Step(width, send, transferLen, receiveLen, p, a).value)
  {
    SliceSnoc(log, |log0|, a);
    ReplaySnoc(width, send, transferLen, receiveLen, log[|log0|..], a);
  }

  /** The words supplied since `supplied0` fill the first `read` bytes of the
      receive buffer, which holds `received0` after them. */
  ghost predicate ReceivedFrom(width: WordWidth, supplied0: seq<Word>, received0: seq<Byte>,
                               supplied: seq<Word>, received: seq<Byte>, read: nat)
  {
    && read <= |received0|
    && |supplied0| <= |supplied| && supplied[..|supplied0|] == supplied0
    && (forall i :: 0 <= i < |supplied| ==> FitsWidth(width, supplied[i]))
    && Offset(width, |supplied| - |supplied0|) == read
    && received == Concat(width, supplied[|supplied0|..]) + received0[read..]
  }

  /** Storing one more supplied word at the read cursor moves the cursor by
      a word. */
  lemma ReceivedFromSnoc(width: WordWidth, supplied0: seq<Word>, received0: seq<Byte>,
                         supplied: seq<Word>, received: seq<Byte>, read: nat, v: Word)
    requires ReceivedFrom(width, supplied0, received0, supplied, received, read)
    requires read + WordLen(width) <= |received0| && FitsWidth(width, v)
    ensures read + WordLen(width) <= |received|
    ensures ReceivedFrom(width, supplied0, received0, supplied + [v],
                         received[..read] + WordBytes(width, v) + received[read + WordLen(width)..],
                         read + WordLen(width))
  {
    var words := supplied[|supplied0|..];
    SliceSnoc(supplied, |supplied0|, v);
    ConcatSnoc(width, words, v);
    Splice(Concat(width, words), received0[read..], WordBytes(width, v));
    assert received0[read..][WordLen(width)..] == received0[read + WordLen(width)..];
  }

  /** A transfer of `send` over `transferLen` bytes that started at `start`
      stands at `now` with progress `p`: the attempts since the start replay
      to `p`, the bus has since accepted the words for the first `p.written`
      bytes, and the first `p.read` bytes of the receive buffer are the bytes
      of the words read since the start, the rest as at the start. */
  ghost predicate Tracks(width: WordWidth, send: seq<Byte>, transferLen: nat, start: Trace, now: Trace, p: Progress)
  {
    && Aligned(width, |send|) && Aligned(width, transferLen) && Aligned(width, |start.received|)
    && InBounds(width, transferLen, p)
    && LogFrom(width, send, transferLen, |start.received|, start.log, now.log, p)
    && now.accepted == start.accepted + SentWords(width, send, p.written)
    && ReceivedFrom(width, start.supplied, start.received, now.supplied, now.received, p.read)
  }

  /** A transfer starts with both cursors at zero and no failure. */
  lemma TracksStart(width: WordWidth, send: seq<Byte>, transferLen: nat, start: Trace)
    requires Aligned(width, |send|) && Aligned(width, transferLen) && Aligned(width, |start.received|)
    requires forall i :: 0 <= i < |start.supplied| ==> FitsWidth(width, start.supplied[i])
    ensures Tracks(width, send, transferLen, start, start, Progress(0, 0, false, false))
  {
    assert start.log[|start.log|..] == [];
    assert start.supplied[|start.supplied|..] == [];
    assert start.accepted + [] == start.accepted;
  }

  /** A write attempt of the word at the write cursor, made where the loop
      makes one, keeps the transfer on track when the bus logs it and, if it
      completed, accepts the word: a completed one moves the write cursor by a
      word, a failed one records the failure, and the iteration may now read. */
  lemma TracksWrite(width: WordWidth, send: seq<Byte>, transferLen: nat, start: Trace, now: Trace, next: Trace,
                    p: Progress, word: Word, sent: NbResult<()>)
    requires Tracks(width, send, transferLen, start, now, p)
    requires !p.failed && p.written < transferLen && !(p.wrote && ReadDue(transferLen, p.written, p.read))
    requires word == WordToSend(width, send, p.written)
    requires next.log == now.log + [WriteAttempt(word, sent)]
    requires next.accepted == now.accepted + if sent.Ready? then [word] else []
    requires next.supplied == now.supplied && next.received == now.received
    ensures Tracks(width, send, transferLen, start, next,
                   Progress(if sent.Ready? then p.written + WordLen(width) else p.written, p.read, sent.Other?, true))
  {
    var a := WriteAttempt(word, sent);
    var q := Progress(if sent.Ready? then p.written + WordLen(width) else p.written, p.read, sent.Other?, true);
    assert Step(width, send, transferLen, |start.received|, p, a) == Some(q);
    StepBounds(width, send, transferLen, |start.received|, p, a);
    LogFromSnoc(width, send, transferLen, |start.received|, start.log, now.log, p, a);
    if sent.Ready? {
      SentWordsSnoc(width, send, p.written);
      AppendAssoc(start.accepted, SentWords(width, send, p.written), [word]);
    } else {
      AppendEmpty(now.accepted);
    }
  }

  /** A read attempt at the read cursor, made where the loop makes one, keeps
      the transfer on track when the bus logs it and, if it completed,
      supplies the word, whose bytes are stored at the read cursor: a
      completed one moves the read cursor by a word, a failed one records the
      failure, and the iteration is over. */
  lemma TracksRead(width: WordWidth, send: seq<Byte>, transferLen: nat, start: Trace, now: Trace, next: Trace,
                   p: Progress, received: NbResult<Word>)
    requires Tracks(width, send, transferLen, start, now, p)
    requires !p.failed && ReadDue(transferLen, p.written, p.read) && (p.wrote || p.written >= transferLen)
    requires p.read + WordLen(width) <= |start.received| && |now.received| == |start.received|
    requires next.log == now.log + [ReadAttempt(received)] && next.accepted == now.accepted
    requires received.Ready? ==>
      && FitsWidth(width, received.value)
      && next.supplied == now.supplied + [received.value]
      && next.received == now.received[..p.read] + WordBytes(width, received.value) + now.received[p.read + WordLen(width)..]
    requires !received.Ready? ==> next.supplied == now.supplied && next.received == now.received
    ensures Tracks(width, send, transferLen, start, next,
                   Progress(p.written, if received.Ready? then p.read + WordLen(width) else p.read, received.Other?, false))
  {
    var a := ReadAttempt(received);
    StepBounds(width, send, transferLen, |start.received|, p, a);
    LogFromSnoc(width, send, transferLen, |start.received|, start.log, now.log, p, a);
    if received.Ready? {
      ReceivedFromSnoc(width, start.supplied, start.received, now.supplied, now.received, p.read, received.value);
    }
  }

  /** The write half of one iteration of the transfer loop, run while the
      write cursor is short of the transfer length: retries the cached word
      of a write that would have blocked, or else encodes the word at the
      write cursor, and makes one write attempt with it. A completed write
      moves the write cursor by a word and empties the cache; one that would
      block caches the word; a failed one stops the transfer with `Err`. */
  method WriteHalf(bus: ScriptedBus, send: seq<Byte>, transferLen: nat, receive: array<Byte>, ghost start: Trace,
                   bytesWritten: nat, bytesRead: nat, wordCache: Option<Word>, ghost wrote: bool)
    returns (stop: Option<TransferResult>, written: nat, cache: Option<Word>, ghost wroteNow: bool)
    requires bus.Valid()
    requires Tracks(bus.width, send, transferLen, start, Observe(bus, receive), Progress(bytesWritten, bytesRead, false, wrote))
    requires bytesWritten < transferLen && !(wrote && ReadDue(transferLen, bytesWritten, bytesRead))
    requires wordCache.Some? ==> wordCache.value == WordToSend(bus.width, send, bytesWritten)
    modifies bus
    ensures bus.Valid()
    ensures Tracks(bus.width, send, transferLen, start, Observe(bus, receive),
                   Progress(written, bytesRead, stop.Some? && stop.value.Err?, wroteNow))
    ensures bus.readReplies == old(bus.readReplies)
    ensures stop.None? ==>
      && |bus.writeReplies| < old(|bus.writeReplies|)
      && (cache.Some? ==> written < transferLen && cache.value == WordToSend(bus.width, send, written))
    ensures stop.Some? ==> written == bytesWritten && (stop.value.Err? || stop.value.Exhausted?)
    ensures old(bus.writeReplies) == [] ==> stop == Some(Exhausted) && bus.log == old(bus.log) && wroteNow == wrote
    ensures old(bus.writeReplies) != [] ==>
      && wroteNow
      && bus.log == old(bus.log) + [WriteAttempt(WordToSend(bus.width, send, bytesWritten), old(bus.writeReplies)[0])]
      && bus.writeReplies == old(bus.writeReplies)[1..]
      && match old(bus.writeReplies)[0]
         case Ready(_) => stop.None? && written == bytesWritten + WordLen(bus.width) && cache.None?
         case WouldBlock => stop.None? && written == bytesWritten && cache == Some(WordToSend(bus.width, send, bytesWritten))
         case Other(e) => stop == Some(Err(e)) && written == bytesWritten
  {
    var word: Word;
    if wordCache.Some? {
      word := wordCache.value;
    } else {
      word := WordToSend(bus.width, send, bytesWritten);
    }
    cache := None;
    if |bus.writeReplies| == 0 {
      return Some(Exhausted), bytesWritten, cache, wrote;
    }
    ghost var now := Observe(bus, receive);
    var sent := bus.Send(word);
    TracksWrite(bus.width, send, transferLen, start, now, Observe(bus, receive),
                Progress(bytesWritten, bytesRead, false, wrote), word, sent);
    wroteNow := true;
    match sent
    case Ready(_) =>
      stop, written := None, bytesWritten + WordLen(bus.width);
    case WouldBlock =>
      stop, written, cache := None, bytesWritten, Some(word);
    case Other(e) =>
      stop, written := Some(Err(e)), bytesWritten;
  }

  /** The read half of one iteration of the transfer loop, run while the read
      is due: stops with `OutOfBounds` when the next word does not fit in
      `receive`, and otherwise makes one read attempt into `receive` at the
      read cursor. A completed read moves the read cursor by a word; a failed
      one stops the transfer with `Err`. */
  method ReadHalf(bus: ScriptedBus, send: seq<Byte>, transferLen: nat, receive: array<Byte>, ghost start: Trace,
                  bytesWritten: nat, bytesRead: nat, ghost wrote: bool)
    returns (stop: Option<TransferResult>, read: nat, ghost wroteNow: bool)
    requires bus.Valid()
    requires Tracks(bus.width, send, transferLen, start, Observe(bus, receive), Progress(bytesWritten, bytesRead, false, wrote))
    requires receive.Length == |start.received|
    requires ReadDue(transferLen, bytesWritten, bytesRead) && (wrote || bytesWritten >= transferLen)
    modifies bus, receive
    ensures bus.Valid()
    ensures Tracks(bus.width, send, transferLen, start, Observe(bus, receive),
                   Progress(bytesWritten, read, stop.Some? && stop.value.Err?, wroteNow))
    ensures bus.writeReplies == old(bus.writeReplies)
    ensures stop.None? ==> |bus.readReplies| < old(|bus.readReplies|) && !wroteNow
    ensures stop.Some? ==> read == bytesRead && !stop.value.Ok?
    ensures stop == Some(OutOfBounds) <==> bytesRead + WordLen(bus.width) > receive.Length
    ensures stop == Some(OutOfBounds) ==> bytesRead == receive.Length
    ensures stop == Some(Exhausted) ==> bus.readReplies == []
    ensures stop == Some(OutOfBounds) || old(bus.readReplies) == [] ==>
      && (stop == Some(OutOfBounds) || stop == Some(Exhausted))
      && bus.log == old(bus.log) && bus.readReplies == old(bus.readReplies)
      && receive[..] == old(receive[..]) && wroteNow == wrote
    ensures stop != Some(OutOfBounds) && old(bus.readReplies) != [] ==>
      && bus.log == old(bus.log) + [ReadAttempt(old(bus.readReplies)[0])]
      && bus.readReplies == old(bus.readReplies)[1..]
      && match old(bus.readReplies)[0]
         case Ready(v) =>
           && stop.None? && read == bytesRead + WordLen(bus.width)
           && receive[..] == old(receive[..])[..bytesRead] + WordBytes(bus.width, v) + old(receive[..])[bytesRead + WordLen(bus.width)..]
         case WouldBlock => stop.None? && read == bytesRead && receive[..] == old(receive[..])
         case Other(e) => stop == Some(Err(e)) && read == bytesRead && receive[..] == old(receive[..])
  {
    if bytesRead + WordLen(bus.width) > receive.Length {
      AlignedBelow(bus.width, bytesRead, receive.Length);
      return Some(OutOfBounds), bytesRead, wrote;
    }
    if |bus.readReplies| == 0 {
      return Some(Exhausted), bytesRead, wrote;
    }
    ghost var now := Observe(bus, receive);
    ghost var reply := bus.readReplies[0];
    var received := ReadWord(bus, receive, bytesRead);
    TracksRead(bus.width, send, transferLen, start, now, Observe(bus, receive),
               Progress(bytesWritten, bytesRead, false, wrote), reply);
    wroteNow := false;
    match received
    case Ready(_) =>
      stop, read := None, bytesRead + WordLen(bus.width);
    case WouldBlock =>
      stop, read := None, bytesRead;
    case Other(e) =>
      stop, read := Some(Err(e)), bytesRead;
  }

  /** `transfer`: sends `send` and receives into `receive` over `max(|send|,
      |receive|)` bytes, word by word, writing zero words past the end of
      `send`.

      On return, with `written` and `read` the final cursors, the transfer
      `Tracks` its start with a failure recorded exactly when the result is
      `Err`: the attempts made are the ones the loop makes (`Replay`), so both
      cursors are aligned with `read <= written <= transferLen` and only the
      last attempt can have failed (`ReplayFailure`); the bus accepted
      exactly the words for the first `written` bytes; `receive` holds the
      bytes of the words read, in order, in its first `read` bytes and is
      unchanged after them. The replies the bus gave are the ones taken off
      its scripts, and the words read are those of its completed read
      replies. The result is `Ok` exactly when both cursors reached the
      transfer length. `receive` shorter than `send` ends in `OutOfBounds`
      once the read cursor reaches the end of `receive` and the loop's next
      attempt would be a read, which the loop never makes; `Exhausted` means
      the script of the loop's next attempt has run out. */
  method Transfer(bus: ScriptedBus, send: seq<Byte>, receive: array<Byte>)
    returns (r: TransferResult, ghost written: nat, ghost read: nat, ghost wrote: bool)
    requires bus.Valid()
    requires Aligned(bus.width, |send|) && Aligned(bus.width, receive.Length)
    modifies bus, receive
    ensures bus.Valid()
    ensures Tracks(bus.width, send, Max(|send|, receive.Length), old(Observe(bus, receive)), Observe(bus, receive),
                   Progress(written, read, r.Err?, wrote))
    ensures old(bus.writeReplies) == WriteOutcomes(bus.log[|old(bus.log)|..]) + bus.writeReplies
    ensures old(bus.readReplies) == ReadOutcomes(bus.log[|old(bus.log)|..]) + bus.readReplies
    ensures bus.supplied == old(bus.supplied) + ReadyWords(bus.log[|old(bus.log)|..])
    ensures r.Ok? <==> read == written == Max(|send|, receive.Length)
    ensures r.OutOfBounds? ==> read == receive.Length < written
    ensures r.OutOfBounds? ==>
      ReadNext(Max(|send|, receive.Length), Progress(written, read, false, wrote)) && read + WordLen(bus.width) > receive.Length
    ensures r.Exhausted? ==>
      if ReadNext(Max(|send|, receive.Length), Progress(written, read, false, wrote))
      then bus.readReplies == [] && read + WordLen(bus.width) <= receive.Length
      else bus.writeReplies == [] && written < Max(|send|, receive.Length)
  {
    var transferLen := Max(|send|, receive.Length);
    var bytesRead: nat, bytesWritten: nat := 0, 0;
    var wordCache: Option<Word> := None;
    ghost var start := Observe(bus, receive);
    ghost var writes0, reads0 := bus.writeReplies, bus.readReplies;
    wrote := false;
    TracksStart(bus.width, send, transferLen, start);

    while bytesRead < transferLen || bytesWritten < transferLen
      invariant bus.Valid()
      invariant bus.writeScript == WriteOutcomes(start.log) + writes0 && bus.readScript == ReadOutcomes(start.log) + reads0
      invariant start.supplied == ReadyWords(start.log)
      invariant Tracks(bus.width, send, transferLen, start, Observe(bus, receive), Progress(bytesWritten, bytesRead, false, wrote))
      invariant wrote ==> !ReadDue(transferLen, bytesWritten, bytesRead)
      invariant wordCache.Some? ==>
        bytesWritten < transferLen && wordCache.value == WordToSend(bus.width, send, bytesWritten)
      decreases |bus.writeReplies| + |bus.readReplies|
    {
      var stop: Option<TransferResult>;
      if bytesWritten < transferLen {
        stop, bytesWritten, wordCache, wrote := WriteHalf(bus, send, transferLen, receive, start, bytesWritten, bytesRead, wordCache, wrote);
        if stop.Some? {
          BusSince(bus, start.log, writes0, reads0, start.supplied);
          return stop.value, bytesWritten, bytesRead, wrote;
        }
      }
      if bytesWritten > bytesRead && bytesRead < transferLen {
        stop, bytesRead, wrote := ReadHalf(bus, send, transferLen, receive, start, bytesWritten, bytesRead, wrote);
        if stop.Some? {
          BusSince(bus, start.log, writes0, reads0, start.supplied);
          return stop.value, bytesWritten, bytesRead, wrote;
        }
      }
    }
    BusSince(bus, start.log, writes0, reads0, start.supplied);
    return Ok, bytesWritten, bytesRead, wrote;
  }
}
