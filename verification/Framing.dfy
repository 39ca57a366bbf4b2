/**
 The frame parser as a function of its state and input.

 Besides the parser's own fields the state carries where the buffer lies in the
 byte stream (`base`) and what has been decided about every candidate so far (`log`).
 */
module Framing {
  import opened Bytes

  const MAGIC0: byte := 0xA5
  const MAGIC1: byte := 0x53
  const VERSION: byte := 0x01
  const HDR: nat := 6
  const CRC: nat := 2
  const MAX_PAYLOAD: nat := 4096
  const CAPACITY: nat := 4104
  const TIMEOUT_MS: nat := 500

  datatype Frame = Frame(kind: byte, payload: seq<byte>)

  datatype Event =
    | Accepted(start: nat, version: byte, kind: byte, payload: seq<byte>)
    | Oversize(start: nat)
    | BadCrc(start: nat)
    | TimedOut(start: nat, gap: dword)

  datatype State = State(
    base: nat,
    buf: seq<byte>,
    lastByteMs: dword,
    crcErrors: dword,
    resyncs: dword,
    log: seq<Event>)

  const FRESH: State := State(0, [], 0, 0, 0, [])

  predicate KnownType(kind: byte)
  {
    0x01 <= kind <= 0x05 || 0x81 <= kind <= 0x86
  }

  /** The defined types: SNAPSHOT to PROVISION, and HELLO to PROVACK. */
  const DISPATCHABLE: set<byte> := {0x01, 0x02, 0x03, 0x04, 0x05, 0x81, 0x82, 0x83, 0x84, 0x85, 0x86}

  // ---- resynchronisation ----

  predicate MagicAt(s: seq<byte>, i: nat)
  {
    i + 1 < |s| && s[i] == MAGIC0 && s[i + 1] == MAGIC1
  }

  /** The first magic pair, or the length when there is none. */
  function FirstMagic(s: seq<byte>): (k: nat)
    ensures k <= |s|
  {
    if |s| < 2 then |s| else if MagicAt(s, 0) then 0 else 1 + FirstMagic(s[1..])
  }

  lemma {:induction false} FirstMagicIsFirst(s: seq<byte>)
    ensures FirstMagic(s) < |s| ==> MagicAt(s, FirstMagic(s))
    ensures forall j :: 0 <= j < FirstMagic(s) ==> !MagicAt(s, j)
    decreases |s|
  {
    if |s| >= 2 && !MagicAt(s, 0) {
      FirstMagicIsFirst(s[1..]);
      forall j | 1 <= j < FirstMagic(s) ensures !MagicAt(s, j) {
        assert !MagicAt(s[1..], j - 1);
      }
    }
  }

  /** How many leading bytes a resynchronisation from offset `start` drops. */
  function Dropped(buf: seq<byte>, start: nat): (k: nat)
    requires start <= |buf|
    ensures start <= k <= |buf|
  {
    var k := start + FirstMagic(buf[start..]);
    if k < |buf| then k
    else if start < |buf| && buf[|buf| - 1] == MAGIC0 then |buf| - 1
    else |buf|
  }

  /** What is kept starts with a magic pair or a last MAGIC0, and nothing earlier does. */
  lemma DroppedIsLeast(buf: seq<byte>, start: nat)
    requires start <= |buf|
    ensures
      var k := Dropped(buf, start);
      && (k < |buf| ==> buf[k] == MAGIC0 && (k + 1 < |buf| ==> buf[k + 1] == MAGIC1))
      && (forall j :: start <= j < k ==> !MagicAt(buf, j))
      && (start < |buf| && buf[|buf| - 1] == MAGIC0 ==> k < |buf|)
  {
    var k := FirstMagic(buf[start..]);
    FirstMagicIsFirst(buf[start..]);
    forall j | start <= j < start + k ensures !MagicAt(buf, j) {
      assert !MagicAt(buf[start..], j - start);
    }
  }

  function Resync(s: State, start: nat): State
    requires start <= |s.buf|
  {
    var k := Dropped(s.buf, start);
    s.(base := s.base + k, buf := s.buf[k..], resyncs := Wrap32(s.resyncs + 1))
  }

  // ---- verdicts and bytes ----

  datatype Verdict = Wait | TooLong | Corrupt | Good(plen: nat)

  function Accept(s: State, plen: nat): State
    requires HDR + plen + CRC <= |s.buf|
  {
    var total := HDR + plen + CRC;
    s.(base := s.base + total, buf := s.buf[total..],
       log := s.log + [Accepted(s.base, s.buf[2], s.buf[3], s.buf[HDR..HDR + plen])])
  }

  function Reject(s: State, e: Event): State
    requires 0 < |s.buf|
  {
    Resync(s.(log := s.log + [e]), 1)
  }

  /** The three-way scan for the magic pair, and plain buffering after it. */
  function Append(s: State, b: byte): State
  {
    if |s.buf| == 0 then
      if b == MAGIC0 then s.(buf := [b]) else s.(base := s.base + 1)
    else if |s.buf| == 1 then
      if b == MAGIC1 then s.(buf := s.buf + [b])
      else if b == MAGIC0 then s.(base := s.base + 1)
      else s.(base := s.base + 2, buf := [])
    else s.(buf := s.buf + [b])
  }

  predicate Stale(s: State, now: dword)
  {
    |s.buf| != 0 && Wrap32(now - s.lastByteMs) > TIMEOUT_MS
  }

  function Expire(s: State, now: dword): State
  {
    if Stale(s, now) then Reject(s, TimedOut(s.base, Wrap32(now - s.lastByteMs))) else s
  }

  datatype Chunk = Chunk(bytes: seq<byte>, now: dword)

  /** Everything fed by a sequence of chunks. */
  function Stream(chunks: seq<Chunk>): seq<byte>
  {
    if chunks == [] then []
    else Stream(chunks[..|chunks| - 1]) + chunks[|chunks| - 1].bytes
  }

  /** When the last byte arrived, if one has. */
  function LastByteAt(chunks: seq<Chunk>, otherwise: dword): dword
  {
    if chunks == [] then otherwise
    else if chunks[|chunks| - 1].bytes != [] then chunks[|chunks| - 1].now
    else LastByteAt(chunks[..|chunks| - 1], otherwise)
  }

  /** No chunk comes more than the timeout after the latest byte before it. */
  predicate Prompt(chunks: seq<Chunk>)
  {
    forall i :: 0 <= i < |chunks| ==>
      Stream(chunks[..i]) == [] || Wrap32(chunks[i].now - LastByteAt(chunks[..i], 0)) <= TIMEOUT_MS
  }

  /** The callback invocations a log stands for. */
  function Dispatched(log: seq<Event>): seq<Frame>
  {
    if log == [] then [] else
      var e := log[|log| - 1];
      Dispatched(log[..|log| - 1]) +
      if e.Accepted? && e.version == VERSION && KnownType(e.kind) then [Frame(e.kind, e.payload)] else []
  }

  /** The parser's loops, for whatever checksum the two ends of the link share. */
  datatype Link = Link(checksum: seq<byte> -> word) {

    predicate CrcMatches(buf: seq<byte>, plen: nat)
      requires HDR + plen + CRC <= |buf|
    {
      ReadLe16(buf[HDR + plen], buf[HDR + plen + 1]) == checksum(buf[2..HDR + plen])
    }

    /** What the bytes of a candidate say about it. */
    function Judge(buf: seq<byte>): (v: Verdict)
      ensures v.Good? ==> v.plen <= MAX_PAYLOAD && HDR + v.plen + CRC <= |buf|
      ensures v.Wait? ==> |buf| < CAPACITY
      ensures v.TooLong? || v.Corrupt? ==> |buf| >= HDR
    {
      if |buf| < HDR then Wait else
        var plen := ReadLe16(buf[4], buf[5]);
        if plen > MAX_PAYLOAD then TooLong
        else if |buf| < HDR + plen + CRC then Wait
        else if CrcMatches(buf, plen) then Good(plen)
        else Corrupt
    }

    /** One turn of the inner loop. */
    function Turn(s: State): (t: State)
      requires !Judge(s.buf).Wait?
      ensures |t.buf| < |s.buf|
    {
      match Judge(s.buf)
      case TooLong => Reject(s, Oversize(s.base))
      case Corrupt => Reject(s.(crcErrors := Wrap32(s.crcErrors + 1)), BadCrc(s.base))
      case Good(plen) => Accept(s, plen)
    }

    function Drain(s: State): (t: State)
      ensures Judge(t.buf).Wait?
      decreases |s.buf|
    {
      if Judge(s.buf).Wait? then s else Drain(Turn(s))
    }

    function Push(s: State, b: byte, now: dword): State
    {
      Drain(Append(s.(lastByteMs := now), b))
    }

    function PushAll(s: State, bytes: seq<byte>, now: dword): State
      decreases |bytes|
    {
      if bytes == [] then s
      else Push(PushAll(s, bytes[..|bytes| - 1], now), bytes[|bytes| - 1], now)
    }

    function Feed(s: State, bytes: seq<byte>, now: dword): State
    {
      PushAll(Expire(s, now), bytes, now)
    }

    function Run(s: State, chunks: seq<Chunk>): State
      decreases |chunks|
    {
      if chunks == [] then s
      else
        var c := chunks[|chunks| - 1];
        Feed(Run(s, chunks[..|chunks| - 1]), c.bytes, c.now)
    }
  }
}
