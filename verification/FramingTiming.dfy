/** Timeouts and counters over whole runs, told by the chunks and the decisions alone. */
module FramingTiming {
  import opened Bytes
  import opened Framing
  import opened FramingSafety
  import opened FramingDelivery

  // ---- a late chunk gives the held candidate up, and nothing else does ----

  /** How long after the latest byte before it chunk i came. */
  function Gap(chunks: seq<Chunk>, i: nat): dword
    requires i < |chunks|
  {
    Wrap32(chunks[i].now - LastByteAt(chunks[..i], 0))
  }

  lemma {:induction false} RunGrowsLog(l: Link, chunks: seq<Chunk>, i: nat)
    requires i <= |chunks|
    ensures l.Run(FRESH, chunks[..i]).log <= l.Run(FRESH, chunks).log
    decreases |chunks|
  {
    hide Link.PushAll, Expire;
    if i == |chunks| {
      assert chunks[..i] == chunks;
    } else {
      var n := |chunks| - 1;
      var s, c := l.Run(FRESH, chunks[..n]), chunks[n];
      assert chunks[..n][..i] == chunks[..i];
      RunGrowsLog(l, chunks[..n], i);
      ExpireGrowsLog(s, c.now);
      PushAllGrowsLog(l, Expire(s, c.now), c.bytes, c.now);
    }
  }

  lemma ExpireGrowsLog(s: State, now: dword)
    ensures s.log <= Expire(s, now).log
  {
  }

  /** The entries one more chunk adds: a timeout first, if the chunk is late and bytes are held. */
  lemma OneChunk(l: Link, chunks: seq<Chunk>)
    requires chunks != []
    ensures
      var n := |chunks| - 1;
      var s, t, gap := l.Run(FRESH, chunks[..n]), l.Run(FRESH, chunks), Gap(chunks, n);
      && s.log <= t.log
      && (s.buf != [] && gap > 500 ==> |s.log| < |t.log| && t.log[|s.log|] == TimedOut(s.base, gap))
      && forall k :: |s.log| <= k < |t.log| && t.log[k].TimedOut? ==> k == |s.log| && s.buf != [] && gap > 500
  {
    hide Link.PushAll, Wrap32, LastByteAt, Stream, Dropped;
    var n := |chunks| - 1;
    var s, c := l.Run(FRESH, chunks[..n]), chunks[n];
    RunClock(l, chunks[..n]);
    PushAllGrowsLog(l, Expire(s, c.now), c.bytes, c.now);
  }

  /**
   In every run, while bytes are held, a chunk is answered by giving the held candidate up if and
   only if it comes more than 500 ms after the latest byte; and that is the only way to time out.
   */
  lemma LateIffTimedOut(l: Link, chunks: seq<Chunk>, i: nat)
    requires i < |chunks|
    ensures
      var s, t, log := l.Run(FRESH, chunks[..i]), l.Run(FRESH, chunks[..i + 1]), l.Run(FRESH, chunks).log;
      var held, gap := s.base < |Stream(chunks[..i])|, Gap(chunks, i);
      && s.log <= t.log <= log
      && (held ==> (|s.log| < |t.log| && t.log[|s.log|] == TimedOut(s.base, gap) <==> gap > 500))
      && forall k :: |s.log| <= k < |t.log| ==> (t.log[k].TimedOut? <==> k == |s.log| && held && gap > 500)
  {
    hide Link.Run, Wrap32, LastByteAt, Recorded, NothingSkipped;
    var next := chunks[..i + 1];
    assert next[..i] == chunks[..i] && next[i] == chunks[i];
    RunGrowsLog(l, chunks, i + 1);
    RunKeeps(l, chunks[..i]);
    OneChunk(l, next);
  }

  // ---- frames that follow a stalled candidate ----

  /** Nothing after the first held byte could start a frame. */
  predicate Hopeless(fed: seq<byte>, base: nat)
  {
    base < |fed| && forall q :: base < q < |fed| ==> !MayBeMagic(fed, q)
  }

  lemma KeptMayBeMagic(s: State, fed: seq<byte>)
    requires HoldsTail(s, fed) && s.buf != []
    ensures Dropped(s.buf, 1) < |s.buf| ==> MayBeMagic(fed, s.base + Dropped(s.buf, 1))
  {
    DroppedIsLeast(s.buf, 1);
    var k := Dropped(s.buf, 1);
    assert k < |s.buf| ==> s.buf[k] == fed[s.base + k];
    assert k + 1 < |s.buf| ==> s.buf[k + 1] == fed[s.base + k + 1];
  }

  lemma HopelessDropped(s: State, fed: seq<byte>)
    requires HoldsTail(s, fed) && Hopeless(fed, s.base)
    ensures s.buf != [] && Dropped(s.buf, 1) == |s.buf|
  {
    hide Dropped;
    KeptMayBeMagic(s, fed);
  }

  lemma ExpireEmpties(s: State, fed: seq<byte>, now: dword)
    requires HoldsTail(s, fed) && Hopeless(fed, s.base) && Wrap32(now - s.lastByteMs) > 500
    ensures
      var t := Expire(s, now);
      t.buf == [] && t.crcErrors == s.crcErrors && Dispatched(t.log) == Dispatched(s.log)
  {
    hide Wrap32;
    HopelessDropped(s, fed);
    var e := TimedOut(s.base, Wrap32(now - s.lastByteMs));
    assert (s.log + [e])[..|s.log|] == s.log;
  }

  /**
   However a run has gone, when its held bytes cannot start a frame and the next chunk is late,
   the encoded frames of that chunk are dispatched exactly.
   */
  lemma LateDelivery(l: Link, chunks: seq<Chunk>, c: Chunk, segments: seq<Segment>)
    requires Hopeless(Stream(chunks), l.Run(FRESH, chunks).base)
    requires Sendable(segments) && c.bytes == OnWire(l, segments)
    requires Gap(chunks + [c], |chunks|) > 500
    ensures
      var s, t := l.Run(FRESH, chunks), l.Run(FRESH, chunks + [c]);
      t.buf == [] && t.crcErrors == s.crcErrors && Dispatched(t.log) == Dispatched(s.log) + Expected(segments)
  {
    hide Link.PushAll, Expire, Wrap32, LastByteAt, Stream, Dispatched, Hopeless, OnWire, Expected;
    var s := l.Run(FRESH, chunks);
    assert (chunks + [c])[..|chunks|] == chunks;
    RunKeeps(l, chunks);
    RunClock(l, chunks);
    ExpireEmpties(s, Stream(chunks), c.now);
    var u := Expire(s, c.now);
    PushAllUntimed(l, u, c.bytes, c.now);
    WirePasses(l, Untimed(u), segments);
    SameOtherwise(l.PushAll(u, c.bytes, c.now));
  }

  lemma SameOtherwise(s: State)
    ensures Untimed(s).buf == s.buf && Untimed(s).log == s.log && Untimed(s).crcErrors == s.crcErrors
  {
  }

  // ---- the counters ----

  function Rejections(log: seq<Event>): nat
  {
    if log == [] then 0 else Rejections(log[..|log| - 1]) + if log[|log| - 1].Accepted? then 0 else 1
  }

  function BadCrcs(log: seq<Event>): nat
  {
    if log == [] then 0 else BadCrcs(log[..|log| - 1]) + if log[|log| - 1].BadCrc? then 1 else 0
  }

  ghost predicate Counted(s: State)
  {
    s.resyncs == Wrap32(Rejections(s.log)) && s.crcErrors == Wrap32(BadCrcs(s.log))
  }

  lemma WrapNext(n: nat)
    ensures Wrap32(Wrap32(n) + 1) == Wrap32(n + 1)
  {
  }

  lemma CountNext(log: seq<Event>, e: Event)
    ensures Rejections(log + [e]) == Rejections(log) + if e.Accepted? then 0 else 1
    ensures BadCrcs(log + [e]) == BadCrcs(log) + if e.BadCrc? then 1 else 0
  {
    assert (log + [e])[..|log|] == log;
  }

  lemma TurnCounts(l: Link, s: State)
    requires Counted(s) && !l.Judge(s.buf).Wait?
    ensures Counted(l.Turn(s))
  {
    hide Wrap32, Dropped, Rejections, BadCrcs;
    var e := l.Turn(s).log[|s.log|];
    CountNext(s.log, e);
    WrapNext(Rejections(s.log));
    WrapNext(BadCrcs(s.log));
  }

  lemma {:induction false} DrainCounts(l: Link, s: State)
    requires Counted(s)
    ensures Counted(l.Drain(s))
    decreases |s.buf|
  {
    hide Counted;
    if !l.Judge(s.buf).Wait? {
      TurnCounts(l, s);
      DrainCounts(l, l.Turn(s));
    }
  }

  lemma {:induction false} PushAllCounts(l: Link, s: State, bytes: seq<byte>, now: dword)
    requires Counted(s)
    ensures Counted(l.PushAll(s, bytes, now))
    decreases |bytes|
  {
    hide Wrap32, Rejections, BadCrcs, Link.Drain;
    if bytes != [] {
      var n := |bytes| - 1;
      PushAllCounts(l, s, bytes[..n], now);
      DrainCounts(l, Append(l.PushAll(s, bytes[..n], now).(lastByteMs := now), bytes[n]));
    }
  }

  lemma ExpireCounts(s: State, now: dword)
    requires Counted(s)
    ensures Counted(Expire(s, now))
  {
    hide Wrap32, Rejections, BadCrcs, Dropped;
    CountNext(s.log, TimedOut(s.base, Wrap32(now - s.lastByteMs)));
    WrapNext(Rejections(s.log));
  }

  /** In every run the counters are the numbers of rejections and of checksum errors, modulo 2 to the 32. */
  lemma {:induction false} RunCounts(l: Link, chunks: seq<Chunk>)
    ensures
      var s := l.Run(FRESH, chunks);
      s.resyncs == Rejections(s.log) % 0x1_0000_0000 && s.crcErrors == BadCrcs(s.log) % 0x1_0000_0000
    decreases |chunks|
  {
    if chunks != [] {
      var n := |chunks| - 1;
      RunCounts(l, chunks[..n]);
      var s, c := l.Run(FRESH, chunks[..n]), chunks[n];
      ExpireCounts(s, c.now);
      PushAllCounts(l, Expire(s, c.now), c.bytes, c.now);
    }
  }
}
