/** Chunking, timing and end-to-end delivery of frames. */
module FramingDelivery {
  import opened Bytes
  import opened Framing
  import opened FramingSafety

  // ---- chunk boundaries do not matter ----

  lemma {:induction false} PushAllAppend(l: Link, s: State, a: seq<byte>, b: seq<byte>, now: dword)
    ensures l.PushAll(s, a + b, now) == l.PushAll(l.PushAll(s, a, now), b, now)
    decreases |b|
  {
    if b == [] {
      assert a + b == a;
    } else {
      var n := |b| - 1;
      assert (a + b)[..|a + b| - 1] == a + b[..n];
      PushAllAppend(l, s, a, b[..n], now);
    }
  }

  lemma {:induction false} DrainKeepsClock(l: Link, s: State, now: dword)
    ensures l.Drain(s.(lastByteMs := now)) == l.Drain(s).(lastByteMs := now)
    decreases |s.buf|
  {
    if !l.Judge(s.buf).Wait? {
      DrainKeepsClock(l, l.Turn(s), now);
      assert l.Turn(s.(lastByteMs := now)) == l.Turn(s).(lastByteMs := now);
    }
  }

  /** Feeding a nonempty chunk in two parts at one time is feeding it whole. */
  lemma FeedSplits(l: Link, s: State, a: seq<byte>, b: seq<byte>, now: dword)
    requires a != []
    ensures l.Feed(s, a + b, now) == l.Feed(l.Feed(s, a, now), b, now)
  {
    var n := |a| - 1;
    var t := Append(l.PushAll(Expire(s, now), a[..n], now).(lastByteMs := now), a[n]);
    DrainGrowsLog(l, t);
    assert l.Feed(s, a, now) == l.Drain(t);
    PushAllAppend(l, Expire(s, now), a, b, now);
  }

  /**
   An empty chunk is different: it can expire a candidate without refreshing the clock.
   Repeating it is harmless exactly when the first one left nothing to expire.
   */
  lemma EmptyFeedRepeats(l: Link, s: State, now: dword)
    ensures l.Feed(l.Feed(s, [], now), [], now) == l.Feed(s, [], now)
            <==> !Stale(s, now) || Dropped(s.buf, 1) == |s.buf|
  {
    var t := Expire(s, now);
    if Stale(t, now) {
      assert |Expire(t, now).log| == |t.log| + 1;
    }
  }

  // ---- without timeouts the clock does not matter ----

  function Untimed(s: State): State
  {
    s.(lastByteMs := 0)
  }

  lemma {:induction false} PushAllUntimed(l: Link, s: State, bytes: seq<byte>, now: dword)
    ensures Untimed(l.PushAll(s, bytes, now)) == l.PushAll(Untimed(s), bytes, 0)
    decreases |bytes|
  {
    if bytes != [] {
      var n := |bytes| - 1;
      PushAllUntimed(l, s, bytes[..n], now);
      var t := Append(l.PushAll(s, bytes[..n], now).(lastByteMs := now), bytes[n]);
      DrainKeepsClock(l, t, 0);
    }
  }

  lemma PromptPrefix(chunks: seq<Chunk>, n: nat)
    requires Prompt(chunks) && n <= |chunks|
    ensures Prompt(chunks[..n])
  {
    hide Wrap32, Stream, LastByteAt;
    forall i | 0 <= i < n
      ensures Stream(chunks[..n][..i]) == []
              || Wrap32(chunks[..n][i].now - LastByteAt(chunks[..n][..i], 0)) <= TIMEOUT_MS
    {
      assert chunks[..n][..i] == chunks[..i];
    }
  }

  lemma PromptFeed(l: Link, s: State, fed: seq<byte>, c: Chunk)
    requires Untimed(s) == l.PushAll(FRESH, fed, 0)
    requires fed == [] || Wrap32(c.now - s.lastByteMs) <= TIMEOUT_MS
    ensures Untimed(l.Feed(s, c.bytes, c.now)) == l.PushAll(FRESH, fed + c.bytes, 0)
  {
    assert s.buf == Untimed(s).buf;
    assert Expire(s, c.now) == s;
    PushAllUntimed(l, s, c.bytes, c.now);
    PushAllAppend(l, FRESH, fed, c.bytes, 0);
  }

  lemma PromptStep(l: Link, chunks: seq<Chunk>)
    requires chunks != [] && Prompt(chunks)
    requires
      var before := chunks[..|chunks| - 1];
      Untimed(l.Run(FRESH, before)) == l.PushAll(FRESH, Stream(before), 0)
    ensures Untimed(l.Run(FRESH, chunks)) == l.PushAll(FRESH, Stream(chunks), 0)
  {
    hide Link.PushAll, Link.Feed, Wrap32, LastByteAt;
    var n := |chunks| - 1;
    RunClock(l, chunks[..n]);
    PromptFeed(l, l.Run(FRESH, chunks[..n]), Stream(chunks[..n]), chunks[n]);
  }

  lemma {:induction false} PromptRun(l: Link, chunks: seq<Chunk>)
    requires Prompt(chunks)
    ensures Untimed(l.Run(FRESH, chunks)) == l.PushAll(FRESH, Stream(chunks), 0)
    decreases |chunks|
  {
    hide Link.Feed, Prompt;
    if chunks != [] {
      var n := |chunks| - 1;
      PromptPrefix(chunks, n);
      PromptRun(l, chunks[..n]);
      PromptStep(l, chunks);
    }
  }

  // ---- encoding ----

  /** panelEncodeFrame's output for a payload that fits. */
  function EncodeFrame(l: Link, kind: byte, payload: seq<byte>): (f: seq<byte>)
    requires |payload| <= MAX_PAYLOAD
    ensures |f| == HDR + |payload| + CRC
    ensures f[4..6] == WriteLe16(|payload|) && f[6..6 + |payload|] == payload
  {
    var body := [VERSION, kind] + WriteLe16(|payload|) + payload;
    [MAGIC0, MAGIC1] + body + WriteLe16(l.checksum(body))
  }

  /** Field by field: magic, version, type, length, payload, and the checksum of all from version to payload. */
  lemma FrameLayout(l: Link, kind: byte, payload: seq<byte>)
    requires |payload| <= MAX_PAYLOAD
    ensures
      var f, end := EncodeFrame(l, kind, payload), 6 + |payload|;
      && |f| == end + 2 && f[..4] == [0xA5, 0x53, 0x01, kind] && Le16At(f, 4, |payload|) && f[6..end] == payload
      && Le16At(f, end, l.checksum(f[2..end]))
  {
    hide WriteLe16, Le16At;
    var f, end := EncodeFrame(l, kind, payload), 6 + |payload|;
    var body := [VERSION, kind] + WriteLe16(|payload|) + payload;
    assert f[2..end] == body;
    assert f[end..end + 2] == WriteLe16(l.checksum(body));
    Le16Within(f, 4, |payload|);
    Le16Within(f, end, l.checksum(body));
  }

  predicate NoMagic(noise: seq<byte>)
  {
    forall i :: 0 <= i < |noise| ==> !MagicAt(noise, i)
  }

  /** Between frames: nothing buffered but perhaps a lone first magic byte. */
  predicate Idle(s: State)
  {
    s.buf == [] || s.buf == [MAGIC0]
  }

  predicate SameRecord(s: State, t: State)
  {
    s.log == t.log && s.crcErrors == t.crcErrors && s.resyncs == t.resyncs
  }

  lemma {:induction false} NoisePasses(l: Link, s: State, noise: seq<byte>)
    requires s.buf == [] && NoMagic(noise)
    ensures
      var t := l.PushAll(s, noise, 0);
      SameRecord(s, t) && t.buf == if noise != [] && noise[|noise| - 1] == MAGIC0 then [MAGIC0] else []
    decreases |noise|
  {
    hide Link.Turn;
    if noise != [] {
      var n := |noise| - 1;
      var before := noise[..n];
      forall i | 0 <= i < n ensures !MagicAt(before, i) {
        assert !MagicAt(noise, i);
      }
      NoisePasses(l, s, before);
      if n > 0 {
        assert !MagicAt(noise, n - 1);
      }
    }
  }

  /** The buffer is empty or starts out like the magic pair. */
  predicate Opens(buf: seq<byte>)
  {
    (|buf| >= 1 ==> buf[0] == MAGIC0) && (|buf| >= 2 ==> buf[1] == MAGIC1)
  }

  lemma WaitPrefix(l: Link, f: seq<byte>, k: nat)
    requires l.Judge(f).Wait? && k <= |f|
    ensures l.Judge(f[..k]).Wait?
  {
    if k >= HDR {
      assert f[..k][4] == f[4] && f[..k][5] == f[5];
    }
  }

  lemma WaitingPush(l: Link, s: State, b: byte)
    requires l.Judge(Append(s, b).buf).Wait?
    ensures l.Push(s, b, 0) == Append(s, b).(lastByteMs := 0)
  {
    hide Link.Judge;
    assert Append(s.(lastByteMs := 0), b) == Append(s, b).(lastByteMs := 0);
  }

  lemma BufferOne(s: State, f: seq<byte>)
    requires f != [] && Opens(f)
    requires if |f| == 1 then Idle(s) else s.buf == f[..|f| - 1]
    ensures
      var t := Append(s, f[|f| - 1]);
      SameRecord(s, t) && t.buf == f && t.base == s.base + if |f| == 1 then |s.buf| else 0
  {
    assert f[..|f| - 1] + [f[|f| - 1]] == f;
  }

  /** As long as a candidate is incomplete it is only buffered. */
  lemma {:induction false} Buffering(l: Link, s: State, f: seq<byte>)
    requires Idle(s) && f != [] && Opens(f) && l.Judge(f).Wait?
    ensures
      var t := l.PushAll(s, f, 0);
      SameRecord(s, t) && t.buf == f && t.base == s.base + |s.buf|
    decreases |f|
  {
    hide Link.Push, Link.Judge, Append;
    var n := |f| - 1;
    if n > 0 {
      WaitPrefix(l, f, n);
      Buffering(l, s, f[..n]);
    }
    var t := l.PushAll(s, f[..n], 0);
    BufferOne(t, f);
    WaitingPush(l, t, f[n]);
  }

  /** The byte that decides on a candidate finds it whole in the buffer. */
  lemma LastByte(l: Link, s: State, f: seq<byte>) returns (t: State)
    requires Idle(s) && |f| > 2 && Opens(f) && l.Judge(f[..|f| - 1]).Wait?
    ensures SameRecord(s, t) && t.buf == f && t.base == s.base + |s.buf|
    ensures l.PushAll(s, f, 0) == l.Drain(t)
  {
    hide Link.Turn, Link.Drain, Link.Judge;
    var n := |f| - 1;
    Buffering(l, s, f[..n]);
    t := Append(l.PushAll(s, f[..n], 0).(lastByteMs := 0), f[n]);
    assert f[..n] + [f[n]] == f;
  }

  /** A candidate that opens with the magic pair and declares its own length. */
  predicate Candidate(f: seq<byte>)
  {
    && MagicAt(f, 0)
    && HDR <= |f|
    && ReadLe16(f[4], f[5]) <= MAX_PAYLOAD
    && |f| == HDR + ReadLe16(f[4], f[5]) + CRC
  }

  lemma CandidateWaits(l: Link, f: seq<byte>)
    requires Candidate(f)
    ensures |f| > 2 && Opens(f) && l.Judge(f[..|f| - 1]).Wait?
  {
    var g := f[..|f| - 1];
    assert g[4] == f[4] && g[5] == f[5];
  }

  lemma EncodedIsGood(l: Link, kind: byte, payload: seq<byte>)
    requires |payload| <= MAX_PAYLOAD
    ensures
      var f := EncodeFrame(l, kind, payload);
      Candidate(f) && f[2] == VERSION && f[3] == kind && l.Judge(f) == Good(|payload|)
  {
    var f := EncodeFrame(l, kind, payload);
    var body := [VERSION, kind] + WriteLe16(|payload|) + payload;
    assert f[4] == f[4..6][0] && f[5] == f[4..6][1];
    assert f[2..HDR + |payload|] == body;
  }

  function Deliverable(kind: byte, payload: seq<byte>): seq<Frame>
  {
    if kind in DISPATCHABLE then [Frame(kind, payload)] else []
  }

  /** An encoded frame empties the buffer, counts no error, and is dispatched if its type is known. */
  lemma FramePasses(l: Link, s: State, kind: byte, payload: seq<byte>)
    requires Idle(s) && |payload| <= MAX_PAYLOAD
    ensures
      var t := l.PushAll(s, EncodeFrame(l, kind, payload), 0);
      && t.buf == [] && t.crcErrors == s.crcErrors && t.resyncs == s.resyncs
      && Dispatched(t.log) == Dispatched(s.log) + Deliverable(kind, payload)
  {
    var f := EncodeFrame(l, kind, payload);
    EncodedIsGood(l, kind, payload);
    CandidateWaits(l, f);
    var t := LastByte(l, s, f);
    var u := Accept(t, |payload|);
    assert l.Drain(t) == l.Drain(u) == u;
    assert u.log[..|u.log| - 1] == t.log;
  }

  // ---- an empty chunk can give up two candidates ----

  /** A magic pair and a first magic byte, then an empty chunk after 501 ms, and another. */
  function Impatient(): seq<Chunk>
  {
    [Chunk([MAGIC0, MAGIC1, MAGIC0], 0), Chunk([], 501), Chunk([], 501)]
  }

  lemma PairExpires(s: State)
    requires s.buf == [MAGIC0, MAGIC1, MAGIC0] && s.lastByteMs == 0
    ensures
      var t := Expire(s, 501);
      && t.buf == [MAGIC0] && t.base == s.base + 2 && t.lastByteMs == 0 && t.log == s.log + [TimedOut(s.base, 501)]
      && Expire(t, 501).log == t.log + [TimedOut(t.base, 501)]
  {
    DroppedIsLeast(s.buf, 1);
    assert !MagicAt(s.buf, 1) && s.buf[2] == MAGIC0;
  }

  /** The first empty chunk gives up one candidate, the second, at the same time, another. */
  lemma EmptyFeedExpiresTwice(l: Link)
    ensures l.Run(FRESH, Impatient()[..2]).log == [TimedOut(0, 501)]
    ensures l.Run(FRESH, Impatient()).log == [TimedOut(0, 501), TimedOut(2, 501)]
  {
    hide Link.PushAll, Expire, Append, Link.Judge, Wrap32;
    var f := [MAGIC0, MAGIC1, MAGIC0];
    ShortWaits(l, f);
    var chunks := Impatient();
    assert chunks[..2][..1] == chunks[..1] && chunks[..1] == [Chunk(f, 0)];
    FirstChunk(l, f);
    Buffering(l, FRESH, f);
    PushAllGrowsLog(l, FRESH, f, 0);
    var s := l.PushAll(FRESH, f, 0);
    PairExpires(s);
    NothingFed(l, Expire(s, 501));
    NothingFed(l, Expire(Expire(s, 501), 501));
  }

  lemma ShortWaits(l: Link, f: seq<byte>)
    requires |f| < HDR
    ensures l.Judge(f).Wait?
  {
  }

  lemma FirstChunk(l: Link, f: seq<byte>)
    ensures Stream([Chunk(f, 0)]) == f
    ensures l.Run(FRESH, [Chunk(f, 0)]) == l.PushAll(FRESH, f, 0)
  {
    var chunks := [Chunk(f, 0)];
    assert chunks[..0] == [];
    assert l.Run(FRESH, chunks[..0]) == FRESH;
  }

  lemma NothingFed(l: Link, s: State)
    ensures l.PushAll(s, [], 501) == s
  {
  }

  // ---- delivery ----

  datatype Segment = Segment(noise: seq<byte>, kind: byte, payload: seq<byte>)

  predicate Sendable(segments: seq<Segment>)
  {
    forall i :: 0 <= i < |segments| ==> NoMagic(segments[i].noise) && |segments[i].payload| <= MAX_PAYLOAD
  }

  function OnWire(l: Link, segments: seq<Segment>): seq<byte>
    requires Sendable(segments)
  {
    if segments == [] then [] else
      var g := segments[|segments| - 1];
      OnWire(l, segments[..|segments| - 1]) + g.noise + EncodeFrame(l, g.kind, g.payload)
  }

  function Expected(segments: seq<Segment>): seq<Frame>
  {
    if segments == [] then [] else
      var g := segments[|segments| - 1];
      Expected(segments[..|segments| - 1]) + Deliverable(g.kind, g.payload)
  }

  ghost predicate Clean(s: State, sent: seq<Frame>)
  {
    s.crcErrors == 0 && s.resyncs == 0 && Dispatched(s.log) == sent
  }

  lemma {:induction false} WirePasses(l: Link, s: State, segments: seq<Segment>)
    requires s.buf == [] && Sendable(segments)
    ensures
      var t := l.PushAll(s, OnWire(l, segments), 0);
      && t.buf == [] && t.crcErrors == s.crcErrors && t.resyncs == s.resyncs
      && Dispatched(t.log) == Dispatched(s.log) + Expected(segments)
    decreases |segments|
  {
    hide Dispatched, EncodeFrame, Link.PushAll;
    if segments == [] {
      NothingPushed(l, s);
    } else {
      var n := |segments| - 1;
      var g, before := segments[n], OnWire(l, segments[..n]);
      WirePasses(l, s, segments[..n]);
      var t := l.PushAll(s, before, 0);
      NoisePasses(l, t, g.noise);
      FramePasses(l, l.PushAll(t, g.noise, 0), g.kind, g.payload);
      PushAllAppend(l, s, before + g.noise, EncodeFrame(l, g.kind, g.payload), 0);
      PushAllAppend(l, s, before, g.noise, 0);
    }
  }

  lemma NothingPushed(l: Link, s: State)
    ensures l.PushAll(s, [], 0) == s
  {
  }

  /**
   Whatever the chunking, a prompt transmission of encoded frames between stretches of
   magic-free noise is dispatched exactly and in order, and counts no error.
   */
  lemma Delivery(l: Link, segments: seq<Segment>, after: seq<byte>, chunks: seq<Chunk>)
    requires Sendable(segments) && NoMagic(after)
    requires Prompt(chunks) && Stream(chunks) == OnWire(l, segments) + after
    ensures
      var s := l.Run(FRESH, chunks);
      Clean(s, Expected(segments)) && s.buf == if after != [] && after[|after| - 1] == MAGIC0 then [MAGIC0] else []
  {
    PromptRun(l, chunks);
    WirePasses(l, FRESH, segments);
    PushAllAppend(l, FRESH, OnWire(l, segments), after, 0);
    NoisePasses(l, l.PushAll(FRESH, OnWire(l, segments), 0), after);
  }
}
