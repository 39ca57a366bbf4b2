/**
 When an accepted frame is known to follow the magic pair.

 The header's parser rules ask for frames found by scanning for the pair. The code keeps
 that as long as no candidate has been rejected, and which byte streams have none rejected
 can be read off the bytes. After a rejection it may accept a frame from the middle of its
 buffer, and then takes what follows as the next candidate unscanned.
 */
module FramingMagic {
  import opened Bytes
  import opened Framing
  import opened FramingSafety
  import opened FramingDelivery

  predicate AllAccepted(log: seq<Event>)
  {
    forall k :: 0 <= k < |log| ==> log[k].Accepted?
  }

  // ---- the streams that are taken without a rejection ----

  /**
   Every candidate found by scanning for the pair, from the end of the one before, is intact;
   the last may be incomplete.
   */
  predicate WellFramed(l: Link, b: seq<byte>)
    decreases |b|
  {
    var q := FirstMagic(b);
    || q == |b|
    || match l.Judge(b[q..])
       case Wait => true
       case Good(plen) => WellFramed(l, b[q..][HDR + plen + CRC..])
       case _ => false
  }

  /** The first bytes that decide on a candidate, and what they say. */
  lemma Decided(l: Link, c: seq<byte>) returns (n: nat)
    requires !l.Judge(c).Wait?
    ensures 2 < n <= |c| && l.Judge(c[..n]) == l.Judge(c) && l.Judge(c[..n - 1]).Wait?
    ensures l.Judge(c).Good? ==> n == HDR + l.Judge(c).plen + CRC
  {
    var plen := ReadLe16(c[4], c[5]);
    n := if plen > MAX_PAYLOAD then HDR else HDR + plen + CRC;
    var f, g := c[..n], c[..n - 1];
    assert f[4] == c[4] && f[5] == c[5];
    if plen <= MAX_PAYLOAD {
      assert g[4] == c[4] && g[5] == c[5];
      assert f[2..HDR + plen] == c[2..HDR + plen];
    }
  }

  /** Once something has been rejected, it stays in the log. */
  lemma RejectionStays(s: State, t: State)
    requires Grows(s, t) && !AllAccepted(s.log)
    ensures !AllAccepted(t.log)
  {
    var k :| 0 <= k < |s.log| && !s.log[k].Accepted?;
    assert t.log[k] == s.log[k];
  }

  lemma OpensFrom(c: seq<byte>, n: nat)
    requires MagicAt(c, 0) && n <= |c|
    ensures Opens(c[..n])
  {
  }

  /** What is left to do once the deciding byte has come. */
  lemma Deciding(l: Link, s: State, c: seq<byte>) returns (n: nat, t: State)
    requires Idle(s) && MagicAt(c, 0) && !l.Judge(c).Wait?
    ensures 2 < n <= |c| && (l.Judge(c).Good? ==> n == HDR + l.Judge(c).plen + CRC)
    ensures t.log == s.log && t.buf == c[..n] && l.Judge(t.buf) == l.Judge(c)
    ensures l.PushAll(s, c, 0) == l.PushAll(l.Drain(t), c[n..], 0)
  {
    hide Link.Judge, Link.Drain, Link.PushAll;
    n := Decided(l, c);
    OpensFrom(c, n);
    assert c[..n][..n - 1] == c[..n - 1] && c == c[..n] + c[n..];
    t := LastByte(l, s, c[..n]);
    PushAllAppend(l, s, c[..n], c[n..], 0);
  }

  lemma BadCandidateRejected(l: Link, s: State, c: seq<byte>)
    requires Idle(s) && MagicAt(c, 0) && (l.Judge(c).TooLong? || l.Judge(c).Corrupt?)
    ensures !AllAccepted(l.PushAll(s, c, 0).log)
  {
    hide Link.PushAll;
    var n, t := Deciding(l, s, c);
    var u := l.Turn(t);
    assert !u.log[|t.log|].Accepted?;
    DrainGrowsLog(l, u);
    RejectionStays(u, l.Drain(u));
    PushAllGrowsLog(l, l.Drain(t), c[n..], 0);
    RejectionStays(l.Drain(t), l.PushAll(l.Drain(t), c[n..], 0));
  }

  lemma GoodCandidateTaken(l: Link, s: State, c: seq<byte>) returns (u: State)
    requires Idle(s) && MagicAt(c, 0) && l.Judge(c).Good? && AllAccepted(s.log)
    ensures u.buf == [] && AllAccepted(u.log)
    ensures l.PushAll(s, c, 0) == l.PushAll(u, c[HDR + l.Judge(c).plen + CRC..], 0)
  {
    hide Link.PushAll;
    var n, t := Deciding(l, s, c);
    u := l.Turn(t);
    assert l.Drain(t) == l.Drain(u) == u;
  }

  lemma IncompleteIsHeld(l: Link, s: State, c: seq<byte>)
    requires Idle(s) && MagicAt(c, 0) && l.Judge(c).Wait?
    ensures l.PushAll(s, c, 0).log == s.log
  {
    Buffering(l, s, c);
  }

  /** The bytes before the first pair leave no trace. */
  lemma SkipNoise(l: Link, s: State, b: seq<byte>) returns (t: State)
    requires s.buf == []
    ensures Idle(t) && t.log == s.log
    ensures l.PushAll(s, b, 0) == l.PushAll(t, b[FirstMagic(b)..], 0)
  {
    hide Link.PushAll;
    var q := FirstMagic(b);
    FirstMagicIsFirst(b);
    var noise := b[..q];
    forall i | 0 <= i < |noise| ensures !MagicAt(noise, i) {
      assert !MagicAt(b, i);
    }
    NoisePasses(l, s, noise);
    assert b == noise + b[q..];
    PushAllAppend(l, s, noise, b[q..], 0);
    t := l.PushAll(s, noise, 0);
  }

  lemma FirstMagicOpens(b: seq<byte>)
    requires FirstMagic(b) < |b|
    ensures MagicAt(b[FirstMagic(b)..], 0)
  {
    FirstMagicIsFirst(b);
  }

  lemma NothingMore(l: Link, t: State, b: seq<byte>)
    requires FirstMagic(b) == |b|
    ensures l.PushAll(t, b[FirstMagic(b)..], 0) == t
  {
  }

  lemma {:induction false} AcceptedIffWellFramed(l: Link, s: State, b: seq<byte>)
    requires s.buf == [] && AllAccepted(s.log)
    ensures AllAccepted(l.PushAll(s, b, 0).log) <==> WellFramed(l, b)
    decreases |b|
  {
    hide Link.Judge, Link.PushAll, FirstMagic, MagicAt;
    var t := SkipNoise(l, s, b);
    if FirstMagic(b) == |b| {
      NothingMore(l, t, b);
    } else {
      FirstMagicOpens(b);
      var c := b[FirstMagic(b)..];
      match l.Judge(c)
      case Wait => IncompleteIsHeld(l, t, c);
      case Good(plen) =>
        var u := GoodCandidateTaken(l, t, c);
        AcceptedIffWellFramed(l, u, c[HDR + plen + CRC..]);
      case _ => BadCandidateRejected(l, t, c);
    }
  }

  /** A prompt run rejects nothing exactly when its bytes are well framed. */
  lemma NothingRejectedIff(l: Link, chunks: seq<Chunk>)
    requires Prompt(chunks)
    ensures AllAccepted(l.Run(FRESH, chunks).log) <==> WellFramed(l, Stream(chunks))
  {
    hide WellFramed, Prompt, Link.Run, Link.PushAll;
    PromptRun(l, chunks);
    AcceptedIffWellFramed(l, FRESH, Stream(chunks));
    assert Untimed(l.Run(FRESH, chunks)).log == l.Run(FRESH, chunks).log;
  }

  // ---- until a rejection, every accepted frame follows the pair ----

  /** Frames accepted before anything was rejected follow the pair. */
  ghost predicate Paired(log: seq<Event>, fed: seq<byte>)
  {
    forall k :: 0 <= k < |log| && log[k].Accepted? && AllAccepted(log[..k]) ==> MagicAt(fed, log[k].start)
  }

  /** The buffer is the tail of the stream and starts out like the pair. */
  predicate Framed(s: State, fed: seq<byte>)
  {
    Opens(s.buf) && s.base + |s.buf| == |fed| && s.buf == fed[s.base..]
  }

  ghost predicate Orderly(l: Link, s: State, fed: seq<byte>)
  {
    Paired(s.log, fed) && (AllAccepted(s.log) ==> l.Judge(s.buf).Wait? && Framed(s, fed))
  }

  lemma PairedGrows(log: seq<Event>, more: seq<Event>, fed: seq<byte>, j: nat)
    requires Paired(log, fed) && log <= more && j <= |log| && j < |more| && !more[j].Accepted?
    ensures Paired(more, fed) && !AllAccepted(more)
  {
    forall k | 0 <= k < |more| && more[k].Accepted? && AllAccepted(more[..k])
      ensures MagicAt(fed, more[k].start)
    {
      if k < j {
        assert log[k] == more[k] && log[..k] == more[..k];
      }
    }
  }

  lemma PairedExtends(log: seq<Event>, fed: seq<byte>, b: byte)
    requires Paired(log, fed)
    ensures Paired(log, fed + [b])
  {
    forall k | 0 <= k < |log| && log[k].Accepted? && AllAccepted(log[..k])
      ensures MagicAt(fed + [b], log[k].start)
    {
      assert MagicAt(fed, log[k].start);
    }
  }

  lemma PairedAccepts(log: seq<Event>, e: Event, fed: seq<byte>)
    requires Paired(log, fed) && MagicAt(fed, e.start)
    ensures Paired(log + [e], fed)
  {
    var more := log + [e];
    forall k | 0 <= k < |more| && more[k].Accepted? && AllAccepted(more[..k])
      ensures MagicAt(fed, more[k].start)
    {
      if k < |log| {
        assert log[k] == more[k] && log[..k] == more[..k];
      }
    }
  }

  /** One byte more completes a waiting candidate exactly. */
  lemma CompletesExactly(l: Link, buf: seq<byte>, b: byte)
    requires l.Judge(buf).Wait? && l.Judge(buf + [b]).Good?
    ensures HDR + l.Judge(buf + [b]).plen + CRC == |buf| + 1
  {
    var more := buf + [b];
    if |buf| >= HDR {
      assert more[4] == buf[4] && more[5] == buf[5];
    }
  }

  lemma AppendFramed(l: Link, s: State, b: byte, fed: seq<byte>)
    requires Framed(s, fed) && l.Judge(s.buf).Wait?
    ensures
      var t := Append(s, b);
      && Framed(t, fed + [b]) && t.log == s.log
      && (l.Judge(t.buf).Good? ==> HDR + l.Judge(t.buf).plen + CRC == |t.buf|)
  {
    var more := fed + [b];
    if |s.buf| >= 2 {
      assert more[s.base..] == s.buf + [b];
      if l.Judge(s.buf + [b]).Good? {
        CompletesExactly(l, s.buf, b);
      }
    }
  }

  lemma DrainFramed(l: Link, s: State, fed: seq<byte>)
    requires Framed(s, fed) && Paired(s.log, fed)
    requires l.Judge(s.buf).Good? ==> HDR + l.Judge(s.buf).plen + CRC == |s.buf|
    ensures Orderly(l, l.Drain(s), fed)
  {
    hide Paired;
    match l.Judge(s.buf)
    case Wait =>
    case Good(plen) =>
      var t := Accept(s, plen);
      assert l.Drain(s) == l.Drain(t) == t;
      assert MagicAt(fed, s.base);
      PairedAccepts(s.log, t.log[|s.log|], fed);
    case _ =>
      var t := l.Turn(s);
      DrainGrowsLog(l, t);
      assert l.Drain(s) == l.Drain(t);
      PairedGrows(s.log, l.Drain(t).log, fed, |s.log|);
  }

  lemma PushOrderly(l: Link, s: State, b: byte, now: dword, fed: seq<byte>)
    requires Orderly(l, s, fed)
    ensures Orderly(l, l.Push(s, b, now), fed + [b])
  {
    hide Paired, Link.Drain, Link.Judge, Framed, Append;
    var t := s.(lastByteMs := now);
    PairedExtends(s.log, fed, b);
    AppendKeepsLog(t, b);
    if AllAccepted(s.log) {
      assert Framed(t, fed) by { FramedUntimed(s, t, fed); }
      AppendFramed(l, t, b, fed);
      DrainFramed(l, Append(t, b), fed + [b]);
    } else {
      var k :| 0 <= k < |s.log| && !s.log[k].Accepted?;
      DrainGrowsLog(l, Append(t, b));
      PairedGrows(s.log, l.Push(s, b, now).log, fed + [b], k);
    }
  }

  lemma AppendKeepsLog(s: State, b: byte)
    ensures Append(s, b).log == s.log
  {
  }

  lemma FramedUntimed(s: State, t: State, fed: seq<byte>)
    requires Framed(s, fed) && t.buf == s.buf && t.base == s.base
    ensures Framed(t, fed)
  {
  }

  lemma ExpireOrderly(l: Link, s: State, now: dword, fed: seq<byte>)
    requires Orderly(l, s, fed)
    ensures Orderly(l, Expire(s, now), fed)
  {
    hide Paired, Wrap32;
    if Stale(s, now) {
      PairedGrows(s.log, Expire(s, now).log, fed, |s.log|);
    }
  }

  // ---- in every run, where a frame without the pair can sit ----

  /** Such bytes as there are from q on look like the pair. */
  predicate OpensAt(fed: seq<byte>, q: nat)
  {
    q < |fed| ==> MayBeMagic(fed, q)
  }

  /** The last decision was an acceptance that ends at q. */
  predicate Follows(log: seq<Event>, q: nat)
  {
    log != [] && log[|log| - 1].Accepted? && End(log[|log| - 1]) == q
  }

  ghost predicate Placed(log: seq<Event>, fed: seq<byte>)
  {
    forall k :: 0 <= k < |log| && log[k].Accepted? ==> MagicAt(fed, log[k].start) || Follows(log[..k], log[k].start)
  }

  ghost predicate Anchored(s: State, fed: seq<byte>)
  {
    HoldsTail(s, fed) && Placed(s.log, fed) && (OpensAt(fed, s.base) || Follows(s.log, s.base))
  }

  lemma PlacedNext(log: seq<Event>, e: Event, fed: seq<byte>)
    requires Placed(log, fed) && (e.Accepted? ==> MagicAt(fed, e.start) || Follows(log, e.start))
    ensures Placed(log + [e], fed)
  {
    var more := log + [e];
    forall k | 0 <= k < |more| && more[k].Accepted?
      ensures MagicAt(fed, more[k].start) || Follows(more[..k], more[k].start)
    {
      assert more[..k] == log[..k];
      assert log[..|log|] == log;
    }
  }

  lemma RejectAnchored(s: State, e: Event, fed: seq<byte>)
    requires Anchored(s, fed) && 0 < |s.buf| && !e.Accepted?
    ensures Anchored(Reject(s, e), fed)
  {
    PlacedNext(s.log, e, fed);
    DroppedIsLeast(s.buf, 1);
    var k := Dropped(s.buf, 1);
    assert k < |s.buf| ==> s.buf[k] == fed[s.base + k];
    assert k + 1 < |s.buf| ==> s.buf[k + 1] == fed[s.base + k + 1];
  }

  lemma AcceptAnchored(s: State, plen: nat, fed: seq<byte>)
    requires Anchored(s, fed) && HDR + plen + CRC <= |s.buf|
    ensures Anchored(Accept(s, plen), fed)
  {
    PlacedNext(s.log, Accepted(s.base, s.buf[2], s.buf[3], s.buf[HDR..HDR + plen]), fed);
  }

  lemma {:induction false} DrainAnchored(l: Link, s: State, fed: seq<byte>)
    requires Anchored(s, fed)
    ensures Anchored(l.Drain(s), fed)
    decreases |s.buf|
  {
    hide Anchored, Reject, Accept;
    match l.Judge(s.buf)
    case Wait =>
    case TooLong =>
      RejectAnchored(s, Oversize(s.base), fed);
      DrainAnchored(l, l.Turn(s), fed);
    case Corrupt =>
      var t := s.(crcErrors := Wrap32(s.crcErrors + 1));
      AnchoredStill(s, t, fed);
      RejectAnchored(t, BadCrc(s.base), fed);
      DrainAnchored(l, l.Turn(s), fed);
    case Good(plen) =>
      AcceptAnchored(s, plen, fed);
      DrainAnchored(l, l.Turn(s), fed);
  }

  lemma AnchoredStill(s: State, t: State, fed: seq<byte>)
    requires Anchored(s, fed) && t.buf == s.buf && t.base == s.base && t.log == s.log
    ensures Anchored(t, fed)
  {
  }

  lemma AppendAnchored(s: State, b: byte, fed: seq<byte>)
    requires Anchored(s, fed)
    ensures Anchored(Append(s, b), fed + [b])
  {
    var more := fed + [b];
    forall k | 0 <= k < |s.log| && s.log[k].Accepted?
      ensures MagicAt(more, s.log[k].start) || Follows(s.log[..k], s.log[k].start)
    {
      assert MagicAt(fed, s.log[k].start) ==> MagicAt(more, s.log[k].start);
    }
  }

  // ---- both, over whole runs ----

  ghost predicate Kept(l: Link, s: State, fed: seq<byte>)
  {
    Orderly(l, s, fed) && Anchored(s, fed)
  }

  lemma PushKept(l: Link, s: State, b: byte, now: dword, fed: seq<byte>)
    requires Kept(l, s, fed)
    ensures Kept(l, l.Push(s, b, now), fed + [b])
  {
    hide Orderly, Anchored, Append, Link.Drain;
    PushOrderly(l, s, b, now, fed);
    var t := s.(lastByteMs := now);
    AnchoredStill(s, t, fed);
    AppendAnchored(t, b, fed);
    DrainAnchored(l, Append(t, b), fed + [b]);
  }

  lemma {:induction false} PushAllKept(l: Link, s: State, bytes: seq<byte>, now: dword, fed: seq<byte>)
    requires Kept(l, s, fed)
    ensures Kept(l, l.PushAll(s, bytes, now), fed + bytes)
    decreases |bytes|
  {
    hide Kept;
    if bytes == [] {
      assert fed + bytes == fed;
    } else {
      var n := |bytes| - 1;
      PushAllKept(l, s, bytes[..n], now, fed);
      PushKept(l, l.PushAll(s, bytes[..n], now), bytes[n], now, fed + bytes[..n]);
      assert fed + bytes[..n] + [bytes[n]] == fed + bytes;
    }
  }

  lemma ExpireKept(l: Link, s: State, now: dword, fed: seq<byte>)
    requires Kept(l, s, fed)
    ensures Kept(l, Expire(s, now), fed)
  {
    hide Orderly, Anchored, Wrap32, Reject;
    ExpireOrderly(l, s, now, fed);
    if Stale(s, now) {
      RejectAnchored(s, TimedOut(s.base, Wrap32(now - s.lastByteMs)), fed);
    }
  }

  lemma {:induction false} RunKept(l: Link, chunks: seq<Chunk>)
    ensures Kept(l, l.Run(FRESH, chunks), Stream(chunks))
    decreases |chunks|
  {
    if chunks != [] {
      var n := |chunks| - 1;
      RunKept(l, chunks[..n]);
      StepKept(l, chunks);
    }
  }

  lemma StepKept(l: Link, chunks: seq<Chunk>)
    requires chunks != []
    requires Kept(l, l.Run(FRESH, chunks[..|chunks| - 1]), Stream(chunks[..|chunks| - 1]))
    ensures Kept(l, l.Run(FRESH, chunks), Stream(chunks))
  {
    hide Kept, Expire, Link.PushAll;
    var n := |chunks| - 1;
    var s, fed, c := l.Run(FRESH, chunks[..n]), Stream(chunks[..n]), chunks[n];
    ExpireKept(l, s, c.now, fed);
    PushAllKept(l, Expire(s, c.now), c.bytes, c.now, fed);
  }

  /** In every run, a frame accepted before anything was rejected follows the magic pair. */
  lemma MagicUntilRejection(l: Link, chunks: seq<Chunk>, k: nat)
    requires k < |l.Run(FRESH, chunks).log| && l.Run(FRESH, chunks).log[k].Accepted?
    requires AllAccepted(l.Run(FRESH, chunks).log[..k])
    ensures MagicAt(Stream(chunks), l.Run(FRESH, chunks).log[k].start)
  {
    hide Link.Run, Anchored;
    RunKept(l, chunks);
  }

  /** Prompt, well-framed bytes: every candidate is accepted, and behind its magic pair. */
  lemma WellFramedIsPaired(l: Link, chunks: seq<Chunk>, k: nat)
    requires Prompt(chunks) && WellFramed(l, Stream(chunks)) && k < |l.Run(FRESH, chunks).log|
    ensures l.Run(FRESH, chunks).log[k].Accepted? && MagicAt(Stream(chunks), l.Run(FRESH, chunks).log[k].start)
  {
    hide Link.Run, WellFramed, Prompt;
    NothingRejectedIff(l, chunks);
    MagicUntilRejection(l, chunks, k);
  }

  /**
   In every run, a frame accepted without the pair comes straight after another accepted frame,
   and some candidate was rejected before.
   */
  lemma BareFrameSits(l: Link, chunks: seq<Chunk>, k: nat) returns (j: nat)
    requires k < |l.Run(FRESH, chunks).log| && l.Run(FRESH, chunks).log[k].Accepted?
    requires !MagicAt(Stream(chunks), l.Run(FRESH, chunks).log[k].start)
    ensures
      var log := l.Run(FRESH, chunks).log;
      && j + 1 < k && !log[j].Accepted?
      && log[k - 1].Accepted? && End(log[k - 1]) == log[k].start
  {
    hide Link.Run, Orderly;
    var log := l.Run(FRESH, chunks).log;
    RunKept(l, chunks);
    assert Follows(log[..k], log[k].start);
    if AllAccepted(log[..k]) {
      MagicUntilRejection(l, chunks, k);
    }
    j :| 0 <= j < k && !log[..k][j].Accepted?;
  }

  // ---- after a rejection it can fail ----

  /** A PING frame whose magic pair has been overwritten. */
  function BarePing(l: Link): (f: seq<byte>)
    ensures |f| == 8
  {
    [0, 0] + EncodeFrame(l, 2, [])[2..]
  }

  /** A frame with a wrong checksum whose payload is a PING and then a bare PING. */
  function Trap(l: Link): (f: seq<byte>)
    ensures |f| == 24 && Candidate(f)
  {
    var inner := EncodeFrame(l, 2, []) + BarePing(l);
    var body := [VERSION, 2] + WriteLe16(16) + inner;
    [MAGIC0, MAGIC1] + body + WriteLe16((l.checksum(body) + 1) % 0x1_0000)
  }

  lemma TrapIsCorrupt(l: Link)
    ensures l.Judge(Trap(l)).Corrupt?
  {
    var f := Trap(l);
    var body := [VERSION, 2] + WriteLe16(16) + (EncodeFrame(l, 2, []) + BarePing(l));
    assert f[2..22] == body;
    assert f[4] == 16 && f[5] == 0;
  }

  lemma TrapDropsHeader(f: seq<byte>)
    requires |f| == 24 && f[1..8] == [MAGIC1, VERSION, 2, 16, 0, MAGIC0, MAGIC1]
    ensures Dropped(f, 1) == 6
  {
    var k := Dropped(f, 1);
    DroppedIsLeast(f, 1);
    forall i | 1 <= i < 8 ensures f[i] == [MAGIC1, VERSION, 2, 16, 0, MAGIC0, MAGIC1][i - 1] {
      assert f[i] == f[1..8][i - 1];
    }
    assert MagicAt(f, 6);
    assert k <= 6;
    assert k >= 6;
  }

  lemma TrapHoldsPings(l: Link)
    ensures Trap(l)[8..14] == EncodeFrame(l, 2, [])[2..8] == Trap(l)[16..22]
    ensures Trap(l)[14] == 0
    ensures Trap(l)[1..8] == [MAGIC1, VERSION, 2, 16, 0, MAGIC0, MAGIC1]
  {
    hide Candidate;
  }

  /** A buffer that starts with an intact PING, with or without its magic pair. */
  lemma PingPrefixIsGood(l: Link, buf: seq<byte>)
    requires |buf| >= 8 && buf[2..8] == EncodeFrame(l, 2, [])[2..8]
    ensures l.Judge(buf) == Good(0) && buf[2] == VERSION && buf[3] == 2
  {
    var f := EncodeFrame(l, 2, []);
    EncodedIsGood(l, 2, []);
    forall i | 2 <= i < 8 ensures buf[i] == f[i] {
      assert buf[i] == buf[2..8][i - 2];
    }
    assert buf[2..6] == f[2..6];
  }

  /** Rejecting such a buffer exposes both PINGs, and the second is taken without its pair. */
  lemma BothPingsAccepted(l: Link, s: State)
    requires |s.buf| == 24 && s.log == []
    requires l.Judge(s.buf).Corrupt? && Dropped(s.buf, 1) == 6
    requires s.buf[8..14] == EncodeFrame(l, 2, [])[2..8] == s.buf[16..22]
    ensures |l.Drain(s).log| > 2 && l.Drain(s).log[2] == Accepted(s.base + 14, VERSION, 2, [])
  {
    var a := l.Turn(s);
    assert a.buf == s.buf[6..];
    assert a.buf[2..8] == s.buf[8..14];
    PingPrefixIsGood(l, a.buf);
    var b := l.Turn(a);
    assert b.buf == a.buf[8..];
    assert b.buf[2..8] == s.buf[16..22];
    PingPrefixIsGood(l, b.buf);
    var c := l.Turn(b);
    DrainGrowsLog(l, c);
    assert c.log[2] == Accepted(s.base + 14, VERSION, 2, []);
  }

  lemma TrapRuns(l: Link, f: seq<byte>)
    requires |f| == 24 && Candidate(f) && l.Judge(f).Corrupt? && Dropped(f, 1) == 6
    requires f[8..14] == EncodeFrame(l, 2, [])[2..8] == f[16..22]
    ensures
      var s := l.PushAll(FRESH, f, 0);
      |s.log| > 2 && s.log[2] == Accepted(14, VERSION, 2, [])
  {
    CandidateWaits(l, f);
    var s := LastByte(l, FRESH, f);
    BothPingsAccepted(l, s);
  }

  /** For every checksum there is a stream that makes the parser dispatch a frame no magic pair precedes. */
  lemma BareFrameDispatched(l: Link) returns (chunks: seq<Chunk>, k: nat)
    ensures
      var log := l.Run(FRESH, chunks).log;
      && k < |log| && log[k].Accepted? && log[k].version == VERSION && KnownType(log[k].kind)
      && !MagicAt(Stream(chunks), log[k].start)
  {
    hide Trap, EncodeFrame, Dropped, Link.Run, Link.PushAll, Link.Judge, Stream, Candidate;
    var f := Trap(l);
    TrapIsCorrupt(l);
    TrapHoldsPings(l);
    TrapDropsHeader(f);
    TrapRuns(l, f);
    FirstChunk(l, f);
    chunks, k := [Chunk(f, 0)], 2;
  }
}
