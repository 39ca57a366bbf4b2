/** What holds of the frame parser after every run, whatever the bytes, the chunking and the clock. */
module FramingSafety {
  import opened Bytes
  import opened Framing

  // ---- what each logged decision says about the stream ----

  /** A whole candidate lies at `start`, with this payload length. */
  predicate CompleteAt(fed: seq<byte>, start: nat, plen: nat)
  {
    && plen <= MAX_PAYLOAD
    && start + HDR + plen + CRC <= |fed|
    && ReadLe16(fed[start + 4], fed[start + 5]) == plen
  }

  predicate ChecksumAt(l: Link, fed: seq<byte>, start: nat, plen: nat)
    requires CompleteAt(fed, start, plen)
  {
    ReadLe16(fed[start + HDR + plen], fed[start + HDR + plen + 1])
    == l.checksum(fed[start + 2..start + HDR + plen])
  }

  ghost predicate Holds(l: Link, e: Event, fed: seq<byte>)
  {
    match e
    case Accepted(start, version, kind, payload) =>
      && CompleteAt(fed, start, |payload|)
      && fed[start + 2] == version && fed[start + 3] == kind
      && fed[start + HDR..start + HDR + |payload|] == payload
      && ChecksumAt(l, fed, start, |payload|)
    case Oversize(start) =>
      start + HDR <= |fed| && ReadLe16(fed[start + 4], fed[start + 5]) > MAX_PAYLOAD
    case BadCrc(start) =>
      exists plen: nat :: CompleteAt(fed, start, plen) && !ChecksumAt(l, fed, start, plen)
    case TimedOut(start, gap) =>
      start < |fed| && gap > TIMEOUT_MS
  }

  /** The position up to which a decision has consumed the stream. */
  function End(e: Event): nat
  {
    if e.Accepted? then e.start + HDR + |e.payload| + CRC else e.start + 1
  }

  predicate Explains(e: Event, q: nat)
  {
    e.start <= q < End(e)
  }

  // ---- the invariant ----

  /** A magic pair at q, or its first byte at the very end. */
  predicate MayBeMagic(fed: seq<byte>, q: nat)
  {
    q < |fed| && fed[q] == MAGIC0 && (q + 1 < |fed| ==> fed[q + 1] == MAGIC1)
  }

  /** The buffer is the tail of the stream, except that its first byte may be stale. */
  ghost predicate HoldsTail(s: State, fed: seq<byte>)
  {
    && s.base + |s.buf| == |fed|
    && forall i :: 1 <= i < |s.buf| ==> s.buf[i] == fed[s.base + i]
  }

  ghost predicate Recorded(l: Link, log: seq<Event>, fed: seq<byte>, base: nat)
  {
    && (forall k :: 0 <= k < |log| ==> Holds(l, log[k], fed) && End(log[k]) <= base)
    && (forall i, j :: 0 <= i < j < |log| ==> End(log[i]) <= log[j].start)
  }

  ghost predicate Explained(log: seq<Event>, q: nat)
  {
    exists k :: 0 <= k < |log| && Explains(log[k], q)
  }

  ghost predicate NothingSkipped(log: seq<Event>, fed: seq<byte>, base: nat)
  {
    forall q :: 0 <= q < base && MayBeMagic(fed, q) ==> Explained(log, q)
  }

  ghost predicate Inv(l: Link, s: State, fed: seq<byte>)
  {
    HoldsTail(s, fed) && Recorded(l, s.log, fed, s.base) && NothingSkipped(s.log, fed, s.base)
  }

  // ---- it is kept by every step ----

  lemma ExplainedAppend(log: seq<Event>, e: Event, q: nat)
    ensures Explained(log + [e], q) <==> Explained(log, q) || Explains(e, q)
  {
    var longer := log + [e];
    if Explained(log, q) {
      var k :| 0 <= k < |log| && Explains(log[k], q);
      assert Explains(longer[k], q);
    }
    if Explains(e, q) {
      assert Explains(longer[|log|], q);
    }
  }

  lemma DroppedHasNoMagic(s: State, fed: seq<byte>, q: nat)
    requires HoldsTail(s, fed) && 0 < |s.buf|
    requires s.base < q < s.base + Dropped(s.buf, 1)
    ensures !MayBeMagic(fed, q)
  {
    DroppedIsLeast(s.buf, 1);
    var j := q - s.base;
    assert s.buf[j] == fed[q] && !MagicAt(s.buf, j);
    assert j + 1 < |s.buf| ==> s.buf[j + 1] == fed[q + 1];
  }

  lemma RejectKeeps(l: Link, s: State, e: Event, fed: seq<byte>)
    requires Inv(l, s, fed) && 0 < |s.buf|
    requires !e.Accepted? && e.start == s.base && Holds(l, e, fed)
    ensures Inv(l, Reject(s, e), fed)
  {
    var t := Reject(s, e);
    forall q | 0 <= q < t.base && MayBeMagic(fed, q)
      ensures Explained(t.log, q)
    {
      ExplainedAppend(s.log, e, q);
      if q > s.base {
        DroppedHasNoMagic(s, fed, q);
      }
    }
  }

  lemma AcceptHolds(l: Link, s: State, fed: seq<byte>)
    requires HoldsTail(s, fed) && l.Judge(s.buf).Good?
    ensures
      var plen := l.Judge(s.buf).plen;
      Holds(l, Accepted(s.base, s.buf[2], s.buf[3], s.buf[HDR..HDR + plen]), fed)
  {
    var plen := l.Judge(s.buf).plen;
    assert fed[s.base + 2..s.base + HDR + plen] == s.buf[2..HDR + plen];
    assert fed[s.base + HDR..s.base + HDR + plen] == s.buf[HDR..HDR + plen];
  }

  lemma AcceptKeeps(l: Link, s: State, fed: seq<byte>)
    requires Inv(l, s, fed) && l.Judge(s.buf).Good?
    ensures Inv(l, Accept(s, l.Judge(s.buf).plen), fed)
  {
    hide Holds, Explained, Link.Judge;
    var plen := l.Judge(s.buf).plen;
    var t := Accept(s, plen);
    var e := t.log[|s.log|];
    AcceptHolds(l, s, fed);
    forall q | 0 <= q < t.base && MayBeMagic(fed, q)
      ensures Explained(t.log, q)
    {
      ExplainedAppend(s.log, e, q);
    }
  }

  lemma OversizeHolds(l: Link, s: State, fed: seq<byte>)
    requires HoldsTail(s, fed) && l.Judge(s.buf).TooLong?
    ensures Holds(l, Oversize(s.base), fed)
  {
  }

  lemma CorruptHolds(l: Link, s: State, fed: seq<byte>)
    requires HoldsTail(s, fed) && l.Judge(s.buf).Corrupt?
    ensures Holds(l, BadCrc(s.base), fed)
  {
    var plen := ReadLe16(s.buf[4], s.buf[5]);
    assert fed[s.base + 2..s.base + HDR + plen] == s.buf[2..HDR + plen];
    assert CompleteAt(fed, s.base, plen) && !ChecksumAt(l, fed, s.base, plen);
  }

  lemma SameTail(l: Link, s: State, t: State, fed: seq<byte>)
    requires Inv(l, s, fed) && t.buf == s.buf && t.base == s.base && t.log == s.log
    ensures Inv(l, t, fed)
  {
  }

  lemma TurnKeeps(l: Link, s: State, fed: seq<byte>)
    requires Inv(l, s, fed) && !l.Judge(s.buf).Wait?
    ensures Inv(l, l.Turn(s), fed)
  {
    hide Holds, HoldsTail, Recorded, NothingSkipped, Reject, Accept;
    match l.Judge(s.buf)
    case TooLong =>
      OversizeHolds(l, s, fed);
      RejectKeeps(l, s, Oversize(s.base), fed);
    case Corrupt =>
      CorruptHolds(l, s, fed);
      var t := s.(crcErrors := Wrap32(s.crcErrors + 1));
      SameTail(l, s, t, fed);
      RejectKeeps(l, t, BadCrc(s.base), fed);
    case Good(plen) =>
      AcceptKeeps(l, s, fed);
  }

  lemma {:induction false} DrainKeeps(l: Link, s: State, fed: seq<byte>)
    requires Inv(l, s, fed)
    ensures Inv(l, l.Drain(s), fed)
    decreases |s.buf|
  {
    if !l.Judge(s.buf).Wait? {
      TurnKeeps(l, s, fed);
      DrainKeeps(l, l.Turn(s), fed);
    }
  }

  lemma ChecksumExtends(l: Link, fed: seq<byte>, b: byte, start: nat, plen: nat)
    requires CompleteAt(fed, start, plen)
    ensures CompleteAt(fed + [b], start, plen)
    ensures ChecksumAt(l, fed + [b], start, plen) == ChecksumAt(l, fed, start, plen)
  {
    hide ReadLe16;
    assert (fed + [b])[start + 2..start + HDR + plen] == fed[start + 2..start + HDR + plen];
  }

  /** Decisions stay true of a longer stream. */
  lemma HoldsExtends(l: Link, e: Event, fed: seq<byte>, b: byte)
    requires Holds(l, e, fed)
    ensures Holds(l, e, fed + [b])
  {
    hide ReadLe16, ChecksumAt;
    match e
    case Accepted(start, version, kind, payload) =>
      ChecksumExtends(l, fed, b, start, |payload|);
      assert (fed + [b])[start + HDR..start + HDR + |payload|] == fed[start + HDR..start + HDR + |payload|];
    case Oversize(start) =>
    case BadCrc(start) =>
      var plen: nat :| CompleteAt(fed, start, plen) && !ChecksumAt(l, fed, start, plen);
      ChecksumExtends(l, fed, b, start, plen);
      assert CompleteAt(fed + [b], start, plen) && !ChecksumAt(l, fed + [b], start, plen);
    case TimedOut(start, gap) =>
  }

  lemma AppendKeeps(l: Link, s: State, b: byte, fed: seq<byte>)
    requires Inv(l, s, fed)
    ensures Inv(l, Append(s, b), fed + [b])
  {
    var t, more := Append(s, b), fed + [b];
    forall k | 0 <= k < |s.log| ensures Holds(l, s.log[k], more) {
      HoldsExtends(l, s.log[k], fed, b);
    }
    forall q | 0 <= q < t.base && MayBeMagic(more, q) ensures Explained(t.log, q) {
      assert MayBeMagic(fed, q);
    }
  }

  lemma PushKeeps(l: Link, s: State, b: byte, now: dword, fed: seq<byte>)
    requires Inv(l, s, fed)
    ensures Inv(l, l.Push(s, b, now), fed + [b])
  {
    AppendKeeps(l, s.(lastByteMs := now), b, fed);
    DrainKeeps(l, Append(s.(lastByteMs := now), b), fed + [b]);
  }

  lemma {:induction false} PushAllKeeps(l: Link, s: State, bytes: seq<byte>, now: dword, fed: seq<byte>)
    requires Inv(l, s, fed)
    ensures Inv(l, l.PushAll(s, bytes, now), fed + bytes)
    decreases |bytes|
  {
    if bytes == [] {
      assert fed + bytes == fed;
    } else {
      var n := |bytes| - 1;
      PushAllKeeps(l, s, bytes[..n], now, fed);
      PushKeeps(l, l.PushAll(s, bytes[..n], now), bytes[n], now, fed + bytes[..n]);
      assert fed + bytes[..n] + [bytes[n]] == fed + bytes;
    }
  }

  lemma ExpireKeeps(l: Link, s: State, now: dword, fed: seq<byte>)
    requires Inv(l, s, fed)
    ensures Inv(l, Expire(s, now), fed)
  {
    if Stale(s, now) {
      RejectKeeps(l, s, TimedOut(s.base, Wrap32(now - s.lastByteMs)), fed);
    }
  }

  lemma FeedKeeps(l: Link, s: State, bytes: seq<byte>, now: dword, fed: seq<byte>)
    requires Inv(l, s, fed)
    ensures Inv(l, l.Feed(s, bytes, now), fed + bytes)
  {
    ExpireKeeps(l, s, now, fed);
    PushAllKeeps(l, Expire(s, now), bytes, now, fed);
  }

  lemma {:induction false} RunKeeps(l: Link, chunks: seq<Chunk>)
    ensures Inv(l, l.Run(FRESH, chunks), Stream(chunks))
    decreases |chunks|
  {
    if chunks != [] {
      var n := |chunks| - 1;
      RunKeeps(l, chunks[..n]);
      FeedKeeps(l, l.Run(FRESH, chunks[..n]), chunks[n].bytes, chunks[n].now, Stream(chunks[..n]));
    }
  }

  // ---- time ----

  /** Consuming bytes only adds to the log, and nothing times out meanwhile. */
  predicate Grows(s: State, t: State)
  {
    s.log <= t.log && forall k :: |s.log| <= k < |t.log| ==> !t.log[k].TimedOut?
  }

  lemma {:induction false} DrainGrowsLog(l: Link, s: State)
    ensures Grows(s, l.Drain(s)) && l.Drain(s).lastByteMs == s.lastByteMs
    decreases |s.buf|
  {
    if !l.Judge(s.buf).Wait? {
      DrainGrowsLog(l, l.Turn(s));
    }
  }

  lemma {:induction false} PushAllGrowsLog(l: Link, s: State, bytes: seq<byte>, now: dword)
    ensures Grows(s, l.PushAll(s, bytes, now))
    ensures l.PushAll(s, bytes, now).lastByteMs == if bytes == [] then s.lastByteMs else now
    decreases |bytes|
  {
    if bytes != [] {
      var n := |bytes| - 1;
      PushAllGrowsLog(l, s, bytes[..n], now);
      DrainGrowsLog(l, Append(l.PushAll(s, bytes[..n], now).(lastByteMs := now), bytes[n]));
    }
  }

  lemma {:induction false} RunClock(l: Link, chunks: seq<Chunk>)
    ensures l.Run(FRESH, chunks).lastByteMs == LastByteAt(chunks, 0)
    decreases |chunks|
  {
    if chunks != [] {
      var n := |chunks| - 1;
      RunClock(l, chunks[..n]);
      PushAllGrowsLog(l, Expire(l.Run(FRESH, chunks[..n]), chunks[n].now), chunks[n].bytes, chunks[n].now);
    }
  }

  /** Chunk i came so long after the latest byte before it that the candidate was given up. */
  predicate Overdue(chunks: seq<Chunk>, i: nat, e: Event)
    requires e.TimedOut?
  {
    && i < |chunks| && e.start < |Stream(chunks[..i])|
    && e.gap == Wrap32(chunks[i].now - LastByteAt(chunks[..i], 0)) && e.gap > TIMEOUT_MS
  }

  /** If the decision was a timeout, some chunk was late. */
  ghost predicate Late(chunks: seq<Chunk>, e: Event)
  {
    e.TimedOut? ==> exists i: nat :: Overdue(chunks, i, e)
  }

  lemma LateStays(chunks: seq<Chunk>, n: nat, e: Event)
    requires n <= |chunks| && Late(chunks[..n], e)
    ensures Late(chunks, e)
  {
    if e.TimedOut? {
      var i: nat :| Overdue(chunks[..n], i, e);
      assert chunks[..n][..i] == chunks[..i];
      assert Overdue(chunks, i, e);
    }
  }

  /** Every timeout of every run is a gap between chunks. */
  lemma {:induction false} TimeoutsAreGaps(l: Link, chunks: seq<Chunk>, k: nat)
    requires k < |l.Run(FRESH, chunks).log|
    ensures Late(chunks, l.Run(FRESH, chunks).log[k])
    decreases |chunks|
  {
    hide Overdue, Wrap32, LastByteAt, Stream, Link.PushAll;
    var n := |chunks| - 1;
    var s, c := l.Run(FRESH, chunks[..n]), chunks[n];
    PushAllGrowsLog(l, Expire(s, c.now), c.bytes, c.now);
    if k < |s.log| {
      TimeoutsAreGaps(l, chunks[..n], k);
      LateStays(chunks, n, s.log[k]);
    } else if Stale(s, c.now) && k == |s.log| {
      ExpiryIsGap(l, chunks);
    }
  }

  lemma ExpiryIsGap(l: Link, chunks: seq<Chunk>)
    requires chunks != []
    ensures
      var n := |chunks| - 1;
      var s, now := l.Run(FRESH, chunks[..n]), chunks[n].now;
      Stale(s, now) ==> Late(chunks, TimedOut(s.base, Wrap32(now - s.lastByteMs)))
  {
    hide Link.Run, Recorded, NothingSkipped, Wrap32, LastByteAt;
    var n := |chunks| - 1;
    var s, now := l.Run(FRESH, chunks[..n]), chunks[n].now;
    RunKeeps(l, chunks[..n]);
    RunClock(l, chunks[..n]);
    if Stale(s, now) {
      assert Overdue(chunks, n, TimedOut(s.base, Wrap32(now - s.lastByteMs)));
    }
  }

  lemma PromptHasNone(chunks: seq<Chunk>, e: Event)
    requires Prompt(chunks) && Late(chunks, e)
    ensures !e.TimedOut?
  {
  }

  // ---- the buffer never fills up ----

  /** Before every append of every run there is room for one more byte. */
  lemma {:induction false} PushAllHasRoom(l: Link, s: State, bytes: seq<byte>, now: dword)
    requires |s.buf| < CAPACITY
    ensures |l.PushAll(s, bytes, now).buf| < CAPACITY
    decreases |bytes|
  {
    if bytes != [] {
      var n := |bytes| - 1;
      var t := Append(l.PushAll(s, bytes[..n], now).(lastByteMs := now), bytes[n]);
      assert l.Judge(l.Drain(t).buf).Wait?;
    }
  }

  lemma {:induction false} RunHasRoom(l: Link, chunks: seq<Chunk>)
    ensures |l.Run(FRESH, chunks).buf| < CAPACITY
    decreases |chunks|
  {
    if chunks != [] {
      var n := |chunks| - 1;
      RunHasRoom(l, chunks[..n]);
      PushAllHasRoom(l, Expire(l.Run(FRESH, chunks[..n]), chunks[n].now), chunks[n].bytes, chunks[n].now);
    }
  }

  // ---- theorems about whole runs ----

  /** Which log entry each callback invocation came from. */
  function Origins(log: seq<Event>): (o: seq<nat>)
    ensures |o| == |Dispatched(log)|
    ensures forall i :: 0 <= i < |o| ==> o[i] < |log|
    ensures forall i, j :: 0 <= i < j < |o| ==> o[i] < o[j]
    ensures forall i :: 0 <= i < |o| ==>
              var e := log[o[i]];
              e.Accepted? && e.version == VERSION && KnownType(e.kind) && Dispatched(log)[i] == Frame(e.kind, e.payload)
  {
    if log == [] then [] else
      var e := log[|log| - 1];
      Origins(log[..|log| - 1]) +
      if e.Accepted? && e.version == VERSION && KnownType(e.kind) then [|log| - 1] else []
  }

  /** The bytes from version to checksum of a dispatched frame stand at `start` in the stream. */
  ghost predicate DispatchedFrom(l: Link, fed: seq<byte>, f: Frame, start: nat)
  {
    && f.kind in DISPATCHABLE
    && CompleteAt(fed, start, |f.payload|)
    && fed[start + 2] == VERSION && fed[start + 3] == f.kind
    && fed[start + HDR..start + HDR + |f.payload|] == f.payload
    && ChecksumAt(l, fed, start, |f.payload|)
  }

  lemma AcceptedIsWellFormed(l: Link, fed: seq<byte>, e: Event)
    requires e.Accepted? && Holds(l, e, fed) && e.version == VERSION && KnownType(e.kind)
    ensures DispatchedFrom(l, fed, Frame(e.kind, e.payload), e.start)
  {
  }

  /**
   Every callback of every run delivers a well-formed region of the stream, and the
   regions of different callbacks are disjoint and in stream order.
   */
  lemma DispatchIsSound(l: Link, chunks: seq<Chunk>)
    ensures
      var fed, log := Stream(chunks), l.Run(FRESH, chunks).log;
      var sent, o := Dispatched(log), Origins(log);
      && (forall i :: 0 <= i < |sent| ==> DispatchedFrom(l, fed, sent[i], log[o[i]].start))
      && (forall i, j :: 0 <= i < j < |sent| ==>
            log[o[i]].start + HDR + |sent[i].payload| + CRC <= log[o[j]].start)
  {
    hide Holds, DispatchedFrom, Dispatched, Origins, Link.Run, HoldsTail, NothingSkipped;
    RunKeeps(l, chunks);
    var fed, log := Stream(chunks), l.Run(FRESH, chunks).log;
    var o := Origins(log);
    forall i | 0 <= i < |o| ensures DispatchedFrom(l, fed, Dispatched(log)[i], log[o[i]].start) {
      AcceptedIsWellFormed(l, fed, log[o[i]]);
    }
    forall i, j | 0 <= i < j < |o|
      ensures log[o[i]].start + HDR + |Dispatched(log)[i].payload| + CRC <= log[o[j]].start
    {
      assert End(log[o[i]]) <= log[o[j]].start;
    }
  }

  /** An intact frame, magic included, stands at q. */
  ghost predicate FrameAt(l: Link, fed: seq<byte>, q: nat, version: byte, kind: byte, payload: seq<byte>)
  {
    MagicAt(fed, q) && Holds(l, Accepted(q, version, kind, payload), fed)
  }

  /**
   No candidate is skipped: in every run each magic pair has been decided on, lies
   inside an accepted frame, or is still held.
   */
  lemma NoCandidateSkipped(l: Link, chunks: seq<Chunk>, q: nat)
    requires MagicAt(Stream(chunks), q)
    ensures
      var s := l.Run(FRESH, chunks);
      || s.base <= q
      || exists k :: 0 <= k < |s.log| && Holds(l, s.log[k], Stream(chunks)) && Late(chunks, s.log[k])
                     && if s.log[k].Accepted? then Explains(s.log[k], q) else s.log[k].start == q
  {
    RunKeeps(l, chunks);
    var s := l.Run(FRESH, chunks);
    if q < s.base {
      assert MayBeMagic(Stream(chunks), q);
      var k :| 0 <= k < |s.log| && Explains(s.log[k], q);
      TimeoutsAreGaps(l, chunks, k);
      assert Holds(l, s.log[k], Stream(chunks));
    }
  }

  /** The ways a decision can touch an intact frame. */
  ghost predicate Spares(e: Event, q: nat, version: byte, kind: byte, payload: seq<byte>)
  {
    || e == Accepted(q, version, kind, payload)
    || (e.Accepted? && e.start < q < End(e))
    || (e.TimedOut? && e.start == q)
  }

  lemma IntactFrameNotRejected(l: Link, e: Event, fed: seq<byte>, q: nat, version: byte, kind: byte, payload: seq<byte>)
    requires FrameAt(l, fed, q, version, kind, payload)
    requires Holds(l, e, fed) && Explains(e, q)
    ensures Spares(e, q, version, kind, payload)
  {
    assert CompleteAt(fed, q, |payload|) && ChecksumAt(l, fed, q, |payload|);
    if e.Accepted? && e.start == q {
      assert |e.payload| == |payload|;
    }
  }

  /**
   An intact frame is lost only to a late chunk or to an accepted frame that overlaps it:
   otherwise it has been accepted as it stands, or is still held.
   */
  lemma IntactFrameSurvives(l: Link, chunks: seq<Chunk>, q: nat, version: byte, kind: byte, payload: seq<byte>)
    requires FrameAt(l, Stream(chunks), q, version, kind, payload)
    ensures
      var s := l.Run(FRESH, chunks);
      || s.base <= q
      || exists k :: 0 <= k < |s.log| && Spares(s.log[k], q, version, kind, payload) && Late(chunks, s.log[k])
  {
    RunKeeps(l, chunks);
    var fed, s := Stream(chunks), l.Run(FRESH, chunks);
    if q < s.base {
      assert MayBeMagic(fed, q);
      var k :| 0 <= k < |s.log| && Explains(s.log[k], q);
      IntactFrameNotRejected(l, s.log[k], fed, q, version, kind, payload);
      TimeoutsAreGaps(l, chunks, k);
    }
  }

  /** When every chunk is prompt, an intact frame is lost only to an accepted frame that overlaps it. */
  lemma PromptFrameSurvives(l: Link, chunks: seq<Chunk>, q: nat, version: byte, kind: byte, payload: seq<byte>)
    requires Prompt(chunks) && FrameAt(l, Stream(chunks), q, version, kind, payload)
    ensures
      var s := l.Run(FRESH, chunks);
      || s.base <= q
      || Accepted(q, version, kind, payload) in s.log
      || exists k :: 0 <= k < |s.log| && s.log[k].Accepted? && s.log[k].start < q < End(s.log[k])
  {
    hide FrameAt, Late, Prompt;
    IntactFrameSurvives(l, chunks, q, version, kind, payload);
    var s := l.Run(FRESH, chunks);
    if q < s.base {
      var k :| 0 <= k < |s.log| && Spares(s.log[k], q, version, kind, payload) && Late(chunks, s.log[k]);
      PromptHasNone(chunks, s.log[k]);
    }
  }
}
