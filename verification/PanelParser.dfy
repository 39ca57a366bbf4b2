/** The incremental parser over its fixed buffer. */
module PanelParser {
  import opened Bytes
  import opened Framing
  import opened FramingDelivery
  import Crc

  /** The link of the panel protocol. */
  const PANEL: Link := Link(Crc.Crc16)

  /** memmove within one buffer. */
  method MemMove(a: array<byte>, dst: nat, src: nat, n: nat)
    requires dst + n <= a.Length && src + n <= a.Length
    modifies a
    ensures a[dst..dst + n] == old(a[src..src + n])
    ensures a[..dst] == old(a[..dst]) && a[dst + n..] == old(a[dst + n..])
  {
    forall k | 0 <= k < n {
      a[dst + k] := a[src + k];
    }
  }

  lemma DispatchedGrows(log: seq<Event>, e: Event)
    ensures Dispatched(log + [e]) ==
            Dispatched(log) + if e.Accepted? && e.version == VERSION then Deliverable(e.kind, e.payload) else []
  {
    assert (log + [e])[..|log|] == log;
  }

  lemma RejectionSendsNothing(log: seq<Event>, e: Event)
    requires !e.Accepted?
    ensures Dispatched(log + [e]) == Dispatched(log)
  {
    assert (log + [e])[..|log|] == log;
  }

  lemma DroppedFrom(held: seq<byte>, start: nat, i: nat)
    requires start <= |held|
    requires i + 1 < |held| ==> start + FirstMagic(held[start..]) == i
    requires |held| <= i + 1 ==> start + FirstMagic(held[start..]) == |held|
    ensures Dropped(held, start)
            == if i + 1 < |held| then i
               else if start < |held| && held[|held| - 1] == MAGIC0 then |held| - 1 else |held|
  {
  }

  lemma PushNone(s: State, now: dword)
    ensures PANEL.PushAll(s, [], now) == s
  {
  }

  lemma PushOne(s: State, bytes: seq<byte>, i: nat, now: dword)
    requires i < |bytes|
    ensures PANEL.PushAll(s, bytes[..i + 1], now)
            == PANEL.Drain(Append(PANEL.PushAll(s, bytes[..i], now).(lastByteMs := now), bytes[i]))
  {
    assert bytes[..i + 1][..i] == bytes[..i];
  }

  /**
   A frame the parser would take, hit by an error burst of at most 16 bits in its version, type or
   payload, is judged corrupt instead.
   */
  lemma BurstRejected(sent: seq<byte>, got: seq<byte>, plen: nat, from: nat, width: nat)
    requires |sent| == |got| && PANEL.Judge(sent) == Good(plen)
    requires sent[4..HDR] == got[4..HDR] && sent[HDR + plen..HDR + plen + CRC] == got[HDR + plen..HDR + plen + CRC]
    requires
      var a, b := Crc.MessageBits(sent[2..HDR + plen]), Crc.MessageBits(got[2..HDR + plen]);
      a != b && width <= 16 && from + width <= 8 * (4 + plen) && Crc.DifferWithin(a, b, from, width)
    ensures PANEL.Judge(got) == Corrupt
  {
    hide Crc.Crc16, Crc.MessageBits, Crc.DifferWithin, ReadLe16;
    Crc.BurstDetected(sent[2..HDR + plen], got[2..HDR + plen], from, width);
    assert sent[4] == sent[4..HDR][0] == got[4] && sent[5] == sent[4..HDR][1] == got[5];
    var tail := sent[HDR + plen..HDR + plen + CRC];
    assert sent[HDR + plen] == tail[0] == got[HDR + plen] && sent[HDR + plen + 1] == tail[1] == got[HDR + plen + 1];
  }

  class Parser {
    const buf: array<byte>
    var have: nat
    var lastByteMs: dword
    var crcErrors: dword
    var resyncs: dword
    ghost var base: nat
    ghost var log: seq<Event>

    ghost predicate Valid()
      reads this
    {
      buf.Length == CAPACITY && have < CAPACITY
    }

    ghost function View(): State
      requires have <= buf.Length
      reads this, buf
    {
      State(base, buf[..have], lastByteMs, crcErrors, resyncs, log)
    }

    constructor ()
      ensures Valid() && View() == FRESH && fresh(buf)
    {
      buf := new byte[CAPACITY];
      have, lastByteMs, crcErrors, resyncs := 0, 0, 0, 0;
      base, log := 0, [];
    }

    /** The resynchronisation's scan for the pair. */
    method FindMagic(start: nat) returns (i: nat)
      requires start <= have <= buf.Length
      ensures i + 1 < have ==> start + FirstMagic(buf[..have][start..]) == i
      ensures have <= i + 1 ==> start + FirstMagic(buf[..have][start..]) == have
    {
      i := start;
      ghost var held := buf[..have];
      while i + 1 < have
        invariant start <= i <= have
        invariant i + FirstMagic(held[i..]) == start + FirstMagic(held[start..])
        decreases have - i
      {
        if buf[i] == MAGIC0 && buf[i + 1] == MAGIC1 {
          return;
        }
        assert held[i..][1..] == held[i + 1..];
        i := i + 1;
      }
    }

    method Resync(start: nat)
      requires start <= have <= buf.Length
      modifies this, buf
      ensures have <= buf.Length && View() == Framing.Resync(old(View()), start)
      ensures log == old(log)
    {
      hide FirstMagic, Dropped;
      ghost var held := buf[..have];
      ghost var k := Dropped(held, start);
      var remain := 0;
      var i := FindMagic(start);
      DroppedFrom(held, start, i);
      if i + 1 < have {
        remain := have - i;
        MemMove(buf, 0, i, remain);
      }
      if remain == 0 && have > start && buf[have - 1] == MAGIC0 {
        buf[0] := MAGIC0;
        remain := 1;
      }
      assert buf[..remain] == held[k..];
      have := remain;
      resyncs := Wrap32(resyncs + 1);
      base := base + k;
    }

    /** A resynchronisation together with the decision it stands for. */
    method Reject(ghost e: Event)
      requires 0 < have <= buf.Length && !e.Accepted?
      modifies this, buf
      ensures have <= buf.Length && View() == Framing.Reject(old(View()), e)
      ensures have < old(have) && log == old(log) + [e]
    {
      log := log + [e];
      Resync(1);
    }

    /** Move what follows the frame down. */
    method ShiftDown(total: nat)
      requires total <= have <= buf.Length
      modifies this`have, this`base, buf
      ensures have == old(have) - total && base == old(base) + total
      ensures buf[..have] == old(buf[..have])[total..]
    {
      var remain := have - total;
      if remain != 0 {
        MemMove(buf, 0, total, remain);
      }
      have := remain;
      base := base + total;
    }

    /** Hand a good frame on and drop it. */
    method TakeFrame(plen: nat) returns (sent: seq<Frame>)
      requires HDR + plen + CRC <= have <= buf.Length
      modifies this, buf
      ensures have < old(have) && View() == Accept(old(View()), plen)
      ensures Dispatched(log) == old(Dispatched(log)) + sent
    {
      hide Dispatched;
      ghost var payload := buf[..have][HDR..HDR + plen];
      assert buf[HDR..HDR + plen] == payload;
      DispatchedGrows(log, Accepted(base, buf[2], buf[3], payload));
      sent := [];
      if buf[2] == VERSION && KnownType(buf[3]) {
        sent := [Frame(buf[3], buf[HDR..HDR + plen])];
      }
      log := log + [Accepted(base, buf[2], buf[3], payload)];
      ShiftDown(HDR + plen + CRC);
    }

    method CrcMatches(plen: nat) returns (ok: bool)
      requires HDR + plen + CRC <= have <= buf.Length
      ensures ok == PANEL.CrcMatches(buf[..have], plen)
    {
      hide Crc.Fold, Crc.Value;
      var crc := Crc.PanelCrc16(buf, 2, 4 + plen);
      assert buf[2..HDR + plen] == buf[..have][2..HDR + plen];
      ok := ReadLe16(buf[HDR + plen], buf[HDR + plen + 1]) == Crc.Value(crc);
    }

    /** One turn of the inner loop; `more` is false when the loop breaks. */
    method Turn() returns (more: bool, sent: seq<Frame>)
      requires have <= buf.Length
      modifies this, buf
      ensures have <= buf.Length && more == !PANEL.Judge(old(View()).buf).Wait?
      ensures !more ==> View() == old(View())
      ensures more ==> have < old(have) && View() == PANEL.Turn(old(View()))
      ensures Dispatched(log) == old(Dispatched(log)) + sent
    {
      hide Framing.Reject, Framing.Accept, Link.CrcMatches, Dispatched;
      more, sent := true, [];
      if have < HDR {
        more := false;
        return;
      }
      var plen := ReadLe16(buf[4], buf[5]);
      if plen > MAX_PAYLOAD {
        RejectionSendsNothing(log, Oversize(base));
        Reject(Oversize(base));
        return;
      }
      if have < HDR + plen + CRC {
        more := false;
        return;
      }
      var ok := CrcMatches(plen);
      if !ok {
        crcErrors := Wrap32(crcErrors + 1);
        RejectionSendsNothing(log, BadCrc(base));
        Reject(BadCrc(base));
        return;
      }
      sent := TakeFrame(plen);
    }

    /** The inner loop. */
    method Drain() returns (sent: seq<Frame>)
      requires have <= buf.Length == CAPACITY
      modifies this, buf
      ensures Valid() && View() == PANEL.Drain(old(View()))
      ensures Dispatched(log) == old(Dispatched(log)) + sent
    {
      hide Link.Turn, Link.Judge, Dispatched;
      sent := [];
      var more := true;
      while more
        invariant have <= buf.Length
        invariant PANEL.Drain(View()) == PANEL.Drain(old(View()))
        invariant !more ==> PANEL.Judge(View().buf).Wait?
        invariant Dispatched(log) == old(Dispatched(log)) + sent
        decreases more, have
      {
        var now;
        more, now := Turn();
        sent := sent + now;
      }
    }

    /** One byte: note its time, scan or append it, and drain. */
    method Take(b: byte, nowMs: dword)
      requires Valid()
      modifies this, buf
      ensures have <= buf.Length
      ensures View() == Append(old(View()).(lastByteMs := nowMs), b)
      ensures log == old(log)
    {
      lastByteMs := nowMs;
      ghost var held := buf[..have];
      if have == 0 {
        if b == MAGIC0 {
          buf[0] := b;
          have := 1;
        } else {
          base := base + 1;
        }
      } else if have == 1 {
        if b == MAGIC1 {
          buf[1] := b;
          have := 2;
        } else if b != MAGIC0 {
          have := 0;
          base := base + 2;
        } else {
          base := base + 1;
        }
      } else {
        buf[have] := b;
        have := have + 1;
      }
      assert have > |held| ==> buf[..have] == held + [b];
    }

    /** A candidate whose next byte comes too late is given up. */
    method Expire(nowMs: dword)
      requires Valid()
      modifies this, buf
      ensures Valid() && View() == Framing.Expire(old(View()), nowMs)
      ensures Dispatched(log) == old(Dispatched(log))
    {
      if have != 0 && Wrap32(nowMs - lastByteMs) > TIMEOUT_MS {
        ghost var e := TimedOut(base, Wrap32(nowMs - lastByteMs));
        RejectionSendsNothing(log, e);
        Reject(e);
      }
    }

    /** panelParserFeed: every chunk drives the fixed buffer exactly as the stream functions say. */
    method Feed(bytes: seq<byte>, nowMs: dword) returns (sent: seq<Frame>)
      requires Valid()
      modifies this, buf
      ensures Valid() && View() == PANEL.Feed(old(View()), bytes, nowMs)
      ensures Dispatched(log) == old(Dispatched(log)) + sent
    {
      hide Framing.Expire, Framing.Append, Dispatched, Link.Drain, Link.PushAll;
      sent := [];
      Expire(nowMs);
      ghost var start := View();
      PushNone(start, nowMs);
      assert bytes[..0] == [];
      for i := 0 to |bytes|
        invariant Valid()
        invariant View() == PANEL.PushAll(start, bytes[..i], nowMs)
        invariant Dispatched(log) == old(Dispatched(log)) + sent
      {
        PushOne(start, bytes, i, nowMs);
        Take(bytes[i], nowMs);
        var more := Drain();
        sent := sent + more;
      }
      assert bytes[..|bytes|] == bytes;
    }
  }
}
