/** SOA serials: stamped from the last applied zone, ordered by section 3.2 of RFC 1982. */
module ZoneSerial {

  import opened Options

  const MAX_SERIAL: int := 0xffff_ffff
  const HALF: int := 0x8000_0000

  /** A zone around its one serial slot. */
  datatype Content = Content(prefix: string, suffix: string)
  datatype Zone = Zone(content: Content, serial: nat)

  datatype Error = PreviousOutOfRange | DateTooLarge
  datatype Result = Ok(zone: Zone) | Err(error: Error)

  /** A template to stamp on a date, written as the number YYYYMMDD. */
  datatype Draft = Draft(content: Content, date: nat)

  function DateSerial(date: nat): nat
  {
    date * 100 + 1
  }

  function Stamp(draft: Draft, previous: Option<Zone>): Result
  {
    if previous.Some? && previous.value.serial > MAX_SERIAL then Err(PreviousOutOfRange)
    else if previous.Some? && previous.value.content == draft.content then Ok(Zone(draft.content, previous.value.serial))
    else
      var dated := DateSerial(draft.date);
      if dated > MAX_SERIAL then Err(DateTooLarge)
      else if previous.None? then Ok(Zone(draft.content, dated))
      else
        var distance := (dated - previous.value.serial) % (MAX_SERIAL + 1);
        if 0 < distance < HALF then Ok(Zone(draft.content, dated))
        else Ok(Zone(draft.content, (previous.value.serial + 1) % (MAX_SERIAL + 1)))
  }

  /** The order of section 3.2 of RFC 1982 on 32-bit serials. */
  predicate Older(s: nat, t: nat)
  {
    (s < t && t - s < HALF) || (s > t && s - t > HALF)
  }

  function Max(a: int, b: int): int
  {
    if a < b then b else a
  }

  /** A changed zone is newer, across the 32-bit wrap too. */
  lemma ChangeIsNewer(draft: Draft, was: Zone)
    requires was.serial <= MAX_SERIAL && draft.content != was.content && DateSerial(draft.date) <= MAX_SERIAL
    ensures
      var r := Stamp(draft, Some(was));
      && r.Ok? && r.zone.content == draft.content && r.zone.serial <= MAX_SERIAL
      && Older(was.serial, r.zone.serial) && !Older(r.zone.serial, was.serial)
      && (Older(was.serial, draft.date * 100 + 1) <==> r.zone.serial == draft.date * 100 + 1)
      && (!Older(was.serial, draft.date * 100 + 1) ==> r.zone.serial == (was.serial + 1) % 0x1_0000_0000)
  {
    Distance(DateSerial(draft.date), was.serial);
    Successor(was.serial);
  }

  lemma Distance(s: nat, t: nat)
    requires s <= MAX_SERIAL && t <= MAX_SERIAL
    ensures (s - t) % (MAX_SERIAL + 1) == if s >= t then s - t else s - t + MAX_SERIAL + 1
  {
  }

  lemma Successor(s: nat)
    requires s <= MAX_SERIAL
    ensures (s + 1) % (MAX_SERIAL + 1) == if s == MAX_SERIAL then 0 else s + 1
  {
  }

  /** The serial is the later of the date and the successor exactly within half the range, short of the wrap. */
  lemma LaterOfTheTwo(draft: Draft, was: Zone)
    requires was.serial <= MAX_SERIAL && draft.content != was.content && DateSerial(draft.date) <= MAX_SERIAL
    ensures
      var dated := DateSerial(draft.date);
      var r := Stamp(draft, Some(was));
      r.Ok? && (r.zone.serial == Max(dated, was.serial + 1) <==> was.serial < MAX_SERIAL && -HALF <= dated - was.serial < HALF)
  {
    Distance(DateSerial(draft.date), was.serial);
    Successor(was.serial);
  }

  // ---- whole runs ----

  /** A zone that could have been applied: none, or one whose serial fits 32 bits. */
  predicate InRange(zone: Option<Zone>)
  {
    zone.Some? ==> zone.value.serial <= MAX_SERIAL
  }

  /** The zone applied after stamping each draft in turn; a refused draft leaves the last one in place. */
  function Applied(start: Option<Zone>, drafts: seq<Draft>): Option<Zone>
  {
    if drafts == [] then start
    else
      var last := Applied(start, drafts[..|drafts| - 1]);
      var r := Stamp(drafts[|drafts| - 1], last);
      if r.Ok? then Some(r.zone) else last
  }

  lemma {:induction false} AppliedInRange(start: Option<Zone>, drafts: seq<Draft>)
    requires InRange(start)
    ensures InRange(Applied(start, drafts))
    decreases |drafts|
  {
    if drafts != [] {
      AppliedInRange(start, drafts[..|drafts| - 1]);
    }
  }

  /**
   After any run from any applied zone, one more draft: a serial moves exactly when content does,
   and then forward; a draft is refused exactly when it changes something and its date does not
   fit 32 bits; and a stamped zone stamps to itself whatever the date.
   */
  lemma RunStep(start: Option<Zone>, drafts: seq<Draft>, draft: Draft, later: nat)
    requires InRange(start)
    ensures
      var was := Applied(start, drafts);
      var r := Stamp(draft, was);
      var same := was.Some? && was.value.content == draft.content;
      && (r == Err(DateTooLarge) <==> !same && draft.date * 100 + 1 > 0xffff_ffff) && r != Err(PreviousOutOfRange)
      && (r.Ok? ==> r.zone.content == draft.content && r.zone.serial <= 0xffff_ffff)
      && (r.Ok? && was.None? ==> r.zone.serial == draft.date * 100 + 1)
      && (r.Ok? && was.Some? ==> (r.zone.serial != was.value.serial <==> !same))
      && (r.Ok? && was.Some? && !same ==> Older(was.value.serial, r.zone.serial))
      && (same ==> r == Ok(was.value))
      && (r.Ok? ==> Stamp(Draft(r.zone.content, later), Some(r.zone)) == r)
  {
    AppliedInRange(start, drafts);
    AppliedInRange(start, drafts + [draft]);
    var was := Applied(start, drafts);
    assert (drafts + [draft])[..|drafts|] == drafts;
    if was.Some? && was.value.content != draft.content && DateSerial(draft.date) <= MAX_SERIAL {
      ChangeIsNewer(draft, was.value);
    }
  }

  /** Only a previous serial beyond 32 bits makes the previous zone itself the error. */
  lemma OutOfRangeRefused(draft: Draft, was: Zone)
    ensures Stamp(draft, Some(was)) == Err(PreviousOutOfRange) <==> was.serial > 0xffff_ffff
  {
  }
}
