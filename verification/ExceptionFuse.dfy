/** The fuse that drops repeated exceptions of one tab session, over storage that may fail at any time. */
module ExceptionFuse {
  import opened IssueModel

  const EXCEPTION_SAMPLE_LIMIT := 3
  const MAX_FINGERPRINTS := 50

  /** What goes wrong during one call. */
  datatype Fault = NoFault | NoStorage | ReadThrows | WriteThrows

  type Counts = map<string, nat>

  /** `stored` is the blob as it reads back: a missing or corrupt one reads as empty. */
  function CountOf(stored: Counts, fingerprint: string): nat
  {
    if fingerprint in stored then stored[fingerprint] else 0
  }

  predicate Drops(stored: Counts, fingerprint: Option<string>, fault: Fault)
  {
    && fingerprint.Some? && !fault.NoStorage? && !fault.ReadThrows?
    && CountOf(stored, fingerprint.value) >= EXCEPTION_SAMPLE_LIMIT
  }

  function Next(stored: Counts, fingerprint: Option<string>, fault: Fault): Counts
  {
    if fingerprint.None? || fault != NoFault then stored else
      var current := CountOf(stored, fingerprint.value);
      if current >= EXCEPTION_SAMPLE_LIMIT || (current == 0 && |stored| >= MAX_FINGERPRINTS) then stored
      else stored[fingerprint.value := current + 1]
  }

  class Fuse {
    var stored: Counts

    constructor ()
      ensures stored == map[]
    {
      stored := map[];
    }

    method ShouldDropException(fingerprint: Option<string>, fault: Fault) returns (drop: bool)
      modifies this
      ensures drop == Drops(old(stored), fingerprint, fault)
      ensures stored == Next(old(stored), fingerprint, fault)
    {
      if fingerprint.None? { return false; }
      if fault.NoStorage? || fault.ReadThrows? { return false; }
      var counts := stored;
      var current := CountOf(counts, fingerprint.value);
      if current >= EXCEPTION_SAMPLE_LIMIT { return true; }
      if current == 0 && |counts| >= MAX_FINGERPRINTS { return false; }
      counts := counts[fingerprint.value := current + 1];
      if fault != WriteThrows { stored := counts; }
      return false;
    }
  }

  /** A session: calls, and moments at which the blob is lost. */
  datatype Event = Call(fingerprint: Option<string>, fault: Fault) | BlobLost

  function Stored(events: seq<Event>): Counts
  {
    if events == [] then map[] else
      var last := events[|events| - 1];
      if last.BlobLost? then map[] else Next(Stored(events[..|events| - 1]), last.fingerprint, last.fault)
  }

  predicate DroppedNext(events: seq<Event>, fingerprint: string, fault: Fault)
  {
    Drops(Stored(events), Some(fingerprint), fault)
  }

  /** How many exceptions with this fingerprint were kept and could be counted. */
  function CleanKeeps(events: seq<Event>, fingerprint: string): nat
  {
    if events == [] then 0 else
      var before, last := events[..|events| - 1], events[|events| - 1];
      CleanKeeps(before, fingerprint) +
      (if last == Call(Some(fingerprint), NoFault) && !DroppedNext(before, fingerprint, NoFault) then 1 else 0)
  }

  lemma {:induction false} CountsNeverExceedKeeps(events: seq<Event>, fingerprint: string)
    ensures CountOf(Stored(events), fingerprint) <= CleanKeeps(events, fingerprint)
    ensures |Stored(events)| <= 50
  {
    if events != [] {
      var before, last := events[..|events| - 1], events[|events| - 1];
      CountsNeverExceedKeeps(before, fingerprint);
    }
  }

  /** Whatever fails, nothing is dropped before three exceptions with its fingerprint were kept. */
  lemma DropNeedsThreeKeeps(events: seq<Event>, fingerprint: string, fault: Fault)
    requires DroppedNext(events, fingerprint, fault)
    ensures CleanKeeps(events, fingerprint) >= 3
  {
    CountsNeverExceedKeeps(events, fingerprint);
  }

  // ----- a session without faults

  ghost predicate Faultless(events: seq<Event>)
  {
    forall i :: 0 <= i < |events| ==> events[i].Call? && events[i].fault == NoFault
  }

  function Occurrences(events: seq<Event>, fingerprint: string): nat
  {
    if events == [] then 0 else
      Occurrences(events[..|events| - 1], fingerprint) +
      (if events[|events| - 1] == Call(Some(fingerprint), NoFault) then 1 else 0)
  }

  /** The first 50 different fingerprints of the session. */
  function Tracked(events: seq<Event>): seq<string>
  {
    if events == [] then [] else
      var rest, last := Tracked(events[..|events| - 1]), events[|events| - 1];
      if last.Call? && last.fingerprint.Some? && last.fingerprint.value !in rest && |rest| < 50
      then rest + [last.fingerprint.value] else rest
  }

  lemma {:induction false} CountsAreOccurrences(events: seq<Event>, fingerprint: string)
    requires Faultless(events)
    ensures CountOf(Stored(events), fingerprint) ==
      if fingerprint !in Tracked(events) then 0
      else if Occurrences(events, fingerprint) < EXCEPTION_SAMPLE_LIMIT then Occurrences(events, fingerprint)
      else EXCEPTION_SAMPLE_LIMIT
    ensures fingerprint in Tracked(events) ==> Occurrences(events, fingerprint) > 0
    ensures Occurrences(events, fingerprint) > 0 && fingerprint !in Tracked(events) ==>
      |Tracked(events)| == MAX_FINGERPRINTS
    ensures fingerprint in Stored(events) <==> fingerprint in Tracked(events)
  {
    if events != [] {
      var before := events[..|events| - 1];
      CountsAreOccurrences(before, fingerprint);
      TrackedSize(before);
    }
  }

  lemma {:induction false} TrackedSize(events: seq<Event>)
    requires Faultless(events)
    ensures |Stored(events)| == |Tracked(events)| <= MAX_FINGERPRINTS
    ensures Stored(events).Keys == set f | f in Tracked(events)
    ensures forall f :: f in Stored(events) ==> Stored(events)[f] > 0
  {
    if events != [] {
      TrackedSize(events[..|events| - 1]);
    }
  }

  /** Without faults an exception is dropped exactly when it is at least the fourth of its fingerprint and that
      fingerprint is among the first 50 of the session: from the 51st on, one fingerprint does affect another. */
  lemma DroppedExactly(events: seq<Event>, fingerprint: string)
    requires Faultless(events)
    ensures DroppedNext(events, fingerprint, NoFault) <==>
      Occurrences(events, fingerprint) >= 3 && fingerprint in Tracked(events)
  {
    CountsAreOccurrences(events, fingerprint);
  }
}
