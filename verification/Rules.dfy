/** The temporal rule evaluator (internal/rules/rules.go).

The evaluator keeps ten timer fields and updates them on every sample.  Here each emitted signal is
given a meaning over the whole sample history, and the incremental evaluator is proved to emit
exactly the signals with that meaning.
*/
module Rules {
  import opened Base

  /** The part of the overview the rules look at. */
  datatype Sample = Sample(now: int, serviceState: string, finalized: int, externalA: int, externalB: int,
                           lag: int, peers: int, disk: real, memory: real)

  /** The fingerprints, in the order of the source: "service-inactive" to "memory-high". */
  datatype Fingerprint =
    | ServiceInactive | BlockStalled | SyncLagCritical | SyncLagWarning | PeersZeroAlarm | PeersLowAlarm
    | DiskCritical | DiskWarning | MemoryHighAlarm

  datatype Signal = Signal(fingerprint: Fingerprint, severity: Severity, autoCandidate: bool)

  /** The conditions that have to persist before they signal. */
  datatype Condition = Inactive | LagCritical | LagWarning | PeersZero | PeersLow | MemoryHigh

  predicate Holds(c: Condition, s: Sample) {
    match c
    case Inactive => s.serviceState != "active"
    case LagCritical => s.lag > 120
    case LagWarning => s.lag > 30
    case PeersZero => s.peers == 0 && s.serviceState == "active"
    case PeersLow => 0 < s.peers < 3
    case MemoryHigh => s.memory >= 90.0
  }

  function Hold(c: Condition): int {
    match c
    case Inactive => MINUTE
    case LagCritical => 10 * MINUTE
    case LagWarning => 5 * MINUTE
    case PeersZero => 3 * MINUTE
    case PeersLow => 5 * MINUTE
    case MemoryHigh => 10 * MINUTE
  }

  // ---------- Meaning over the history ----------

  ghost predicate HeldFrom(h: seq<Sample>, c: Condition, i: int) {
    0 <= i < |h| && forall k :: i <= k < |h| ==> Holds(c, h[k])
  }

  /** i starts the maximal suffix of h on which c holds. */
  ghost predicate SuffixStart(h: seq<Sample>, c: Condition, i: int) {
    HeldFrom(h, c, i) && (i > 0 ==> !Holds(c, h[i - 1]))
  }

  /** c holds at every sample of a maximal suffix that is long enough. */
  ghost predicate Persisted(h: seq<Sample>, c: Condition) {
    exists i :: SuffixStart(h, c, i) && h[|h| - 1].now - h[i].now >= Hold(c)
  }

  /** i is the first sample of the current plateau: the finalized height seen at i is positive, no later
      sample shows another positive height, and the last positive height before i was different. */
  ghost predicate PlateauStart(h: seq<Sample>, i: int) {
    && 0 <= i < |h|
    && h[i].finalized > 0
    && (forall k :: i <= k < |h| && h[k].finalized > 0 ==> h[k].finalized == h[i].finalized)
    && (forall k :: LastPositiveBefore(h, k, i) ==> h[k].finalized != h[i].finalized)
  }

  ghost predicate LastPositiveBefore(h: seq<Sample>, k: int, i: int) {
    0 <= k < i <= |h| && h[k].finalized > 0 && forall m :: k < m < i ==> h[m].finalized <= 0
  }

  /** The finalized height did not change for five minutes while both external heights grew by twenty. */
  ghost predicate Stalled(h: seq<Sample>) {
    exists i ::
      && PlateauStart(h, i)
      && h[|h| - 1].now - h[i].now >= 5 * MINUTE
      && h[|h| - 1].externalA - h[i].externalA >= 20
      && h[|h| - 1].externalB - h[i].externalB >= 20
  }

  /** When a history calls for a signal. */
  ghost predicate Fires(h: seq<Sample>, f: Fingerprint)
    requires h != []
  {
    match f
    case ServiceInactive => Persisted(h, Inactive)
    case BlockStalled => Stalled(h)
    case SyncLagCritical => Persisted(h, LagCritical)
    case SyncLagWarning => Persisted(h, LagWarning)
    case PeersZeroAlarm => Persisted(h, PeersZero)
    case PeersLowAlarm => Persisted(h, PeersLow)
    case DiskCritical => h[|h| - 1].disk >= 92.0
    case DiskWarning => 85.0 <= h[|h| - 1].disk < 92.0
    case MemoryHighAlarm => Persisted(h, MemoryHigh)
  }

  function SignalFor(f: Fingerprint): Signal {
    match f
    case ServiceInactive => Signal(f, Critical, true)
    case BlockStalled => Signal(f, Critical, true)
    case SyncLagCritical => Signal(f, Critical, false)
    case SyncLagWarning => Signal(f, Warning, false)
    case PeersZeroAlarm => Signal(f, Critical, false)
    case PeersLowAlarm => Signal(f, Warning, false)
    case DiskCritical => Signal(f, Critical, false)
    case DiskWarning => Signal(f, Warning, false)
    case MemoryHighAlarm => Signal(f, Warning, false)
  }

  const ORDER: seq<Fingerprint> :=
    [ServiceInactive, BlockStalled, SyncLagCritical, SyncLagWarning, PeersZeroAlarm, PeersLowAlarm, DiskCritical,
     DiskWarning, MemoryHighAlarm]

  /** The signals among the first n fingerprints that satisfy p, in order. */
  ghost function Select(p: Fingerprint -> bool, order: seq<Fingerprint>): seq<Signal> {
    if order == [] then []
    else
      var f := order[|order| - 1];
      Select(p, order[..|order| - 1]) + if p(f) then [SignalFor(f)] else []
  }

  /** The signals a history calls for, in the order the evaluator emits them. */
  ghost function Expected(h: seq<Sample>): seq<Signal>
    requires h != []
  {
    Select(f => Fires(h, f), ORDER)
  }

  // ---------- Incremental form ----------

  /** Where the current run of c started, computed one sample at a time. */
  ghost function Since(h: seq<Sample>, c: Condition): (r: Option<int>)
    ensures r.Some? ==> 0 <= r.value < |h|
  {
    if h == [] then None
    else
      var last := |h| - 1;
      if !Holds(c, h[last]) then None
      else match Since(h[..last], c) case Some(i) => Some(i) case None => Some(last)
  }

  lemma {:induction false} SinceStarts(h: seq<Sample>, c: Condition)
    ensures Since(h, c).None? ==> h == [] || !Holds(c, h[|h| - 1])
    ensures Since(h, c).Some? ==> SuffixStart(h, c, Since(h, c).value)
  {
    if h != [] {
      var shorter := h[..|h| - 1];
      SinceStarts(shorter, c);
      assert forall k :: 0 <= k < |shorter| ==> shorter[k] == h[k];
    }
  }

  /** The incremental start is the start of the maximal suffix. */
  lemma {:induction false} SinceIsSuffixStart(h: seq<Sample>, c: Condition, i: int)
    ensures Since(h, c) == Some(i) <==> SuffixStart(h, c, i)
  {
    SinceStarts(h, c);
    if SuffixStart(h, c, i) {
      assert Holds(c, h[|h| - 1]);
      var j := Since(h, c).value;
    }
  }

  /** Where the current plateau started, computed one sample at a time. */
  ghost function Progress(h: seq<Sample>): (r: Option<int>)
    ensures r.Some? ==> 0 <= r.value < |h|
  {
    if h == [] then None
    else
      var last := |h| - 1;
      var before := Progress(h[..last]);
      if h[last].finalized > 0 && (before.None? || h[last].finalized != h[before.value].finalized)
      then Some(last) else before
  }

  lemma {:induction false} ProgressStarts(h: seq<Sample>)
    ensures Progress(h).None? ==> forall k :: 0 <= k < |h| ==> h[k].finalized <= 0
    ensures Progress(h).Some? ==> PlateauStart(h, Progress(h).value)
  {
    if h != [] {
      var last := |h| - 1;
      var shorter := h[..last];
      ProgressStarts(shorter);
      assert forall k :: 0 <= k < |shorter| ==> shorter[k] == h[k];
      var before := Progress(shorter);
      if before.Some? && Progress(h) == before {
        forall k | LastPositiveBefore(h, k, before.value) ensures h[k].finalized != h[before.value].finalized {
          assert LastPositiveBefore(shorter, k, before.value);
        }
      }
    }
  }

  lemma {:induction false} LastPositiveExists(h: seq<Sample>, i: int, j: int) returns (k: int)
    requires 0 <= i < j <= |h| && h[i].finalized > 0
    ensures i <= k < j && LastPositiveBefore(h, k, j)
    decreases j - i
  {
    if h[j - 1].finalized > 0 {
      k := j - 1;
    } else {
      k := LastPositiveExists(h, i, j - 1);
    }
  }

  /** A history has at most one plateau start, so the incremental one is it. */
  lemma {:induction false} ProgressIsPlateauStart(h: seq<Sample>, i: int)
    ensures Progress(h) == Some(i) <==> PlateauStart(h, i)
  {
    ProgressStarts(h);
    if PlateauStart(h, i) && Progress(h) != Some(i) {
      var j := Progress(h).value;
      var k := LastPositiveExists(h, Min(i, j), Max(i, j));
    }
  }

  // ---------- The evaluator ----------

  ghost function TimeAt(h: seq<Sample>, start: Option<int>): Option<int>
    requires start.Some? ==> 0 <= start.value < |h|
  {
    if start.None? then None else Some(h[start.value].now)
  }

  ghost function Timer(h: seq<Sample>, c: Condition): Option<int> {
    TimeAt(h, Since(h, c))
  }

  lemma {:induction false} TimerStep(h: seq<Sample>, s: Sample, c: Condition)
    ensures Timer(h + [s], c) ==
            if !Holds(c, s) then None else if Timer(h, c).None? then Some(s.now) else Timer(h, c)
    ensures Persisted(h + [s], c) <==> Timer(h + [s], c).Some? && s.now - Timer(h + [s], c).value >= Hold(c)
  {
    var g := h + [s];
    assert g[..|h|] == h;
    SinceStarts(g, c);
    SinceStarts(h, c);
    forall i ensures Since(g, c) == Some(i) <==> SuffixStart(g, c, i) {
      SinceIsSuffixStart(g, c, i);
    }
  }

  class Evaluator {
    var lastFinalized: int
    var lastProgress: Option<int>
    var stallExternalA: int
    var stallExternalB: int
    var inactiveSince: Option<int>
    var lowPeerSince: Option<int>
    var zeroPeerSince: Option<int>
    var highMemorySince: Option<int>
    var warnLagSince: Option<int>
    var criticalLagSince: Option<int>
    ghost var history: seq<Sample>

    /** Every timer is where the history says its condition last started to hold. */
    ghost predicate Valid()
      reads this
    {
      Timers(history) && Plateau(history)
    }

    ghost predicate Timers(h: seq<Sample>)
      reads `inactiveSince, `criticalLagSince, `warnLagSince, `zeroPeerSince, `lowPeerSince, `highMemorySince
    {
      && inactiveSince == Timer(h, Inactive)
      && criticalLagSince == Timer(h, LagCritical)
      && warnLagSince == Timer(h, LagWarning)
      && zeroPeerSince == Timer(h, PeersZero)
      && lowPeerSince == Timer(h, PeersLow)
      && highMemorySince == Timer(h, MemoryHigh)
    }

    /** The stall fields describe the first sample of the current plateau of h. */
    ghost predicate Plateau(h: seq<Sample>)
      reads `lastFinalized, `lastProgress, `stallExternalA, `stallExternalB
    {
      && lastProgress == TimeAt(h, Progress(h))
      && match Progress(h)
         case None => lastFinalized == 0
         case Some(i) =>
           && lastFinalized == h[i].finalized > 0
           && stallExternalA == h[i].externalA
           && stallExternalB == h[i].externalB
    }

    constructor ()
      ensures Valid() && history == []
    {
      lastFinalized, stallExternalA, stallExternalB := 0, 0, 0;
      lastProgress, inactiveSince, lowPeerSince, zeroPeerSince := None, None, None, None;
      highMemorySince, warnLagSince, criticalLagSince := None, None, None;
      history := [];
    }

    /** One persistence timer: reset it, start it or leave it running, and say whether it has run out. */
    static method Track(since: Option<int>, c: Condition, s: Sample, ghost h: seq<Sample>)
      returns (next: Option<int>, expired: bool)
      requires since == Timer(h, c)
      ensures next == Timer(h + [s], c)
      ensures expired <==> Persisted(h + [s], c)
    {
      next, expired := None, false;
      if Holds(c, s) {
        next := since;
        if next.None? { next := Some(s.now); }
        expired := s.now - next.value >= Hold(c);
      }
      TimerStep(h, s, c);
    }

    /** The stall rule: follow the finalized height and compare the external heights. */
    method TrackStall(s: Sample) returns (stalled: bool)
      requires Plateau(history)
      modifies `lastFinalized, `lastProgress, `stallExternalA, `stallExternalB
      ensures Plateau(history + [s])
      ensures stalled <==> Stalled(history + [s])
    {
      if s.finalized > 0 && s.finalized != lastFinalized {
        lastFinalized, lastProgress := s.finalized, Some(s.now);
        stallExternalA, stallExternalB := s.externalA, s.externalB;
      }
      // The source tests for a zero lastProgress once more here; a positive height has set it above.
      assert !(lastProgress.None? && s.finalized > 0);
      stalled := lastProgress.Some? && s.now - lastProgress.value >= 5 * MINUTE
                 && s.externalA - stallExternalA >= 20 && s.externalB - stallExternalB >= 20;
      StallStep(history, s);
    }

    /** The six persistence timers. */
    method TrackTimers(s: Sample, ghost h: seq<Sample>)
      returns (inactive: bool, lagCritical: bool, lagWarning: bool, peersZero: bool, peersLow: bool, memoryHigh: bool)
      requires Timers(h)
      modifies `inactiveSince, `criticalLagSince, `warnLagSince, `zeroPeerSince, `lowPeerSince, `highMemorySince
      ensures Timers(h + [s])
      ensures inactive == Persisted(h + [s], Inactive) && lagCritical == Persisted(h + [s], LagCritical)
      ensures lagWarning == Persisted(h + [s], LagWarning) && peersZero == Persisted(h + [s], PeersZero)
      ensures peersLow == Persisted(h + [s], PeersLow) && memoryHigh == Persisted(h + [s], MemoryHigh)
    {
      hide Persisted, Timer;
      inactiveSince, inactive := Track(inactiveSince, Inactive, s, h);
      criticalLagSince, lagCritical := Track(criticalLagSince, LagCritical, s, h);
      warnLagSince, lagWarning := Track(warnLagSince, LagWarning, s, h);
      zeroPeerSince, peersZero := Track(zeroPeerSince, PeersZero, s, h);
      lowPeerSince, peersLow := Track(lowPeerSince, PeersLow, s, h);
      highMemorySince, memoryHigh := Track(highMemorySince, MemoryHigh, s, h);
    }

    /** Emits exactly the signals the extended history calls for. */
    method Evaluate(s: Sample) returns (out: seq<Signal>)
      requires Valid()
      modifies this
      ensures Valid() && history == old(history) + [s]
      ensures out == Expected(history)
    {
      hide Persisted, Stalled, Timers, Plateau, Fires, Expected;
      ghost var h := history;
      var stalled := TrackStall(s);
      var inactive, lagCritical, lagWarning, peersZero, peersLow, memoryHigh := TrackTimers(s, h);
      history := h + [s];
      var verdicts := Verdicts(inactive, stalled, lagCritical, lagWarning, peersZero, peersLow,
                               s.disk >= 92.0, !(s.disk >= 92.0) && s.disk >= 85.0, memoryHigh);
      assert verdicts.Match(h + [s]);
      out := Emit(verdicts, h + [s]);
    }

    static method Emit(v: Verdicts, ghost h: seq<Sample>) returns (out: seq<Signal>)
      requires h != []
      ensures v.Match(h) ==> out == Expected(h)
    {
      hide Persisted, Stalled, Fires, SignalFor, ORDER;
      out := [];
      ghost var p := f => Fires(h, f);
      for n := 0 to |ORDER|
        invariant v.Match(h) ==> out == Select(p, ORDER[..n])
      {
        assert ORDER[..n + 1][..n] == ORDER[..n];
        VerdictFires(v, h, ORDER[n]);
        if v.Of(ORDER[n]) { out := out + [SignalFor(ORDER[n])]; }
      }
      assert ORDER[..|ORDER|] == ORDER;
    }
  }

  lemma {:induction false} VerdictFires(v: Verdicts, h: seq<Sample>, f: Fingerprint)
    requires h != []
    ensures v.Match(h) ==> v.Of(f) == Fires(h, f)
  {
    hide Persisted, Stalled;
  }

  /** The outcome of each rule for one sample. */
  datatype Verdicts = Verdicts(inactive: bool, stalled: bool, lagCritical: bool, lagWarning: bool, peersZero: bool,
                               peersLow: bool, diskCritical: bool, diskWarning: bool, memoryHigh: bool)
  {
    ghost predicate Match(h: seq<Sample>)
      requires h != []
    {
      && inactive == Persisted(h, Inactive)
      && stalled == Stalled(h)
      && lagCritical == Persisted(h, LagCritical)
      && lagWarning == Persisted(h, LagWarning)
      && peersZero == Persisted(h, PeersZero)
      && peersLow == Persisted(h, PeersLow)
      && diskCritical == (h[|h| - 1].disk >= 92.0)
      && diskWarning == (85.0 <= h[|h| - 1].disk < 92.0)
      && memoryHigh == Persisted(h, MemoryHigh)
    }

    predicate Of(f: Fingerprint) {
      match f
      case ServiceInactive => inactive
      case BlockStalled => stalled
      case SyncLagCritical => lagCritical
      case SyncLagWarning => lagWarning
      case PeersZeroAlarm => peersZero
      case PeersLowAlarm => peersLow
      case DiskCritical => diskCritical
      case DiskWarning => diskWarning
      case MemoryHighAlarm => memoryHigh
    }
  }

  lemma {:induction false} StallStep(h: seq<Sample>, s: Sample)
    ensures var g := h + [s]; var p := Progress(g);
            && (p == if s.finalized > 0 && (Progress(h).None? || s.finalized != h[Progress(h).value].finalized)
                     then Some(|h|) else Progress(h))
            && (Stalled(g) <==>
                && p.Some?
                && s.now - g[p.value].now >= 5 * MINUTE
                && s.externalA - g[p.value].externalA >= 20
                && s.externalB - g[p.value].externalB >= 20)
  {
    var g := h + [s];
    assert g[..|h|] == h;
    forall i ensures Progress(g) == Some(i) <==> PlateauStart(g, i) {
      ProgressIsPlateauStart(g, i);
    }
  }

  // ---------- Consequences ----------

  ghost predicate Ordered(h: seq<Sample>) {
    forall i, j :: 0 <= i <= j < |h| ==> h[i].now <= h[j].now
  }

  /** With a non-decreasing clock "persisted" does not depend on the suffix being maximal. */
  lemma {:induction false} PersistedOnAnySuffix(h: seq<Sample>, c: Condition)
    requires Ordered(h)
    ensures Persisted(h, c) <==> exists i :: HeldFrom(h, c, i) && h[|h| - 1].now - h[i].now >= Hold(c)
  {
    forall i | HeldFrom(h, c, i) && h[|h| - 1].now - h[i].now >= Hold(c) ensures Persisted(h, c) {
      SinceStarts(h, c);
      assert Holds(c, h[|h| - 1]);
      var j := Since(h, c).value;
      assert SuffixStart(h, c, j) && h[j].now <= h[i].now;
    }
  }

  lemma {:induction false} SelectMembers(p: Fingerprint -> bool, order: seq<Fingerprint>, x: Signal)
    ensures x in Select(p, order) <==> exists f :: f in order && p(f) && x == SignalFor(f)
  {
    if order != [] {
      var f := order[|order| - 1];
      SelectMembers(p, order[..|order| - 1], x);
      assert order == order[..|order| - 1] + [f];
    }
  }

  /** A signal is emitted exactly when the history calls for its fingerprint. */
  lemma {:induction false} EmittedIffCalledFor(h: seq<Sample>, f: Fingerprint)
    requires h != []
    ensures SignalFor(f) in Expected(h) <==> Fires(h, f)
  {
    SelectMembers(g => Fires(h, g), ORDER, SignalFor(f));
    assert f in ORDER;
    assert forall g :: SignalFor(g) == SignalFor(f) ==> g == f;
  }

  /** p has held for at least this long. */
  ghost predicate HeldFor(h: seq<Sample>, p: Sample -> bool, duration: int) {
    exists i :: 0 <= i < |h| && h[|h| - 1].now - h[i].now >= duration && forall k :: i <= k < |h| ==> p(h[k])
  }

  lemma {:induction false} PersistedHeld(h: seq<Sample>, c: Condition, p: Sample -> bool)
    requires Ordered(h) && forall s :: p(s) <==> Holds(c, s)
    ensures Persisted(h, c) <==> HeldFor(h, p, Hold(c))
  {
    PersistedOnAnySuffix(h, c);
    hide Holds, Hold, Persisted;
    if HeldFor(h, p, Hold(c)) {
      var i :| 0 <= i < |h| && h[|h| - 1].now - h[i].now >= Hold(c) && forall k :: i <= k < |h| ==> p(h[k]);
      assert HeldFrom(h, c, i);
    }
    if i :| HeldFrom(h, c, i) && h[|h| - 1].now - h[i].now >= Hold(c) {
      assert forall k :: i <= k < |h| ==> p(h[k]);
    }
  }

  /** The persistence signals: what has to hold, for how many seconds, and how severe it is. */
  lemma {:induction false} PersistenceTable(h: seq<Sample>)
    requires h != [] && Ordered(h)
    ensures Signal(ServiceInactive, Critical, true) in Expected(h) <==>
            HeldFor(h, (s: Sample) => s.serviceState != "active", 60 * SECOND)
    ensures Signal(SyncLagCritical, Critical, false) in Expected(h) <==>
            HeldFor(h, (s: Sample) => s.lag > 120, 600 * SECOND)
    ensures Signal(SyncLagWarning, Warning, false) in Expected(h) <==>
            HeldFor(h, (s: Sample) => s.lag > 30, 300 * SECOND)
    ensures Signal(PeersZeroAlarm, Critical, false) in Expected(h) <==>
            HeldFor(h, (s: Sample) => s.peers == 0 && s.serviceState == "active", 180 * SECOND)
    ensures Signal(PeersLowAlarm, Warning, false) in Expected(h) <==>
            HeldFor(h, (s: Sample) => 1 <= s.peers <= 2, 300 * SECOND)
    ensures Signal(MemoryHighAlarm, Warning, false) in Expected(h) <==>
            HeldFor(h, (s: Sample) => s.memory >= 90.0, 600 * SECOND)
  {
    hide Expected, Persisted, HeldFor;
    EmittedIffCalledFor(h, ServiceInactive);
    EmittedIffCalledFor(h, SyncLagCritical);
    EmittedIffCalledFor(h, SyncLagWarning);
    EmittedIffCalledFor(h, PeersZeroAlarm);
    EmittedIffCalledFor(h, PeersLowAlarm);
    EmittedIffCalledFor(h, MemoryHighAlarm);
    PersistedHeld(h, Inactive, (s: Sample) => s.serviceState != "active");
    PersistedHeld(h, LagCritical, (s: Sample) => s.lag > 120);
    PersistedHeld(h, LagWarning, (s: Sample) => s.lag > 30);
    PersistedHeld(h, PeersZero, (s: Sample) => s.peers == 0 && s.serviceState == "active");
    PersistedHeld(h, PeersLow, (s: Sample) => 1 <= s.peers <= 2);
    PersistedHeld(h, MemoryHigh, (s: Sample) => s.memory >= 90.0);
  }

  /** The other three: the disk by its last value, and the stall by the current plateau of finalized heights. */
  lemma {:induction false} InstantTable(h: seq<Sample>)
    requires h != []
    ensures var last := h[|h| - 1];
            && (Signal(DiskCritical, Critical, false) in Expected(h) <==> last.disk >= 92.0)
            && (Signal(DiskWarning, Warning, false) in Expected(h) <==> 85.0 <= last.disk < 92.0)
            && (Signal(BlockStalled, Critical, true) in Expected(h) <==>
                exists i :: PlateauStart(h, i) && last.now - h[i].now >= 300 * SECOND &&
                  last.externalA - h[i].externalA >= 20 && last.externalB - h[i].externalB >= 20)
  {
    hide Expected, PlateauStart;
    EmittedIffCalledFor(h, DiskCritical);
    EmittedIffCalledFor(h, DiskWarning);
    EmittedIffCalledFor(h, BlockStalled);
  }

  /** The place of a signal in the output. */
  function Place(f: Fingerprint): int {
    match f
    case ServiceInactive => 1
    case BlockStalled => 2
    case SyncLagCritical => 3
    case SyncLagWarning => 4
    case PeersZeroAlarm => 5
    case PeersLowAlarm => 6
    case DiskCritical => 7
    case DiskWarning => 8
    case MemoryHighAlarm => 9
  }

  /** The signals are in ascending places up to `last`. */
  ghost predicate Ascending(s: seq<Signal>, last: int) {
    && (forall i, j :: 0 <= i < j < |s| ==> Place(s[i].fingerprint) < Place(s[j].fingerprint))
    && (forall i :: 0 <= i < |s| ==> Place(s[i].fingerprint) <= last)
  }

  lemma {:induction false} AscendingStep(s: seq<Signal>, last: int, x: Signal)
    requires Ascending(s, last) && last < Place(x.fingerprint)
    ensures Ascending(s, Place(x.fingerprint)) && Ascending(s + [x], Place(x.fingerprint))
  {
  }

  lemma {:induction false} SelectOrdered(p: Fingerprint -> bool, order: seq<Fingerprint>)
    requires forall k :: 0 <= k < |order| ==> Place(order[k]) == k + 1
    ensures Ascending(Select(p, order), |order|)
  {
    hide Place, Ascending;
    if order == [] {
      NoneAscending();
    } else {
      var n := |order| - 1;
      assert SignalFor(order[n]).fingerprint == order[n];
      hide SignalFor;
      SelectOrdered(p, order[..n]);
      assert Select(p, order[..n]) + [] == Select(p, order[..n]);
      AscendingStep(Select(p, order[..n]), n, SignalFor(order[n]));
    }
  }

  lemma {:induction false} NoneAscending()
    ensures Ascending([], 0)
  {
  }

  /** No sample emits a signal twice, and the signals come in a fixed order. */
  lemma {:induction false} EmittedInOrder(h: seq<Sample>, i: nat, j: nat)
    requires h != [] && i < j < |Expected(h)|
    ensures Place(Expected(h)[i].fingerprint) < Place(Expected(h)[j].fingerprint)
  {
    OrderPlaces();
    var p := f => Fires(h, f);
    assert Expected(h) == Select(p, ORDER);
    hide ORDER, Place, Fires, Expected;
    SelectOrdered(p, ORDER);
  }

  lemma {:induction false} OrderPlaces()
    ensures forall k :: 0 <= k < |ORDER| ==> Place(ORDER[k]) == k + 1
  {
    assert |ORDER| == 9;
  }

  /** A critical lag signal is always accompanied by the warning. */
  lemma {:induction false} CriticalLagComesWithWarning(h: seq<Sample>)
    requires h != [] && Ordered(h)
    requires SignalFor(SyncLagCritical) in Expected(h)
    ensures SignalFor(SyncLagWarning) in Expected(h)
  {
    EmittedIffCalledFor(h, SyncLagCritical);
    EmittedIffCalledFor(h, SyncLagWarning);
    var i :| SuffixStart(h, LagCritical, i) && h[|h| - 1].now - h[i].now >= Hold(LagCritical);
    assert HeldFrom(h, LagWarning, i);
    PersistedOnAnySuffix(h, LagWarning);
  }

  /** Only a stopped service and a stalled chain may lead to an automatic restart. */
  lemma {:induction false} OnlyTwoCandidates(h: seq<Sample>, x: Signal)
    requires h != [] && x in Expected(h)
    ensures x.autoCandidate <==> x.fingerprint in {ServiceInactive, BlockStalled}
  {
    SelectMembers(g => Fires(h, g), ORDER, x);
  }
}
