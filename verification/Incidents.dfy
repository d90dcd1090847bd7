/** What a pass of the controller does to the incident table (cmd/controller/main.go). */
module Incidents {
  import opened Base
  import opened Controller

  // ---------- Under faults ----------

  /** The more severe of two: critical before warning before info. */
  lemma {:induction false} WorseMeans(a: Severity, b: Severity)
    ensures Worse(a, b) == (if Critical in {a, b} then Critical else if Warning in {a, b} then Warning else Info)
    ensures Rank(b) > Rank(a) <==> a != b && (b == Critical || a == Info)
  {
  }

  /** The signal opens a new row and learns of it, or finds the row and is more severe. */
  predicate OpensRow(st: State, s: Signal, io: SignalIo) {
    s.fingerprint !in st.open && !IdUsed(st.open, st.resolved, io.newId)
  }

  predicate Escalates(st: State, s: Signal, io: SignalIo) {
    && s.fingerprint in st.open && io.insert == NoFault && io.lookupOk
    && var was := st.open[s.fingerprint].severity; was != s.severity && (was == Info || s.severity == Critical)
  }

  /** What one signal does to the table and to what is known about the mail, whatever fails: a statement takes effect
      unless it failed before, and a mail is sent only if its statement was answered. */
  lemma {:induction false} SignalEffect(st: State, env: Env, s: Signal, io: SignalIo)
    ensures var next := HandleSignal(st, env, s, io);
            && next.open == (if OpensRow(st, s, io) && io.insert != FailedBefore
                             then st.open[s.fingerprint := OpenRow(io.newId, s.severity)]
                             else if Escalates(st, s, io) && io.escalate != FailedBefore
                             then st.open[s.fingerprint := OpenRow(st.open[s.fingerprint].id, s.severity)]
                             else st.open)
            && next.resolved == st.resolved
            && next.smtpHealthy == (if OpensRow(st, s, io) && io.insert == NoFault then io.mailOk
                                    else if Escalates(st, s, io) && io.escalate == NoFault then io.mailOk
                                    else st.smtpHealthy)
  {
    if s.fingerprint in st.open {
      WorseMeans(st.open[s.fingerprint].severity, s.severity);
    }
    hide IdUsed, MaybeEnqueueAuto, See, Rank;
    var (after, outcome) := OpenIncident(st, s, io);
    if outcome.OpenedNow? {
      var mailed := after.(smtpHealthy := io.mailOk);
      SeeKeeps(mailed, s.fingerprint, io.now);
      EnqueueAdds(if s.autoCandidate then See(mailed, s.fingerprint, io.now) else mailed, env, s.fingerprint,
                  outcome.row.id, io);
    } else if outcome.AlreadyOpen? {
      EnqueueAdds(after, env, s.fingerprint, outcome.row.id, io);
    }
  }

  /** What the sweep does to a row, whatever fails: a row that was read, is not signalled and is not a silence held by
      an unhealthy chain is forgotten, and closed if its update took effect; every other row stays. */
  lemma {:induction false} SweepEffect(st: State, input: PassInput, f: string)
    requires f in st.open
    ensures var next := Resolve(st, input);
            var over := f in input.sweep.visited && f !in Fingerprints(input.signals)
                        && (f != "reward-silence" || input.env.chainHealthy);
            && (f in next.open <==> !(over && f in input.sweep.updated))
            && (f in next.open ==> next.open[f] == st.open[f])
            && (f in next.autoSeen <==> f in st.autoSeen && !over)
            && (f in next.autoSeen ==> next.autoSeen[f] == st.autoSeen[f])
            && (over && f in input.sweep.updated ==> st.open[f].id in next.resolved)
            && next.actions == st.actions && next.smtpHealthy == st.smtpHealthy
  {
    hide Fingerprints;
  }

  // ---------- The incident table after a fault-free pass ----------

  /** No database call fails and every new incident id is unused. */
  ghost predicate CleanSignals(st: State, env: Env, signals: seq<(Signal, SignalIo)>) {
    signals != [] ==>
      var n := |signals| - 1;
      && CleanSignals(st, env, signals[..n])
      && signals[n].1.insert.NoFault? && signals[n].1.lookupOk && signals[n].1.escalate.NoFault?
      && var mid := HandleAll(st, env, signals[..n]);
         !IdUsed(mid.open, mid.resolved, signals[n].1.newId)
  }

  ghost predicate FaultFree(st: State, input: PassInput) {
    && CleanSignals(st, input.env, input.signals)
    && HandleAll(st, input.env, input.signals).open.Keys <= input.sweep.visited <= input.sweep.updated
  }

  ghost predicate Bounds(s: Severity, signals: seq<(Signal, SignalIo)>, f: string) {
    forall i :: 0 <= i < |signals| && signals[i].0.fingerprint == f ==> Rank(signals[i].0.severity) <= Rank(s)
  }

  ghost predicate Attains(s: Severity, signals: seq<(Signal, SignalIo)>, f: string) {
    exists i :: 0 <= i < |signals| && signals[i].0.fingerprint == f && signals[i].0.severity == s
  }

  lemma {:induction false} EnqueueKeepsOpen(st: State, env: Env, f: string, incident: string, io: SignalIo)
    ensures MaybeEnqueueAuto(st, env, f, incident, io).open == st.open
  {
  }

  lemma {:induction false} CleanSignal(st: State, env: Env, s: Signal, io: SignalIo)
    requires io.insert.NoFault? && io.lookupOk && io.escalate.NoFault? && !IdUsed(st.open, st.resolved, io.newId)
    ensures var f := s.fingerprint;
            HandleSignal(st, env, s, io).open ==
            st.open[f := if f in st.open then OpenRow(st.open[f].id, Worse(st.open[f].severity, s.severity))
                         else OpenRow(io.newId, s.severity)]
  {
    var (after, outcome) := OpenIncident(st, s, io);
    if outcome.OpenedNow? {
      var mailed := after.(smtpHealthy := io.mailOk);
      var seen := if s.autoCandidate then See(mailed, s.fingerprint, io.now) else mailed;
      EnqueueKeepsOpen(seen, env, s.fingerprint, io.newId, io);
    } else {
      EnqueueKeepsOpen(after, env, s.fingerprint, st.open[s.fingerprint].id, io);
    }
  }

  /** f's row in `next` has the highest severity among its row in `before`, if any, and the signals. */
  ghost predicate HighestOf(before: map<string, OpenRow>, next: map<string, OpenRow>,
                            signals: seq<(Signal, SignalIo)>, f: string)
    requires f in next
  {
    && Bounds(next[f].severity, signals, f)
    && (f in before ==> Rank(before[f].severity) <= Rank(next[f].severity))
    && (Attains(next[f].severity, signals, f) || (f in before && before[f].severity == next[f].severity))
  }

  lemma {:induction false} HighestStep(before: map<string, OpenRow>, mid: map<string, OpenRow>,
                                       next: map<string, OpenRow>, signals: seq<(Signal, SignalIo)>,
                                       x: (Signal, SignalIo), f: string)
    requires f in next && (f in mid ==> HighestOf(before, mid, signals, f)) && before.Keys <= mid.Keys
    requires f !in mid ==> forall i :: 0 <= i < |signals| ==> signals[i].0.fingerprint != f
    requires f != x.0.fingerprint ==> f in mid && next[f] == mid[f]
    requires f == x.0.fingerprint ==>
               next[f].severity == if f in mid then Worse(mid[f].severity, x.0.severity) else x.0.severity
    ensures HighestOf(before, next, signals + [x], f)
  {
    var all := signals + [x];
    if f in mid && Attains(mid[f].severity, signals, f) {
      var i :| 0 <= i < |signals| && signals[i].0.fingerprint == f && signals[i].0.severity == mid[f].severity;
      assert all[i].0.fingerprint == f && all[i].0.severity == mid[f].severity;
    }
    assert all[|signals|] == x;
  }

  /** The signals leave every fingerprint they mention open, at the highest severity met so far. */
  lemma {:induction false} SignalsOpen(st: State, env: Env, signals: seq<(Signal, SignalIo)>)
    requires CleanSignals(st, env, signals)
    ensures var next := HandleAll(st, env, signals);
            && next.open.Keys == st.open.Keys + Fingerprints(signals)
            && forall f :: f in next.open ==> HighestOf(st.open, next.open, signals, f)
  {
    if signals != [] {
      var n := |signals| - 1;
      SignalsOpen(st, env, signals[..n]);
      CleanSignal(HandleAll(st, env, signals[..n]), env, signals[n].0, signals[n].1);
      HighestAll(st.open, HandleAll(st, env, signals[..n]).open, HandleAll(st, env, signals).open, signals);
    }
  }

  lemma {:induction false} HighestAll(before: map<string, OpenRow>, mid: map<string, OpenRow>,
                                      next: map<string, OpenRow>, signals: seq<(Signal, SignalIo)>)
    requires signals != []
    requires var shorter := signals[..|signals| - 1];
             && mid.Keys == before.Keys + Fingerprints(shorter)
             && forall f :: f in mid ==> HighestOf(before, mid, shorter, f)
    requires var x := signals[|signals| - 1]; var f := x.0.fingerprint;
             next == mid[f := if f in mid then OpenRow(mid[f].id, Worse(mid[f].severity, x.0.severity))
                              else OpenRow(x.1.newId, x.0.severity)]
    ensures next.Keys == before.Keys + Fingerprints(signals)
    ensures forall f :: f in next ==> HighestOf(before, next, signals, f)
  {
    var n := |signals| - 1;
    hide HighestOf;
    assert signals == signals[..n] + [signals[n]];
    assert Fingerprints(signals) == Fingerprints(signals[..n]) + {signals[n].0.fingerprint} by {
      assert forall i :: 0 <= i < n ==> signals[..n][i] == signals[i];
    }
    forall f | f in next ensures HighestOf(before, next, signals, f) {
      assert forall i :: f !in mid && 0 <= i < n ==> signals[..n][i].0.fingerprint in Fingerprints(signals[..n]);
      HighestStep(before, mid, next, signals[..n], signals[n], f);
    }
  }

  /** After a fault-free pass the open fingerprints are exactly the current signals, plus an already open
      silence of rewards that is held while the node or the chain is unhealthy. */
  lemma {:induction false} OpenAfterPass(st: State, input: PassInput)
    requires FaultFree(st, input)
    ensures var next := HandleSignals(st, input);
            && next.open.Keys == Fingerprints(input.signals) + set f | f in st.open && Held(input.env, f)
            && forall f :: f in next.open ==>
                 next.open[f] == HandleAll(st, input.env, input.signals).open[f]
  {
    SignalsOpen(st, input.env, input.signals);
  }

  /** What a fault-free pass leaves open: every signalled incident; of the others only an open silence of rewards,
      and that exactly while the node or the chain is unhealthy. */
  lemma {:induction false} LeftOpenIff(st: State, input: PassInput, f: string)
    requires FaultFree(st, input)
    ensures var next := HandleSignals(st, input);
            && (f in Fingerprints(input.signals) ==> f in next.open)
            && (f !in Fingerprints(input.signals) ==>
                  (f in next.open <==> f == "reward-silence" && f in st.open && !input.env.chainHealthy))
            && (f in st.open && f !in next.open ==> st.open[f].id in next.resolved)
  {
    OpenAfterPass(st, input);
    SignalsOpen(st, input.env, input.signals);
    Resolves(HandleAll(st, input.env, input.signals), input, f);
    RowsKeepIds(st, input.env, input.signals, f);
    hide HandleAll, FaultFree, Fingerprints, HighestOf;
  }

  /** A row that is closed is resolved under its id. */
  lemma {:induction false} Resolves(st: State, input: PassInput, f: string)
    ensures f in st.open && f !in Resolve(st, input).open ==> st.open[f].id in Resolve(st, input).resolved
  {
  }

  /** Signals change the severity of an open incident but not its id. */
  lemma {:induction false} RowsKeepIds(st: State, env: Env, signals: seq<(Signal, SignalIo)>, f: string)
    requires CleanSignals(st, env, signals)
    ensures var next := HandleAll(st, env, signals);
            f in st.open ==> f in next.open && next.open[f].id == st.open[f].id
  {
    hide HandleSignal, IdUsed;
    if signals != [] {
      var n := |signals| - 1;
      RowsKeepIds(st, env, signals[..n], f);
      CleanSignal(HandleAll(st, env, signals[..n]), env, signals[n].0, signals[n].1);
    }
  }

  // ---------- Runs ----------

  /** What happens to the table: passes, diagnoses on request, and restarts of the controller. */
  datatype Step =
    | Pass(input: PassInput)
    | Job(id: string, io: SignalIo)
    | Restart

  /** A diagnosis on request opens an incident of its own, of the lowest severity. */
  function JobSignal(id: string): Signal {
    Signal("manual-diagnosis-" + id, Info, false)
  }

  function Next(st: State, e: Step): State {
    match e
    case Pass(input) => HandleSignals(st, input)
    case Job(id, io) => OpenIncident(st, JobSignal(id), io).0
    case Restart => Restarted(st)
  }

  ghost function Exec(run: seq<Step>): State {
    if run == [] then New() else Next(Exec(run[..|run| - 1]), run[|run| - 1])
  }

  ghost predicate StepFaultFree(st: State, e: Step) {
    match e
    case Pass(input) => FaultFree(st, input)
    case Job(id, io) => io.insert.NoFault? && !IdUsed(st.open, st.resolved, io.newId)
    case Restart => true
  }

  ghost predicate RunFaultFree(run: seq<Step>) {
    run != [] ==> RunFaultFree(run[..|run| - 1]) && StepFaultFree(Exec(run[..|run| - 1]), run[|run| - 1])
  }

  function Signalled(e: Step): seq<(Signal, SignalIo)> {
    match e
    case Pass(input) => input.signals
    case Job(id, io) => [(JobSignal(id), io)]
    case Restart => []
  }

  /** The signals of the steps from i on. */
  ghost function SignalsFrom(run: seq<Step>, i: nat): seq<(Signal, SignalIo)>
    requires i <= |run|
  {
    if i == |run| then [] else SignalsFrom(run[..|run| - 1], i) + Signalled(run[|run| - 1])
  }

  /** f was opened by step i, which carried its signal, and has been open since. */
  ghost predicate OpenSince(run: seq<Step>, f: string, i: nat) {
    && i < |run| && f !in Exec(run[..i]).open && f in Fingerprints(Signalled(run[i]))
    && forall k :: i < k <= |run| ==> f in Exec(run[..k]).open
  }

  lemma {:induction false} OpenSinceStep(run: seq<Step>, f: string, i: nat)
    requires run != [] && f in Exec(run).open && OpenSince(run[..|run| - 1], f, i)
    ensures OpenSince(run, f, i)
  {
    hide Next;
    var n := |run| - 1;
    assert run[..|run|] == run;
    assert run[..n][..i] == run[..i];
    forall k | i < k <= |run| ensures f in Exec(run[..k]).open {
      if k <= n {
        assert run[..n][..k] == run[..k];
      }
    }
  }

  /** Whatever happened before, the next fault-free pass closes a silence of rewards once the chain is healthy and it
      is not signalled, and keeps it as long as the chain is unhealthy; any other incident it closes at once. */
  lemma {:induction false} SilenceIsHeld(run: seq<Step>, input: PassInput, f: string)
    requires FaultFree(Exec(run), input) && f in Exec(run).open && f !in Fingerprints(input.signals)
    ensures f in Exec(run + [Pass(input)]).open <==> f == "reward-silence" && !input.env.chainHealthy
  {
    assert (run + [Pass(input)])[..|run|] == run;
    LeftOpenIff(Exec(run), input, f);
  }

  /** One step leaves every open incident at the highest severity among its own before and the signals, and opens
      only what is signalled. */
  lemma {:induction false} StepOpens(st: State, e: Step)
    requires StepFaultFree(st, e)
    ensures var next := Next(st, e);
            forall f :: f in next.open ==>
              && HighestOf(st.open, next.open, Signalled(e), f)
              && (f in st.open || f in Fingerprints(Signalled(e)))
  {
    match e
    case Pass(input) =>
      OpenAfterPass(st, input);
      SignalsOpen(st, input.env, input.signals);
      hide HandleSignals, HandleAll, FaultFree, Held, Fingerprints;
    case Job(id, io) => JobOpens(st, id, io);
    case Restart =>
  }

  lemma {:induction false} JobOpens(st: State, id: string, io: SignalIo)
    requires io.insert.NoFault? && !IdUsed(st.open, st.resolved, io.newId)
    ensures var next := OpenIncident(st, JobSignal(id), io).0;
            forall f :: f in next.open ==>
              && HighestOf(st.open, next.open, [(JobSignal(id), io)], f)
              && (f in st.open || f in Fingerprints([(JobSignal(id), io)]))
  {
    hide IdUsed;
    var signals := [(JobSignal(id), io)];
    assert signals[0].0 == JobSignal(id);
  }

  /** In a run without faults an open incident was opened by some step i that carried its signal, has been open
      since, and has the highest severity signalled since, across restarts of the controller. */
  lemma {:induction false} SeverityIsHighestSinceOpening(run: seq<Step>, f: string) returns (i: nat)
    requires RunFaultFree(run) && f in Exec(run).open
    ensures OpenSince(run, f, i)
    ensures Bounds(Exec(run).open[f].severity, SignalsFrom(run, i), f)
    ensures Attains(Exec(run).open[f].severity, SignalsFrom(run, i), f)
  {
    hide Next, StepFaultFree, Bounds, Attains, Fingerprints;
    var n := |run| - 1;
    assert run[..|run|] == run;
    var before := Exec(run[..n]);
    StepOpens(before, run[n]);
    var s := Exec(run).open[f].severity;
    if f in before.open {
      hide OpenSince;
      i := SeverityIsHighestSinceOpening(run[..n], f);
      OpenSinceStep(run, f, i);
      Joined(s, before.open[f].severity, SignalsFrom(run[..n], i), Signalled(run[n]), f);
    } else {
      i := n;
      assert SignalsFrom(run, |run|) == [];
      assert SignalsFrom(run, n) == Signalled(run[n]);
    }
  }

  lemma {:induction false} Joined(s: Severity, earlier: Severity, a: seq<(Signal, SignalIo)>,
                                  b: seq<(Signal, SignalIo)>, f: string)
    requires Bounds(earlier, a, f) && Attains(earlier, a, f) && Rank(earlier) <= Rank(s) && Bounds(s, b, f)
    requires Attains(s, b, f) || s == earlier
    ensures Bounds(s, a + b, f) && Attains(s, a + b, f)
  {
    if Attains(s, b, f) {
      var i :| 0 <= i < |b| && b[i].0.fingerprint == f && b[i].0.severity == s;
      assert (a + b)[|a| + i] == b[i];
    } else {
      var i :| 0 <= i < |a| && a[i].0.fingerprint == f && a[i].0.severity == s;
      assert (a + b)[i] == a[i];
    }
  }
}
