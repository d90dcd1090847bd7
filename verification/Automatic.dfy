/** Automatic restarts over whole runs (handleSignals and maybeEnqueueAuto of cmd/controller/main.go): what must
have happened before one, and which incidents never lead to one. */
module Automatic {
  import opened Base
  import opened Controller
  import opened Remediation
  import Incidents

  // ---------- What one pass does ----------

  /** One signal is remembered at its own instant or not at all. */
  lemma {:induction false} SignalSees(st: State, env: Env, s: Signal, io: SignalIo)
    ensures var next := HandleSignal(st, env, s, io);
            next.autoSeen == st.autoSeen || next.autoSeen == st.autoSeen[s.fingerprint := io.now]
  {
    hide HandleSignal, MaybeEnqueueAuto, See;
    var base, offered, sees := SignalShape(st, env, s, io);
    if offered {
      SeeKeeps(base, s.fingerprint, io.now);
      EnqueueAdds(if sees then See(base, s.fingerprint, io.now) else base, env, s.fingerprint,
                  base.open[s.fingerprint].id, io);
    }
  }

  /** The state right after a signal that queued an action: its incident, its first sight and the guard. */
  ghost predicate QueuedBy(st: State, env: Env, s: Signal, io: SignalIo, key: string) {
    && s.autoCandidate
    && s.fingerprint in st.open && key == AutoKey(st.open[s.fingerprint].id)
    && s.fingerprint in st.autoSeen && Safe(st.smtpHealthy, env, st.autoSeen[s.fingerprint], io)
  }

  /** One signal queues an action only for its own open incident, if it is a candidate and the guard holds. */
  lemma {:induction false} SignalQueues(st: State, env: Env, s: Signal, io: SignalIo, key: string)
    requires Inv(st)
    ensures var next := HandleSignal(st, env, s, io);
            && (key in st.actions ==> key in next.actions && next.actions[key] == st.actions[key])
            && (key in next.actions && key !in st.actions ==>
                  QueuedBy(next, env, s, io, key) && next.actions[key].id == io.actionId)
  {
    hide HandleSignal, MaybeEnqueueAuto, See, QueuedBy;
    var base, offered, sees := SignalShape(st, env, s, io);
    if offered {
      SeeKeeps(base, s.fingerprint, io.now);
      EnqueueQueues(if sees then See(base, s.fingerprint, io.now) else base, env, s, io, key);
    }
  }

  lemma {:induction false} EnqueueQueues(st: State, env: Env, s: Signal, io: SignalIo, key: string)
    requires s.fingerprint in st.open && (s.autoCandidate || s.fingerprint !in st.autoSeen)
    ensures var next := MaybeEnqueueAuto(st, env, s.fingerprint, st.open[s.fingerprint].id, io);
            && (key in st.actions ==> key in next.actions && next.actions[key] == st.actions[key])
            && (key in next.actions && key !in st.actions ==>
                  QueuedBy(next, env, s, io, key) && next.actions[key].id == io.actionId)
  {
    hide AutoKey, ActionIdUsed, Safe;
  }

  /** What is remembered after the signals was remembered before, or is the instant of one of them. */
  lemma {:induction false} SeenInPass(st: State, env: Env, signals: seq<(Signal, SignalIo)>, f: string)
    returns (i: Option<nat>)
    requires f in HandleAll(st, env, signals).autoSeen
    ensures i.None? ==> f in st.autoSeen && HandleAll(st, env, signals).autoSeen[f] == st.autoSeen[f]
    ensures i.Some? ==> i.value < |signals| && signals[i.value].0.fingerprint == f
                        && HandleAll(st, env, signals).autoSeen[f] == signals[i.value].1.now
  {
    hide HandleSignal;
    if signals == [] {
      i := None;
    } else {
      var n := |signals| - 1;
      var before := HandleAll(st, env, signals[..n]);
      SignalSees(before, env, signals[n].0, signals[n].1);
      if HandleAll(st, env, signals).autoSeen == before.autoSeen || f != signals[n].0.fingerprint {
        i := SeenInPass(st, env, signals[..n], f);
      } else {
        i := Some(n);
      }
    }
  }

  /** An action queued by a pass was queued by one of its signals. */
  lemma {:induction false} QueuedInPass(st: State, env: Env, signals: seq<(Signal, SignalIo)>, key: string)
    returns (j: nat)
    requires Inv(st)
    requires key !in st.actions && key in HandleAll(st, env, signals).actions
    ensures j < |signals|
    ensures QueuedBy(HandleAll(st, env, signals[..j + 1]), env, signals[j].0, signals[j].1, key)
    ensures HandleAll(st, env, signals).actions[key].id == signals[j].1.actionId
  {
    hide HandleSignal, QueuedBy;
    var n := |signals| - 1;
    var before := HandleAll(st, env, signals[..n]);
    AllInv(st, env, signals[..n]);
    SignalQueues(before, env, signals[n].0, signals[n].1, key);
    if key in before.actions {
      j := QueuedInPass(st, env, signals[..n], key);
      assert signals[..n][..j + 1] == signals[..j + 1];
    } else {
      j := n;
      assert signals[..n + 1] == signals;
    }
  }

  lemma {:induction false} ActionsStay(st: State, env: Env, signals: seq<(Signal, SignalIo)>, key: string)
    requires Inv(st) && key in st.actions
    ensures key in HandleAll(st, env, signals).actions
    ensures HandleAll(st, env, signals).actions[key] == st.actions[key]
  {
    hide HandleSignal;
    if signals != [] {
      var n := |signals| - 1;
      ActionsStay(st, env, signals[..n], key);
      AllInv(st, env, signals[..n]);
      SignalQueues(HandleAll(st, env, signals[..n]), env, signals[n].0, signals[n].1, key);
    }
  }

  // ---------- Sightings over a run ----------

  /** The controller before step n. */
  ghost function Ctl(now: int, run: seq<Event>, n: nat): State
    requires n <= |run|
  {
    Exec(now, run[..n]).ctl
  }

  /** Pass n carries fingerprint f in its i-th signal. */
  predicate Carries(run: seq<Event>, n: nat, i: nat, f: string) {
    && n < |run| && run[n].SignalPass? && i < |run[n].input.signals|
    && run[n].input.signals[i].0.fingerprint == f
  }

  /** The controller in pass n once the first j signals are handled. */
  ghost function During(now: int, run: seq<Event>, n: nat, j: nat): State
    requires n < |run| && run[n].SignalPass? && j <= |run[n].input.signals|
  {
    HandleAll(Ctl(now, run, n), run[n].input.env, run[n].input.signals[..j])
  }

  /** The sweep of pass n read the row of f, or every open row. */
  ghost predicate Swept(now: int, run: seq<Event>, n: nat, f: string)
    requires n < |run| && run[n].SignalPass?
  {
    var visited := run[n].input.sweep.visited;
    f in visited || During(now, run, n, |run[n].input.signals|).open.Keys <= visited
  }

  /** Step n is not a restart of the controller, and if it is a pass that swept f, then it carried f again, or
      f is a silence held open. */
  ghost predicate Continues(now: int, run: seq<Event>, n: nat, f: string)
    requires n < |run|
  {
    && !run[n].ControllerRestart?
    && (run[n].SignalPass? && Swept(now, run, n, f) ==>
          f in Fingerprints(run[n].input.signals) || Held(run[n].input.env, f))
  }

  /** f was first seen at `first`, by the i-th signal of pass m, and has been there up to step n. */
  ghost predicate Sighting(now: int, run: seq<Event>, m: nat, i: nat, n: nat, f: string, first: int) {
    && m < n <= |run| && Carries(run, m, i, f) && run[m].input.signals[i].1.now == first
    && forall k :: m <= k < n ==> Continues(now, run, k, f)
  }

  /** The two signals an automatic action rests on: the i-th of pass m and the j-th of pass n. */
  datatype Warrant = Warrant(m: nat, i: nat, n: nat, j: nat)

  /** Signal j of pass n, an automatic candidate, queued the action `id` under `key`, the key of its open
      incident.  Its fingerprint was first seen by signal i of pass m in the same controller process, at least a
      minute before, and every sweep from then on saw it again.  At that moment automation was enabled and past
      its observation period, the host was not locked, the diagnosis asked for a restart with confidence, and
      both external nodes, the agent, the metrics, the disk and the mail were in order. */
  ghost predicate Warrants(now: int, run: seq<Event>, w: Warrant, key: string, id: string) {
    && w.m <= w.n < |run| && run[w.n].SignalPass? && w.j < |run[w.n].input.signals|
    && var (s, io) := run[w.n].input.signals[w.j];
       var env := run[w.n].input.env;
       var st := During(now, run, w.n, w.j + 1);
       && s.autoCandidate && id == io.actionId
       && s.fingerprint in st.open && key == AutoKey(st.open[s.fingerprint].id)
       && Carries(run, w.m, w.i, s.fingerprint) && (w.m == w.n ==> w.i <= w.j)
       && (forall k :: w.m <= k < w.n ==> Continues(now, run, k, s.fingerprint))
       && var first := run[w.m].input.signals[w.i].1.now;
          && io.now - first >= MINUTE
          && env.enabled && !env.hostLocked && io.now > env.eligibleAt
          && io.diagnosis.recommendedAction == "restart_service" && io.diagnosis.confidence >= 0.90
          && env.externalOk && env.agentOk && env.metricsOk && env.disk < 92.0 && st.smtpHealthy
  }

  ghost predicate AllSighted(now: int, run: seq<Event>, n: nat, seen: map<string, int>) {
    forall f :: f in seen ==> exists m: nat, i: nat :: Sighting(now, run, m, i, n, f, seen[f])
  }

  ghost predicate AllWarranted(now: int, run: seq<Event>, actions: map<string, Action>) {
    forall key :: key in actions && actions[key].automatic ==>
      exists w: Warrant :: Warrants(now, run, w, key, actions[key].id)
  }

  lemma {:induction false} CtlStep(now: int, run: seq<Event>, n: nat)
    requires n < |run|
    ensures Ctl(now, run, n + 1) == Next(Exec(now, run[..n]), run[n]).ctl
  {
    assert run[..n + 1][..n] == run[..n];
    hide Next;
  }

  lemma {:induction false} MemoryIsOpen(now: int, run: seq<Event>, n: nat)
    requires n <= |run|
    ensures Inv(Ctl(now, run, n))
  {
    RunInv(now, run[..n]);
    hide Exec;
  }

  /** Steps other than passes remember nothing new and queue nothing automatic. */
  lemma {:induction false} OtherSteps(s: System, e: Event)
    requires !e.SignalPass?
    ensures var next := Next(s, e).ctl;
            && (if e.ControllerRestart? then next.autoSeen == map[] else next.autoSeen == s.ctl.autoSeen)
            && forall k :: k in next.actions && next.actions[k].automatic ==>
                 k in s.ctl.actions && s.ctl.actions[k].automatic && next.actions[k].id == s.ctl.actions[k].id
  {
    hide ValidManual, Trimmed, SameRequest, IdUsed, ActionIdUsed;
  }

  /** A sighting that a pass leaves remembered continues through it. */
  lemma {:induction false} PassContinues(now: int, run: seq<Event>, n: nat, f: string)
    requires n < |run| && run[n].SignalPass? && f in Ctl(now, run, n + 1).autoSeen
    ensures Continues(now, run, n, f)
  {
    CtlStep(now, run, n);
    MemoryIsOpen(now, run, n + 1);
    var input := run[n].input;
    var handled := HandleAll(Ctl(now, run, n), input.env, input.signals);
    assert input.signals[..|input.signals|] == input.signals;
    hide Exec, HandleAll;
    assert f in handled.open;
  }

  lemma {:induction false} Extend(now: int, run: seq<Event>, m: nat, i: nat, n: nat, f: string, first: int)
    requires n < |run| && Sighting(now, run, m, i, n, f, first) && Continues(now, run, n, f)
    ensures Sighting(now, run, m, i, n + 1, f, first)
  {
    hide Continues;
  }

  /** A fingerprint remembered after a pass has a sighting. */
  lemma {:induction false} PassSights(now: int, run: seq<Event>, n: nat, f: string) returns (m: nat, i: nat)
    requires n < |run| && run[n].SignalPass? && AllSighted(now, run, n, Ctl(now, run, n).autoSeen)
    requires f in Ctl(now, run, n + 1).autoSeen
    ensures Sighting(now, run, m, i, n + 1, f, Ctl(now, run, n + 1).autoSeen[f])
  {
    PassContinues(now, run, n, f);
    CtlStep(now, run, n);
    var st, input := Ctl(now, run, n), run[n].input;
    var handled := HandleAll(st, input.env, input.signals);
    assert Ctl(now, run, n + 1).autoSeen[f] == handled.autoSeen[f];
    var found := SeenInPass(st, input.env, input.signals, f);
    hide Exec, HandleAll, Continues, Ctl;
    if found.Some? {
      m, i := n, found.value;
    } else {
      m, i :| Sighting(now, run, m, i, n, f, st.autoSeen[f]);
      Extend(now, run, m, i, n, f, st.autoSeen[f]);
    }
  }

  /** An action queued in a pass has a warrant. */
  lemma {:induction false} PassWarrants(now: int, run: seq<Event>, n: nat, key: string) returns (w: Warrant)
    requires n < |run| && run[n].SignalPass? && AllSighted(now, run, n, Ctl(now, run, n).autoSeen)
    requires key in Ctl(now, run, n + 1).actions && key !in Ctl(now, run, n).actions
    ensures Warrants(now, run, w, key, Ctl(now, run, n + 1).actions[key].id)
  {
    hide Exec, HandleAll, Continues, Ctl, QueuedBy, Warrants, Sighting, During;
    MemoryIsOpen(now, run, n);
    PassTables(now, run, n);
    var st, input := Ctl(now, run, n), run[n].input;
    var j := QueuedInPass(st, input.env, input.signals, key);
    var (s, io) := input.signals[j];
    DuringOf(now, run, n, j + 1);
    QueuedIsSeen(During(now, run, n, j + 1), input.env, s, io, key);
    var found := SeenInPass(st, input.env, input.signals[..j + 1], s.fingerprint);
    if found.Some? {
      w := Warrant(n, found.value, n, j);
      MakeWarrant(now, run, w, key);
    } else {
      var m: nat, i: nat :| Sighting(now, run, m, i, n, s.fingerprint, st.autoSeen[s.fingerprint]);
      w := Warrant(m, i, n, j);
      SightingMeans(now, run, m, i, n, s.fingerprint, st.autoSeen[s.fingerprint]);
      MakeWarrant(now, run, w, key);
    }
  }

  lemma {:induction false} PassTables(now: int, run: seq<Event>, n: nat)
    requires n < |run| && run[n].SignalPass?
    ensures Ctl(now, run, n + 1).actions ==
            HandleAll(Ctl(now, run, n), run[n].input.env, run[n].input.signals).actions
  {
    CtlStep(now, run, n);
    hide Exec, HandleAll;
  }

  lemma {:induction false} DuringOf(now: int, run: seq<Event>, n: nat, j: nat)
    requires n < |run| && run[n].SignalPass? && j <= |run[n].input.signals|
    ensures During(now, run, n, j) == HandleAll(Ctl(now, run, n), run[n].input.env, run[n].input.signals[..j])
  {
  }

  lemma {:induction false} QueuedIsSeen(st: State, env: Env, s: Signal, io: SignalIo, key: string)
    requires QueuedBy(st, env, s, io, key)
    ensures s.fingerprint in st.autoSeen
  {
  }

  lemma {:induction false} SightingMeans(now: int, run: seq<Event>, m: nat, i: nat, n: nat, f: string, first: int)
    requires Sighting(now, run, m, i, n, f, first)
    ensures m < n <= |run| && Carries(run, m, i, f) && run[m].input.signals[i].1.now == first
    ensures forall k :: m <= k < n ==> Continues(now, run, k, f)
  {
  }

  lemma {:induction false} MakeWarrant(now: int, run: seq<Event>, w: Warrant, key: string)
    requires w.m <= w.n < |run| && run[w.n].SignalPass? && w.j < |run[w.n].input.signals|
    requires var (s, io) := run[w.n].input.signals[w.j];
             var st := During(now, run, w.n, w.j + 1);
             && QueuedBy(st, run[w.n].input.env, s, io, key)
             && Carries(run, w.m, w.i, s.fingerprint) && (w.m == w.n ==> w.i <= w.j)
             && s.fingerprint in st.autoSeen && st.autoSeen[s.fingerprint] == run[w.m].input.signals[w.i].1.now
             && forall k :: w.m <= k < w.n ==> Continues(now, run, k, s.fingerprint)
    ensures Warrants(now, run, w, key, run[w.n].input.signals[w.j].1.actionId)
  {
    hide During, Continues, AutoKey;
  }

  lemma {:induction false} StepSights(now: int, run: seq<Event>, n: nat)
    requires n < |run| && AllSighted(now, run, n, Ctl(now, run, n).autoSeen)
    ensures AllSighted(now, run, n + 1, Ctl(now, run, n + 1).autoSeen)
  {
    hide Exec, HandleAll, Sighting, Ctl, Next;
    var next := n + 1;
    var after := Ctl(now, run, next).autoSeen;
    CtlOf(now, run, n);
    forall f | f in after ensures exists m: nat, i: nat :: Sighting(now, run, m, i, next, f, after[f]) {
      if run[n].SignalPass? {
        var m, i := PassSights(now, run, n, f);
      } else {
        OtherSteps(Exec(now, run[..n]), run[n]);
        CtlStep(now, run, n);
        var m: nat, i: nat :| Sighting(now, run, m, i, n, f, Ctl(now, run, n).autoSeen[f]);
        Extend(now, run, m, i, n, f, after[f]);
      }
    }
  }

  lemma {:induction false} CtlOf(now: int, run: seq<Event>, n: nat)
    requires n <= |run|
    ensures Ctl(now, run, n) == Exec(now, run[..n]).ctl
  {
  }

  lemma {:induction false} StepWarrants(now: int, run: seq<Event>, n: nat)
    requires n < |run| && AllSighted(now, run, n, Ctl(now, run, n).autoSeen)
    requires AllWarranted(now, run, Ctl(now, run, n).actions)
    ensures AllWarranted(now, run, Ctl(now, run, n + 1).actions)
  {
    hide Exec, Warrants, Ctl, Next, AllSighted;
    var before, after := Ctl(now, run, n).actions, Ctl(now, run, n + 1).actions;
    CtlOf(now, run, n);
    forall key | key in after && after[key].automatic
      ensures exists w: Warrant :: Warrants(now, run, w, key, after[key].id)
    {
      if run[n].SignalPass? && key !in before {
        var w := PassWarrants(now, run, n, key);
      } else {
        OldActions(now, run, n, key);
        var w: Warrant :| Warrants(now, run, w, key, before[key].id);
      }
    }
  }

  lemma {:induction false} OldActions(now: int, run: seq<Event>, n: nat, key: string)
    requires n < |run| && key in Ctl(now, run, n + 1).actions && Ctl(now, run, n + 1).actions[key].automatic
    requires run[n].SignalPass? ==> key in Ctl(now, run, n).actions
    ensures key in Ctl(now, run, n).actions && Ctl(now, run, n).actions[key].automatic
    ensures Ctl(now, run, n).actions[key].id == Ctl(now, run, n + 1).actions[key].id
  {
    CtlStep(now, run, n);
    CtlOf(now, run, n);
    if run[n].SignalPass? {
      MemoryIsOpen(now, run, n);
      ActionsStay(Ctl(now, run, n), run[n].input.env, run[n].input.signals, key);
    } else {
      OtherSteps(Exec(now, run[..n]), run[n]);
    }
    hide Exec, Ctl, HandleAll;
  }

  lemma {:induction false} RunWarrants(now: int, run: seq<Event>, n: nat)
    requires n <= |run|
    ensures AllSighted(now, run, n, Ctl(now, run, n).autoSeen) && AllWarranted(now, run, Ctl(now, run, n).actions)
  {
    hide AllSighted, AllWarranted, Next;
    if n == 0 {
      NothingYet(now, run);
    } else {
      RunWarrants(now, run, n - 1);
      StepSights(now, run, n - 1);
      StepWarrants(now, run, n - 1);
    }
  }

  lemma {:induction false} NothingYet(now: int, run: seq<Event>)
    ensures AllSighted(now, run, 0, Ctl(now, run, 0).autoSeen) && AllWarranted(now, run, Ctl(now, run, 0).actions)
  {
    assert run[..0] == [];
  }

  // ---------- Main results ----------

  /** Every automatic row of the queue has its warrant in the run. */
  lemma {:induction false} AutomaticAction(now: int, run: seq<Event>, key: string) returns (w: Warrant)
    requires var actions := Exec(now, run).ctl.actions; key in actions && actions[key].automatic
    ensures Warrants(now, run, w, key, Exec(now, run).ctl.actions[key].id)
  {
    RunWarrants(now, run, |run|);
    assert run[..|run|] == run;
    hide Warrants, Exec;
    var actions := Exec(now, run).ctl.actions;
    w :| Warrants(now, run, w, key, actions[key].id);
  }

  /** Every execution of the wrapper that belongs to an automatic action has its warrant in the run: two passes of
      one controller process, at least a minute apart, that carried the fingerprint, every sweep between that saw
      it again, and all documented conditions at the second. */
  lemma {:induction false} AutomaticExecution(now: int, run: seq<Event>, i: nat, key: string) returns (w: Warrant)
    requires ExecutionOf(Exec(now, run), i, key) && Exec(now, run).ctl.actions[key].automatic
    ensures Warrants(now, run, w, key, Exec(now, run).agent.log[i].id)
  {
    w := AutomaticAction(now, run, key);
  }

  // ---------- When an action is queued ----------

  /** Offering an incident without an action queues one exactly if the fingerprint was seen at least a minute before,
      automation is enabled and past its observation period, the host is not locked, the diagnosis asks for a restart
      with a confidence of at least 0.9, nodes, agent, metrics and mail work, the disk is less than 92 percent full,
      and the insert takes effect. */
  lemma {:induction false} OfferQueuesIff(st: State, env: Env, f: string, incident: string, io: SignalIo)
    requires AutoKey(incident) !in st.actions && !ActionIdUsed(st.actions, io.actionId)
    ensures var next := MaybeEnqueueAuto(st, env, f, incident, io);
            AutoKey(incident) in next.actions <==>
            && f in st.autoSeen && io.now >= st.autoSeen[f] + 60 * SECOND
            && env.enabled && io.now > env.eligibleAt && !env.hostLocked
            && io.diagnosis.recommendedAction == "restart_service" && io.diagnosis.confidence >= 0.9
            && env.externalOk && env.agentOk && env.metricsOk && st.smtpHealthy && env.disk < 92.0
            && io.enqueue != FailedBefore
    ensures var next := MaybeEnqueueAuto(st, env, f, incident, io);
            AutoKey(incident) in next.actions ==>
              next.actions[AutoKey(incident)] ==
              Action(io.actionId, incident, "controller", AUTO_REASON, RestartService, true, Pending)
  {
    hide AutoKey, ActionIdUsed;
  }

  /** A candidate that is open and no more severe than before is offered whenever its row is found. */
  lemma {:induction false} CandidateIsOffered(st: State, env: Env, s: Signal, io: SignalIo)
    requires s.autoCandidate && s.fingerprint in st.open && io.insert == NoFault && io.lookupOk
    requires s.severity == st.open[s.fingerprint].severity
    ensures HandleSignal(st, env, s, io) ==
            MaybeEnqueueAuto(st, env, s.fingerprint, st.open[s.fingerprint].id, io)
  {
    hide MaybeEnqueueAuto, IdUsed;
  }

  /** A mail sent in step n was accepted. */
  predicate MailedAt(run: seq<Event>, n: int) {
    && 0 <= n < |run|
    && (run[n] == SmtpTest(true) ||
        (run[n].SignalPass? && exists i :: 0 <= i < |run[n].input.signals| && run[n].input.signals[i].1.mailOk))
  }

  lemma {:induction false} PassMails(st: State, env: Env, signals: seq<(Signal, SignalIo)>)
    ensures HandleAll(st, env, signals).smtpHealthy ==>
              st.smtpHealthy || exists i :: 0 <= i < |signals| && signals[i].1.mailOk
  {
    hide HandleSignal;
    if signals != [] {
      var n := |signals| - 1;
      PassMails(st, env, signals[..n]);
      Incidents.SignalEffect(HandleAll(st, env, signals[..n]), env, signals[n].0, signals[n].1);
      hide Incidents.OpensRow, Incidents.Escalates;
      if i :| 0 <= i < n && signals[..n][i].1.mailOk {
        assert signals[i].1.mailOk;
      }
    }
  }

  /** The controller believes in its mail, without which nothing is queued automatically, only if a mail was accepted
      since it started. */
  lemma {:induction false} MailWorked(now: int, run: seq<Event>) returns (n: nat)
    requires Exec(now, run).ctl.smtpHealthy
    ensures MailedAt(run, n) && forall k :: n < k < |run| ==> !run[k].ControllerRestart?
  {
    hide HandleAll, Submit, OpenIncident, Requeued, Marked;
    var m := |run| - 1;
    var s, e := Exec(now, run[..m]), run[m];
    if e.SignalPass? {
      PassMails(s.ctl, e.input.env, e.input.signals);
    }
    if e.JobIncident? {
      JobKeepsMail(s.ctl, e.signal, e.io);
    }
    if MailedAt(run, m) {
      n := m;
    } else {
      n := MailWorked(now, run[..m]);
      assert forall k :: 0 <= k < m ==> run[..m][k] == run[k];
    }
  }

  lemma {:induction false} JobKeepsMail(st: State, s: Signal, io: SignalIo)
    ensures OpenIncident(st, s, io).0.smtpHealthy == st.smtpHealthy
  {
  }

  // ---------- Incidents without a candidate ----------

  /** Incident ids are never used twice. */
  ghost predicate IdsDistinct(st: State) {
    && (forall f, g :: f in st.open && g in st.open && st.open[f].id == st.open[g].id ==> f == g)
    && (forall f :: f in st.open ==> st.open[f].id !in st.resolved)
  }

  /** The incident `id` is, or was, an incident of f. */
  predicate Owns(st: State, f: string, id: string) {
    id in st.resolved || (f in st.open && st.open[f].id == id)
  }

  /** Only the incident of f may change between a and b: it keeps its id, or gets an unused one. */
  ghost predicate KeepsIds(a: State, b: State, f: string) {
    && b.resolved == a.resolved
    && (forall g :: g != f ==> (g in b.open <==> g in a.open) && (g in a.open ==> b.open[g].id == a.open[g].id))
    && (f in a.open ==> f in b.open && b.open[f].id == a.open[f].id)
    && (f in b.open && f !in a.open ==> !IdUsed(a.open, a.resolved, b.open[f].id))
  }

  lemma {:induction false} OpenKeepsIds(st: State, s: Signal, io: SignalIo)
    ensures KeepsIds(st, OpenIncident(st, s, io).0, s.fingerprint)
  {
    hide IdUsed;
  }

  lemma {:induction false} SignalKeepsIds(st: State, env: Env, s: Signal, io: SignalIo)
    ensures KeepsIds(st, HandleSignal(st, env, s, io), s.fingerprint)
  {
    OpenKeepsIds(st, s, io);
    hide IdUsed, MaybeEnqueueAuto, See;
    var (after, outcome) := OpenIncident(st, s, io);
    if outcome.OpenedNow? {
      var mailed := after.(smtpHealthy := io.mailOk);
      SeeKeeps(mailed, s.fingerprint, io.now);
      EnqueueAdds(if s.autoCandidate then See(mailed, s.fingerprint, io.now) else mailed, env, s.fingerprint,
                  outcome.row.id, io);
    } else if outcome.AlreadyOpen? {
      EnqueueAdds(after, env, s.fingerprint, outcome.row.id, io);
    }
  }

  lemma {:induction false} KeptIds(a: State, b: State, g: string, f: string, id: string)
    requires IdsDistinct(a) && KeepsIds(a, b, g)
    ensures IdsDistinct(b) && (Owns(a, f, id) ==> Owns(b, f, id))
  {
  }

  lemma {:induction false} AllKeepIds(st: State, env: Env, signals: seq<(Signal, SignalIo)>, f: string, id: string)
    requires IdsDistinct(st)
    ensures IdsDistinct(HandleAll(st, env, signals))
    ensures Owns(st, f, id) ==> Owns(HandleAll(st, env, signals), f, id)
  {
    hide HandleSignal, KeepsIds, IdsDistinct, Owns;
    if signals != [] {
      var n := |signals| - 1;
      var before := HandleAll(st, env, signals[..n]);
      AllKeepIds(st, env, signals[..n], f, id);
      SignalKeepsIds(before, env, signals[n].0, signals[n].1);
      KeptIds(before, HandleAll(st, env, signals), signals[n].0.fingerprint, f, id);
    }
  }

  lemma {:induction false} HandledJoins(st: State, env: Env, signals: seq<(Signal, SignalIo)>, j: nat)
    requires j <= |signals|
    ensures HandleAll(st, env, signals) == HandleAll(HandleAll(st, env, signals[..j]), env, signals[j..])
  {
    hide HandleSignal;
    if j == |signals| {
      assert signals[..j] == signals;
    } else {
      var n := |signals| - 1;
      assert signals[..n][..j] == signals[..j] && signals[j..][..n - j] == signals[..n][j..];
      HandledJoins(st, env, signals[..n], j);
    }
  }

  lemma {:induction false} ResolveKeepsIds(st: State, input: PassInput, f: string, id: string)
    requires IdsDistinct(st)
    ensures IdsDistinct(Resolve(st, input)) && (Owns(st, f, id) ==> Owns(Resolve(st, input), f, id))
  {
    hide Held;
    var next := Resolve(st, input);
    forall g | g in next.open ensures next.open[g].id !in next.resolved {
      assert g in st.open && next.open[g] == st.open[g];
    }
  }

  lemma {:induction false} NextKeepsIds(s: System, e: Event, f: string, id: string)
    requires IdsDistinct(s.ctl)
    ensures IdsDistinct(Next(s, e).ctl) && (Owns(s.ctl, f, id) ==> Owns(Next(s, e).ctl, f, id))
  {
    if e.SignalPass? {
      hide HandleAll, Resolve;
      AllKeepIds(s.ctl, e.input.env, e.input.signals, f, id);
      ResolveKeepsIds(HandleAll(s.ctl, e.input.env, e.input.signals), e.input, f, id);
    } else if e.JobIncident? {
      hide OpenIncident;
      OpenKeepsIds(s.ctl, e.signal, e.io);
      KeptIds(s.ctl, OpenIncident(s.ctl, e.signal, e.io).0, e.signal.fingerprint, f, id);
    } else {
      hide Submit, Requeued;
    }
  }

  lemma {:induction false} RunKeepsIds(now: int, run: seq<Event>, n: nat)
    requires n <= |run|
    ensures IdsDistinct(Ctl(now, run, n))
  {
    hide IdsDistinct, Next;
    if n == 0 {
      StartDistinct();
      assert run[..0] == [];
    } else {
      RunKeepsIds(now, run, n - 1);
      CtlStep(now, run, n - 1);
      NextKeepsIds(Exec(now, run[..n - 1]), run[n - 1], "", "");
    }
  }

  lemma {:induction false} StartDistinct()
    ensures IdsDistinct(New())
  {
  }

  /** Who owns an incident at one step owns it ever after. */
  lemma {:induction false} OwnedLater(now: int, run: seq<Event>, k: nat, n: nat, f: string, id: string)
    requires k <= n <= |run| && Owns(Ctl(now, run, k), f, id)
    ensures Owns(Ctl(now, run, n), f, id)
    decreases n
  {
    hide IdsDistinct, Next, Owns;
    if k < n {
      OwnedLater(now, run, k, n - 1, f, id);
      RunKeepsIds(now, run, n - 1);
      CtlStep(now, run, n - 1);
      NextKeepsIds(Exec(now, run[..n - 1]), run[n - 1], f, id);
    }
  }

  /** Who owns an incident in the middle of a pass owns it after the pass. */
  lemma {:induction false} OwnedAfterPass(now: int, run: seq<Event>, n: nat, j: nat, f: string, id: string)
    requires n < |run| && run[n].SignalPass? && j <= |run[n].input.signals| && Owns(During(now, run, n, j), f, id)
    ensures Owns(Ctl(now, run, n + 1), f, id)
  {
    var st, input := Ctl(now, run, n), run[n].input;
    RunKeepsIds(now, run, n);
    AllKeepIds(st, input.env, input.signals[..j], f, id);
    HandledJoins(st, input.env, input.signals, j);
    AllKeepIds(During(now, run, n, j), input.env, input.signals[j..], f, id);
    ResolveKeepsIds(HandleAll(st, input.env, input.signals), input, f, id);
    CtlStep(now, run, n);
    hide Exec, HandleAll, Resolve, IdsDistinct;
  }

  /** An id open under f and owned by g belongs to f and g alike. */
  lemma {:induction false} SameOwner(st: State, f: string, g: string)
    requires IdsDistinct(st) && f in st.open && Owns(st, g, st.open[f].id)
    ensures f == g
  {
  }

  lemma {:induction false} AutoKeyInjective(a: string, b: string)
    requires AutoKey(a) == AutoKey(b)
    ensures a == b
  {
    assert a == AutoKey(a)[5..] && b == AutoKey(b)[5..];
  }

  /** f is never signalled as an automatic candidate. */
  ghost predicate NeverCandidate(run: seq<Event>, f: string) {
    forall n: nat, i: nat :: Carries(run, n, i, f) ==> !run[n].input.signals[i].0.autoCandidate
  }

  /** The incident a warrant rests on was open under a candidate at its second pass. */
  lemma {:induction false} WarrantOwner(now: int, run: seq<Event>, w: Warrant, key: string, id: string)
    returns (g: string, incident: string)
    requires Warrants(now, run, w, key, id)
    ensures w.n < |run| && run[w.n].SignalPass? && w.j < |run[w.n].input.signals|
    ensures Carries(run, w.n, w.j, g) && run[w.n].input.signals[w.j].0.autoCandidate
    ensures key == AutoKey(incident)
    ensures var st := During(now, run, w.n, w.j + 1); g in st.open && st.open[g].id == incident
  {
    g := run[w.n].input.signals[w.j].0.fingerprint;
    incident := During(now, run, w.n, w.j + 1).open[g].id;
    hide During, Continues;
  }

  /** A fingerprint that is never signalled as a candidate, such as every reward anomaly, never restarts the node:
      no incident that was ever open under it has an automatic action, and so none has an automatic execution. */
  lemma {:induction false} NonCandidatesNeverRestart(now: int, run: seq<Event>, f: string, k: nat)
    requires NeverCandidate(run, f) && k <= |run| && f in Ctl(now, run, k).open
    ensures var s, key := Exec(now, run), AutoKey(Ctl(now, run, k).open[f].id);
            && !(key in s.ctl.actions && s.ctl.actions[key].automatic)
            && forall i :: ExecutionOf(s, i, key) ==> !s.ctl.actions[key].automatic
  {
    var s, id := Exec(now, run), Ctl(now, run, k).open[f].id;
    var key := AutoKey(id);
    if key in s.ctl.actions && s.ctl.actions[key].automatic {
      var w := AutomaticAction(now, run, key);
      var g, incident := WarrantOwner(now, run, w, key, s.ctl.actions[key].id);
      AutoKeyInjective(id, incident);
      hide Exec, Warrants, Ctl, During, AutoKey;
      OneOwner(now, run, f, k, g, w.n, w.j + 1, id);
      assert false;
    }
  }

  /** An incident open under f at one step and under g in the middle of a pass: f is g. */
  lemma {:induction false} OneOwner(now: int, run: seq<Event>, f: string, k: nat, g: string, n: nat, j: nat, id: string)
    requires k <= |run| && f in Ctl(now, run, k).open && Ctl(now, run, k).open[f].id == id
    requires n < |run| && run[n].SignalPass? && j <= |run[n].input.signals|
    requires g in During(now, run, n, j).open && During(now, run, n, j).open[g].id == id
    ensures f == g
  {
    hide Exec, HandleAll;
    if k <= n {
      OwnedLater(now, run, k, n, f, id);
      RunKeepsIds(now, run, n);
      AllKeepIds(Ctl(now, run, n), run[n].input.env, run[n].input.signals[..j], f, id);
      SameOwner(During(now, run, n, j), g, f);
    } else {
      OwnedAfterPass(now, run, n, j, g, id);
      OwnedLater(now, run, n + 1, k, g, id);
      RunKeepsIds(now, run, k);
      SameOwner(Ctl(now, run, k), f, g);
    }
  }
}
