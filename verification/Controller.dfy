/** Incidents, automatic actions and the action queue of the controller (cmd/controller/main.go and the
incident table of internal/store/store.go).

The partial unique index on open fingerprints is the map `open`.  Every database call may fail, before or
after it took effect; the outcomes are part of the input of a step.
*/
module Controller {
  import opened Base

  datatype OpenRow = OpenRow(id: string, severity: Severity)

  datatype Kind = RestartService | AcknowledgeGap(expectedCursor: int)

  datatype ActionStatus = Pending | Running(startedAt: int) | Done(ok: bool)

  datatype Action = Action(id: string, incident: string, requestedBy: string, reason: string, kind: Kind,
                           automatic: bool, status: ActionStatus)

  datatype Signal = Signal(fingerprint: string, severity: Severity, autoCandidate: bool)

  datatype Fault = NoFault | FailedBefore | FailedAfter

  datatype Diagnosis = Diagnosis(recommendedAction: string, confidence: real)

  /** What the world answers while one signal is handled. */
  datatype SignalIo = SignalIo(newId: string, insert: Fault, lookupOk: bool, mailOk: bool, diagnosis: Diagnosis,
                               escalate: Fault, actionId: string, enqueue: Fault, now: int)

  datatype Env = Env(enabled: bool, hostLocked: bool, eligibleAt: int, externalOk: bool, agentOk: bool,
                     metricsOk: bool, disk: real, chainHealthy: bool)

  /** The resolution sweep: the open fingerprints whose rows were read, and those whose update took effect. */
  datatype Sweep = Sweep(visited: set<string>, updated: set<string>)

  datatype PassInput = PassInput(env: Env, signals: seq<(Signal, SignalIo)>, sweep: Sweep)

  /** Tables and the controller's memory (autoSeen, smtpHealthy). */
  datatype State = State(open: map<string, OpenRow>, resolved: set<string>, actions: map<string, Action>,
                         autoSeen: map<string, int>, smtpHealthy: bool)

  function Rank(s: Severity): int {
    match s
    case Critical => 3
    case Warning => 2
    case Info => 1
  }

  function Worse(a: Severity, b: Severity): Severity {
    if Rank(b) > Rank(a) then b else a
  }

  const SILENCE := "reward-silence"

  const AUTO_REASON := "deterministic guard and Gemini diagnosis agree"

  function AutoKey(incident: string): string {
    "auto-" + incident
  }

  predicate IdUsed(open: map<string, OpenRow>, resolved: set<string>, id: string) {
    id in resolved || exists f | f in open :: open[f].id == id
  }

  predicate ActionIdUsed(actions: map<string, Action>, id: string) {
    exists k | k in actions :: actions[k].id == id
  }

  // ---------- One signal ----------

  datatype Opened = NotOpened | OpenedNow(row: OpenRow) | AlreadyOpen(row: OpenRow)

  function OpenIncident(st: State, s: Signal, io: SignalIo): (State, Opened) {
    var row := OpenRow(io.newId, s.severity);
    var inserts := s.fingerprint !in st.open && !IdUsed(st.open, st.resolved, io.newId);
    var after := if inserts && !io.insert.FailedBefore? then st.(open := st.open[s.fingerprint := row]) else st;
    if !io.insert.NoFault? then (after, NotOpened)
    else if inserts then (after, OpenedNow(row))
    else if s.fingerprint in st.open && io.lookupOk then (after, AlreadyOpen(st.open[s.fingerprint]))
    else (after, NotOpened)
  }

  function See(st: State, fingerprint: string, now: int): State {
    st.(autoSeen := st.autoSeen[fingerprint := now])
  }

  predicate Safe(smtpHealthy: bool, env: Env, first: int, io: SignalIo) {
    && env.enabled && !env.hostLocked && io.now > env.eligibleAt
    && io.now - first >= MINUTE
    && io.diagnosis.recommendedAction == "restart_service" && io.diagnosis.confidence >= 0.90
    && env.externalOk && env.agentOk && env.metricsOk
    && env.disk < 92.0 && smtpHealthy
  }

  function AutoAction(id: string, incident: string): Action {
    Action(id, incident, "controller", AUTO_REASON, RestartService, true, Pending)
  }

  function MaybeEnqueueAuto(st: State, env: Env, fingerprint: string, incident: string, io: SignalIo): State {
    if fingerprint !in st.autoSeen then See(st, fingerprint, io.now)
    else
      var first := st.autoSeen[fingerprint];
      var key := AutoKey(incident);
      if Safe(st.smtpHealthy, env, first, io) && key !in st.actions && !ActionIdUsed(st.actions, io.actionId)
         && !io.enqueue.FailedBefore?
      then
        st.(actions := st.actions[key := AutoAction(io.actionId, incident)])
      else st
  }

  function HandleSignal(st: State, env: Env, s: Signal, io: SignalIo): State {
    var (after, outcome) := OpenIncident(st, s, io);
    match outcome
    case NotOpened => after
    case OpenedNow(row) =>
      var mailed := after.(smtpHealthy := io.mailOk);
      var seen := if s.autoCandidate then See(mailed, s.fingerprint, io.now) else mailed;
      MaybeEnqueueAuto(seen, env, s.fingerprint, row.id, io)
    case AlreadyOpen(row) =>
      if Rank(s.severity) > Rank(row.severity) then
        var updated := if io.escalate.FailedBefore? then after
                       else after.(open := after.open[s.fingerprint := row.(severity := s.severity)]);
        if io.escalate.NoFault? then updated.(smtpHealthy := io.mailOk) else updated
      else if s.autoCandidate then MaybeEnqueueAuto(after, env, s.fingerprint, row.id, io)
      else after
  }

  // ---------- One pass ----------

  function HandleAll(st: State, env: Env, signals: seq<(Signal, SignalIo)>): State {
    if signals == [] then st
    else
      var n := |signals| - 1;
      HandleSignal(HandleAll(st, env, signals[..n]), env, signals[n].0, signals[n].1)
  }

  function Fingerprints(signals: seq<(Signal, SignalIo)>): set<string> {
    set i | 0 <= i < |signals| :: signals[i].0.fingerprint
  }

  /** A silence of rewards stays open while the node or the chain is unhealthy. */
  predicate Held(env: Env, fingerprint: string) {
    fingerprint == SILENCE && !env.chainHealthy
  }

  function Gone(st: State, input: PassInput): set<string> {
    set f | f in st.open && f in input.sweep.visited && f !in Fingerprints(input.signals) && !Held(input.env, f)
  }

  function IdsOf(open: map<string, OpenRow>, fingerprints: set<string>): set<string> {
    set f | f in fingerprints && f in open :: open[f].id
  }

  function Resolve(st: State, input: PassInput): State {
    var gone := Gone(st, input);
    var closed := gone * input.sweep.updated;
    st.(autoSeen := st.autoSeen - gone,
        open := st.open - closed,
        resolved := st.resolved + IdsOf(st.open, closed))
  }

  function HandleSignals(st: State, input: PassInput): State {
    Resolve(HandleAll(st, input.env, input.signals), input)
  }

  function Restarted(st: State): State {
    st.(autoSeen := map[], smtpHealthy := false)
  }

  function New(): State {
    State(map[], {}, map[], map[], false)
  }

  // ---------- Invariants ----------

  /** Whatever the controller remembers about a fingerprint, it has an open incident. */
  ghost predicate Inv(st: State) {
    st.autoSeen.Keys <= st.open.Keys
  }

  /** `b` differs from `a` at most in incidents that were opened or escalated and in the state of the mail. */
  ghost predicate OnlyOpened(a: State, b: State) {
    a.open.Keys <= b.open.Keys && b.actions == a.actions && b.autoSeen == a.autoSeen
  }

  /** One signal either touches incidents only, or offers its open incident for an automatic action. */
  lemma {:induction false} SignalShape(st: State, env: Env, s: Signal, io: SignalIo)
    returns (base: State, offered: bool, sees: bool)
    ensures OnlyOpened(st, base)
    ensures !offered ==> HandleSignal(st, env, s, io) == base
    ensures offered ==>
              && s.fingerprint in base.open && (s.autoCandidate || s.fingerprint !in st.open)
              && (sees ==> s.autoCandidate)
              && HandleSignal(st, env, s, io) ==
                 MaybeEnqueueAuto(if sees then See(base, s.fingerprint, io.now) else base, env, s.fingerprint,
                                  base.open[s.fingerprint].id, io)
  {
    hide MaybeEnqueueAuto, See, IdUsed;
    var (after, outcome) := OpenIncident(st, s, io);
    base, offered, sees := HandleSignal(st, env, s, io), false, false;
    match outcome
    case NotOpened =>
    case OpenedNow(row) =>
      base, offered, sees := after.(smtpHealthy := io.mailOk), true, s.autoCandidate;
    case AlreadyOpen(row) =>
      if Rank(s.severity) <= Rank(row.severity) && s.autoCandidate {
        base, offered := after, true;
      }
  }

  /** `after` has at most one action more: a new automatic one under `key`. */
  predicate AddsAt(actions: map<string, Action>, after: map<string, Action>, key: string) {
    after == actions || (key !in actions && key in after && after[key].automatic && after == actions[key := after[key]])
  }

  lemma {:induction false} SeeKeeps(st: State, f: string, now: int)
    ensures See(st, f, now) == st.(autoSeen := st.autoSeen[f := now])
  {
  }

  /** What offering an incident may change: its first sight is remembered, or its own key is added. */
  lemma {:induction false} EnqueueAdds(st: State, env: Env, f: string, incident: string, io: SignalIo)
    ensures var next := MaybeEnqueueAuto(st, env, f, incident, io);
            && next.open == st.open && next.resolved == st.resolved && next.smtpHealthy == st.smtpHealthy
            && AddsAt(st.actions, next.actions, AutoKey(incident))
            && (if f in st.autoSeen then next.autoSeen == st.autoSeen
                else next.autoSeen == st.autoSeen[f := io.now] && next.actions == st.actions)
  {
    hide AutoKey, ActionIdUsed, Safe;
  }

  /** What one signal may change: nothing is forgotten, and at most one action is queued, under the key of its own
      open incident and only for a candidate, although every opened incident is offered. */
  lemma {:induction false} SignalInv(st: State, env: Env, s: Signal, io: SignalIo)
    requires Inv(st)
    ensures var next := HandleSignal(st, env, s, io);
            && Inv(next) && st.open.Keys <= next.open.Keys
            && (next.actions != st.actions ==>
                  s.autoCandidate && s.fingerprint in next.open &&
                  AddsAt(st.actions, next.actions, AutoKey(next.open[s.fingerprint].id)))
  {
    hide HandleSignal, MaybeEnqueueAuto, See, AutoKey, AddsAt;
    var base, offered, sees := SignalShape(st, env, s, io);
    if offered {
      SeeKeeps(base, s.fingerprint, io.now);
      EnqueueAdds(if sees then See(base, s.fingerprint, io.now) else base, env, s.fingerprint,
                  base.open[s.fingerprint].id, io);
    }
  }

  lemma {:induction false} AllInv(st: State, env: Env, signals: seq<(Signal, SignalIo)>)
    requires Inv(st)
    ensures Inv(HandleAll(st, env, signals)) && st.open.Keys <= HandleAll(st, env, signals).open.Keys
  {
    hide HandleSignal;
    if signals != [] {
      var n := |signals| - 1;
      AllInv(st, env, signals[..n]);
      SignalInv(HandleAll(st, env, signals[..n]), env, signals[n].0, signals[n].1);
    }
  }

  /** The sweep forgets every incident it closes. */
  lemma {:induction false} PassInv(st: State, input: PassInput)
    requires Inv(st)
    ensures Inv(HandleSignals(st, input))
  {
    AllInv(st, input.env, input.signals);
    hide HandleAll, Held;
  }
}
