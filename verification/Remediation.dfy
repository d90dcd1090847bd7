/** The whole remediation path: incidents queue actions, the queue delivers them at least once, and the host
agent runs the restart wrapper (cmd/controller/main.go, cmd/agent/main.go). */
module Remediation {
  import opened Base
  import opened Text
  import opened Controller
  import G = Guard

  // ---------- Manual actions ----------

  datatype ManualRequest = ManualRequest(actionId: string, key: string, incident: string, requestedBy: string,
                                         reason: string, kind: Kind)

  datatype Reply = BadRequest | Conflict | DatabaseError | Accepted(id: string)

  function Trimmed(r: ManualRequest): ManualRequest {
    r.(reason := Trim(r.reason), requestedBy := Trim(r.requestedBy), incident := Trim(r.incident))
  }

  predicate ManualId(id: string) {
    && 20 <= |id| <= 104 && id[..4] == "act_"
    && forall i :: 4 <= i < |id| ==> G.IdChar(id[i])
  }

  /** The controller's own check of a trimmed request. */
  predicate ValidManual(r: ManualRequest) {
    && ManualId(r.actionId) && 1 <= ByteLength(r.key) <= 100 && r.requestedBy != ""
    && 10 <= ByteLength(r.reason) <= 1000
    && (r.kind.AcknowledgeGap? ==> r.kind.expectedCursor > 0)
  }

  predicate SameRequest(a: Action, r: ManualRequest) {
    a.incident == r.incident && a.requestedBy == r.requestedBy && a.reason == r.reason && a.kind == r.kind
  }

  /** The insert may fail before or after it took effect, and so may the lookup of an existing row. */
  function Submit(actions: map<string, Action>, request: ManualRequest, insert: Fault, lookupOk: bool)
    : (map<string, Action>, Reply)
  {
    var r := Trimmed(request);
    var inserts := r.key !in actions && !ActionIdUsed(actions, r.actionId);
    var row := Action(r.actionId, r.incident, r.requestedBy, r.reason, r.kind, false, Pending);
    if !ValidManual(r) then (actions, BadRequest)
    else if !insert.NoFault? then
      (if inserts && insert.FailedAfter? then actions[r.key := row] else actions, DatabaseError)
    else if inserts then (actions[r.key := row], Accepted(r.actionId))
    else if r.key !in actions || !lookupOk then (actions, DatabaseError)
    else (actions, if SameRequest(actions[r.key], r) then Accepted(actions[r.key].id) else Conflict)
  }

  /** Once a request is in the table, whether or not the answer arrived, sending it again, even under another
      action id, queues nothing and returns the first id; and whatever was accepted is in the table. */
  lemma {:induction false} ResubmitIsIdempotent(actions: map<string, Action>, r: ManualRequest, insert: Fault,
                                                lookupOk: bool, other: string)
    requires ValidManual(Trimmed(r)) && ManualId(other)
    ensures var (after, reply) := Submit(actions, r, insert, lookupOk);
            var key := Trimmed(r).key;
            && (reply.Accepted? ==> key in after && SameRequest(after[key], Trimmed(r)) && reply.id == after[key].id)
            && (key in after && SameRequest(after[key], Trimmed(r)) ==>
                  Submit(after, r.(actionId := other), NoFault, true) == (after, Accepted(after[key].id)))
  {
    var t := Trimmed(r);
    assert Trimmed(r.(actionId := other)) == t.(actionId := other);
    hide ManualId, ActionIdUsed;
  }

  /** A request is legal if, trimmed, it names an id of "act_" and 16 to 100 letters, digits, underscores and dashes, a
      key of 1 to 100 bytes, a requester and a reason of 10 to 1000 bytes, and a positive cursor for a gap. */
  predicate Legal(r: ManualRequest) {
    && |r.actionId| >= 4 && r.actionId[..4] == "act_" && 16 <= |r.actionId| - 4 <= 100
    && (forall i :: 4 <= i < |r.actionId| ==>
          var c := r.actionId[i];
          'a' <= c <= 'z' || 'A' <= c <= 'Z' || '0' <= c <= '9' || c == '_' || c == '-')
    && 1 <= ByteLength(r.key) <= 100
    && Trim(r.requestedBy) != ""
    && 10 <= ByteLength(Trim(r.reason)) <= 1000
    && (r.kind.RestartService? || r.kind.expectedCursor >= 1)
  }

  /** What a manual request is told and what it changes, whatever fails. */
  lemma {:induction false} SubmitMeans(actions: map<string, Action>, request: ManualRequest, insert: Fault,
                                       lookupOk: bool)
    ensures var (after, reply) := Submit(actions, request, insert, lookupOk);
            var isNew := request.key !in actions && !ActionIdUsed(actions, request.actionId);
            var row := Action(request.actionId, Trim(request.incident), Trim(request.requestedBy),
                              Trim(request.reason), request.kind, false, Pending);
            && (reply == BadRequest <==> !Legal(request))
            && after == (if Legal(request) && isNew && insert != FailedBefore then actions[request.key := row]
                         else actions)
            && (reply == Conflict <==>
                  && Legal(request) && insert == NoFault && lookupOk && request.key in actions
                  && var row0 := actions[request.key];
                     (row0.incident, row0.requestedBy, row0.reason, row0.kind) !=
                     (row.incident, row.requestedBy, row.reason, row.kind))
            && (reply.Accepted? <==>
                  && Legal(request) && insert == NoFault
                  && (isNew || (request.key in actions && lookupOk && reply != Conflict)))
            && (reply.Accepted? ==> reply.id == after[request.key].id)
  {
    LegalIff(request);
    hide Trim, ByteLength, ActionIdUsed, Legal, ValidManual;
  }

  lemma {:induction false} LegalIff(r: ManualRequest)
    ensures ValidManual(Trimmed(r)) <==> Legal(r)
  {
    hide Trim, ByteLength;
  }

  /** Not every action the controller accepts is accepted by the agent: it is exactly when the id has at most
      100 and the reason at most 500 bytes. */
  lemma {:induction false} AgentAcceptsIff(request: ManualRequest)
    requires ValidManual(Trimmed(request))
    ensures var r := Trimmed(request);
            G.ValidRequest(r.actionId, r.reason) <==> |r.actionId| <= 100 && ByteLength(r.reason) <= 500
  {
    var r := Trimmed(request);
    TrimTwice(request.reason);
    assert forall i :: 0 <= i < 4 ==> r.actionId[i] == r.actionId[..4][i] && r.actionId[..4][i] == "act_"[i];
  }

  // ---------- The system ----------

  const STALE_AFTER: int := 15 * MINUTE

  /** The controller, the key of the action its worker is delivering, and the agent. */
  datatype System = System(ctl: State, worker: Option<string>, agent: G.World)

  datatype Event =
    | SignalPass(input: PassInput)
    | JobIncident(signal: Signal, io: SignalIo)
    | SmtpTest(ok: bool)
    | Manual(request: ManualRequest, insert: Fault, lookupOk: bool)
    | Claim(key: string, now: int, update: Fault)
    | Deliver(locked: bool, t: G.Clock)
    | Complete(ok: bool, update: Fault)
    | ControllerRestart(now: int, requeue: Fault)
    | AgentLaunch(at: int)
    | AgentFinish(ok: bool, at: int)
    | AgentCrash

  /** The action table once a statement changed the status of one row, unless it failed before. */
  function Marked(actions: map<string, Action>, key: string, status: ActionStatus, update: Fault): map<string, Action> {
    if key in actions && !update.FailedBefore? then actions[key := actions[key].(status := status)] else actions
  }

  function Requeued(actions: map<string, Action>, now: int): map<string, Action> {
    map k | k in actions ::
      if actions[k].status.Running? && actions[k].status.startedAt < now - STALE_AFTER
      then actions[k].(status := Pending) else actions[k]
  }

  ghost function Next(s: System, e: Event): System {
    match e
    case SignalPass(input) => s.(ctl := HandleSignals(s.ctl, input))
    case JobIncident(signal, io) => s.(ctl := OpenIncident(s.ctl, signal, io).0)
    case SmtpTest(ok) => s.(ctl := s.ctl.(smtpHealthy := ok))
    case Manual(request, insert, lookupOk) =>
      s.(ctl := s.ctl.(actions := Submit(s.ctl.actions, request, insert, lookupOk).0))
    case Claim(key, now, update) =>
      if s.worker.None? && key in s.ctl.actions && s.ctl.actions[key].status.Pending? then
        s.(ctl := s.ctl.(actions := Marked(s.ctl.actions, key, Running(now), update)),
           worker := if update.NoFault? then Some(key) else None)
      else s
    case Deliver(locked, t) =>
      if s.worker.Some? && s.worker.value in s.ctl.actions && s.ctl.actions[s.worker.value].kind.RestartService? then
        var a := s.ctl.actions[s.worker.value];
        s.(agent := G.Next(s.agent, G.Request(a.id, a.reason, locked, t)))
      else s
    case Complete(ok, update) =>
      if s.worker.Some? then
        s.(ctl := s.ctl.(actions := Marked(s.ctl.actions, s.worker.value, Done(ok), update)), worker := None)
      else s
    case ControllerRestart(now, requeue) =>
      var actions := if requeue.FailedBefore? then s.ctl.actions else Requeued(s.ctl.actions, now);
      s.(ctl := Restarted(s.ctl).(actions := actions), worker := None)
    case AgentLaunch(at) => s.(agent := G.Next(s.agent, G.Launch(at)))
    case AgentFinish(ok, at) => s.(agent := G.Next(s.agent, G.Finish(ok, at)))
    case AgentCrash => s.(agent := G.Next(s.agent, G.Crash))
  }

  ghost function Exec(now: int, run: seq<Event>): System {
    if run == [] then System(New(), None, G.Start(now))
    else Next(Exec(now, run[..|run| - 1]), run[|run| - 1])
  }

  // ---------- Invariants ----------

  /** Action ids are unique. */
  ghost predicate IdsUnique(actions: map<string, Action>) {
    forall k, l :: k in actions && l in actions && actions[k].id == actions[l].id ==> k == l
  }

  /** The agent has only seen restart actions of the queue. */
  ghost predicate Known(actions: map<string, Action>, ids: set<string>) {
    forall id :: id in ids ==> exists k :: k in actions && actions[k].id == id && actions[k].kind.RestartService?
  }

  ghost predicate SystemInv(s: System) {
    && Inv(s.ctl)
    && IdsUnique(s.ctl.actions)
    && G.Inv(s.agent)
    && Known(s.ctl.actions, s.agent.file.processed.Keys)
  }

  /** `b` has all the actions of `a`, unchanged but for their status. */
  ghost predicate Extends(a: map<string, Action>, b: map<string, Action>) {
    forall k :: k in a ==> k in b && b[k].(status := a[k].status) == a[k]
  }

  lemma {:induction false} ExtendKnown(a: map<string, Action>, b: map<string, Action>, ids: set<string>)
    requires Extends(a, b) && Known(a, ids)
    ensures Known(b, ids)
  {
    forall id | id in ids ensures exists k :: k in b && b[k].id == id && b[k].kind.RestartService? {
      var k :| k in a && a[k].id == id && a[k].kind.RestartService?;
      assert b[k].id == id;
    }
  }

  lemma {:induction false} SubmitExtends(actions: map<string, Action>, r: ManualRequest, insert: Fault, lookupOk: bool)
    requires IdsUnique(actions)
    ensures var after := Submit(actions, r, insert, lookupOk).0; Extends(actions, after) && IdsUnique(after)
  {
    hide ValidManual, Trimmed, SameRequest, ActionIdUsed, IdsUnique, Extends;
    var t := Trimmed(r);
    SameActions(actions);
    if t.key !in actions && !ActionIdUsed(actions, t.actionId) {
      AddedExtends(actions, t.key, Action(t.actionId, t.incident, t.requestedBy, t.reason, t.kind, false, Pending));
    }
  }

  lemma {:induction false} RequeueExtends(actions: map<string, Action>, now: int)
    requires IdsUnique(actions)
    ensures Extends(actions, Requeued(actions, now)) && IdsUnique(Requeued(actions, now))
  {
    var after := Requeued(actions, now);
    assert forall k :: k in after ==> after[k].id == actions[k].id;
  }

  lemma {:induction false} MarkedExtends(actions: map<string, Action>, key: string, status: ActionStatus, update: Fault)
    requires IdsUnique(actions)
    ensures var after := Marked(actions, key, status, update); Extends(actions, after) && IdsUnique(after)
  {
    var after := Marked(actions, key, status, update);
    assert forall k :: k in after ==> after[k].id == actions[k].id;
  }

  lemma {:induction false} EnqueueExtends(st: State, env: Env, f: string, incident: string, io: SignalIo)
    requires IdsUnique(st.actions)
    ensures var next := MaybeEnqueueAuto(st, env, f, incident, io);
            IdsUnique(next.actions) && Extends(st.actions, next.actions)
  {
    SameActions(st.actions);
    if !ActionIdUsed(st.actions, io.actionId) && AutoKey(incident) !in st.actions {
      AddedExtends(st.actions, AutoKey(incident), AutoAction(io.actionId, incident));
    }
    hide Safe, AutoKey, ActionIdUsed, IdsUnique, Extends, AutoAction;
  }

  lemma {:induction false} AddedExtends(actions: map<string, Action>, key: string, a: Action)
    requires IdsUnique(actions) && key !in actions && !ActionIdUsed(actions, a.id)
    ensures Extends(actions, actions[key := a]) && IdsUnique(actions[key := a])
  {
  }

  lemma {:induction false} SignalExtends(st: State, env: Env, s: Signal, io: SignalIo)
    requires IdsUnique(st.actions)
    ensures var next := HandleSignal(st, env, s, io);
            IdsUnique(next.actions) && Extends(st.actions, next.actions)
  {
    hide HandleSignal, MaybeEnqueueAuto, IdsUnique;
    var base, offered, sees := SignalShape(st, env, s, io);
    assert Extends(st.actions, st.actions);
    hide Extends;
    if offered {
      EnqueueExtends(if sees then See(base, s.fingerprint, io.now) else base, env, s.fingerprint,
                     base.open[s.fingerprint].id, io);
    }
  }

  lemma {:induction false} AllExtends(st: State, env: Env, signals: seq<(Signal, SignalIo)>)
    requires IdsUnique(st.actions)
    ensures var next := HandleAll(st, env, signals);
            IdsUnique(next.actions) && Extends(st.actions, next.actions)
  {
    hide HandleSignal, IdsUnique;
    if signals != [] {
      var n := |signals| - 1;
      AllExtends(st, env, signals[..n]);
      SignalExtends(HandleAll(st, env, signals[..n]), env, signals[n].0, signals[n].1);
    }
  }

  /** Exchanging the controller for one whose action table extends the old one. */
  lemma {:induction false} ReplaceInv(s: System, ctl: State, worker: Option<string>)
    requires SystemInv(s) && Inv(ctl) && IdsUnique(ctl.actions) && Extends(s.ctl.actions, ctl.actions)
    ensures SystemInv(s.(ctl := ctl, worker := worker))
  {
    hide Inv, IdsUnique, G.Inv;
    ExtendKnown(s.ctl.actions, ctl.actions, s.agent.file.processed.Keys);
  }

  lemma {:induction false} SameActions(actions: map<string, Action>)
    ensures Extends(actions, actions)
  {
  }

  lemma {:induction false} NextInv(s: System, e: Event)
    requires SystemInv(s)
    ensures SystemInv(Next(s, e))
  {
    hide HandleAll, Submit, OpenIncident, Requeued, Marked, G.Next, G.Inv, IdsUnique, Extends, Known;
    SameActions(s.ctl.actions);
    match e
    case SignalPass(input) =>
      PassInv(s.ctl, input);
      AllExtends(s.ctl, input.env, input.signals);
      ReplaceInv(s, HandleSignals(s.ctl, input), s.worker);
    case JobIncident(signal, io) =>
      OpenOnly(s.ctl, signal, io);
      ReplaceInv(s, OpenIncident(s.ctl, signal, io).0, s.worker);
    case SmtpTest(ok) => ReplaceInv(s, s.ctl.(smtpHealthy := ok), s.worker);
    case Manual(request, insert, lookupOk) =>
      SubmitExtends(s.ctl.actions, request, insert, lookupOk);
      ReplaceInv(s, s.ctl.(actions := Submit(s.ctl.actions, request, insert, lookupOk).0), s.worker);
    case Claim(key, now, update) =>
      MarkedExtends(s.ctl.actions, key, Running(now), update);
      ReplaceInv(s, s.ctl.(actions := Marked(s.ctl.actions, key, Running(now), update)),
                 if update.NoFault? then Some(key) else None);
    case Complete(ok, update) =>
      if s.worker.Some? {
        MarkedExtends(s.ctl.actions, s.worker.value, Done(ok), update);
        ReplaceInv(s, s.ctl.(actions := Marked(s.ctl.actions, s.worker.value, Done(ok), update)), None);
      }
    case ControllerRestart(now, requeue) =>
      RequeueExtends(s.ctl.actions, now);
      var actions := if requeue.FailedBefore? then s.ctl.actions else Requeued(s.ctl.actions, now);
      ReplaceInv(s, Restarted(s.ctl).(actions := actions), None);
    case Deliver(locked, t) => DeliverInv(s, locked, t);
    case AgentLaunch(at) => AgentInv(s, G.Launch(at));
    case AgentFinish(ok, at) => AgentInv(s, G.Finish(ok, at));
    case AgentCrash => AgentInv(s, G.Crash);
  }

  lemma {:induction false} OpenOnly(st: State, s: Signal, io: SignalIo)
    ensures OnlyOpened(st, OpenIncident(st, s, io).0)
  {
    hide IdUsed;
  }

  lemma {:induction false} DeliverInv(s: System, locked: bool, t: G.Clock)
    requires SystemInv(s)
    ensures SystemInv(Next(s, Deliver(locked, t)))
  {
    hide Inv, IdsUnique;
    if Next(s, Deliver(locked, t)) != s {
      var a := s.ctl.actions[s.worker.value];
      G.InvNext(s.agent, G.Request(a.id, a.reason, locked, t));
      KeysAfter(s.agent, G.Request(a.id, a.reason, locked, t));
      hide G.Inv, G.Next;
      assert s.ctl.actions[s.worker.value].id == a.id;
    }
  }

  lemma {:induction false} AgentInv(s: System, e: G.Event)
    requires SystemInv(s) && !e.Request?
    ensures SystemInv(s.(agent := G.Next(s.agent, e)))
  {
    G.InvNext(s.agent, e);
    KeysAfter(s.agent, e);
    hide G.Next, G.Inv, Inv, IdsUnique;
  }

  /** The agent only ever adds the requested action to its file. */
  lemma {:induction false} KeysAfter(w: G.World, e: G.Event)
    requires G.Inv(w)
    ensures G.Next(w, e).file.processed.Keys <= w.file.processed.Keys + if e.Request? then {e.id} else {}
  {
    if e.Request? {
      G.LoadedFacts(w.file, e.t.load);
    }
  }

  lemma {:induction false} RunInv(now: int, run: seq<Event>)
    ensures SystemInv(Exec(now, run))
  {
    hide Next;
    if run == [] {
      G.InvExec(now, []);
      assert G.Exec(G.Start(now), []) == G.Start(now);
    } else {
      RunInv(now, run[..|run| - 1]);
      NextInv(Exec(now, run[..|run| - 1]), run[|run| - 1]);
    }
  }

  // ---------- Main results ----------

  /** The key of the queue row an execution belongs to. */
  ghost predicate ExecutionOf(s: System, i: int, key: string) {
    && 0 <= i < |s.agent.log|
    && key in s.ctl.actions
    && s.ctl.actions[key].id == s.agent.log[i].id
    && s.ctl.actions[key].kind.RestartService?
  }

  /** End to end: every execution of the wrapper belongs to one queued restart action, and no two
      executions belong to the same action, idempotency key or action id, whatever crashes, is requeued
      or is delivered again. */
  lemma {:induction false} AtMostOnceEndToEnd(now: int, run: seq<Event>, i: nat) returns (key: string)
    requires i < |Exec(now, run).agent.log|
    ensures ExecutionOf(Exec(now, run), i, key)
    ensures forall k :: ExecutionOf(Exec(now, run), i, k) ==> k == key
    ensures forall j :: 0 <= j < |Exec(now, run).agent.log| && j != i ==> !ExecutionOf(Exec(now, run), j, key)
  {
    RunInv(now, run);
    var s := Exec(now, run);
    hide Exec;
    assert s.agent.log[i].id in s.agent.file.processed.Keys;
    key :| key in s.ctl.actions && s.ctl.actions[key].id == s.agent.log[i].id
           && s.ctl.actions[key].kind.RestartService?;
  }

  /** A restart of the controller makes exactly those running actions pending again that were claimed more than fifteen
      minutes ago, unless the statement fails, and changes nothing else. */
  lemma {:induction false} RequeuedIff(s: System, now: int, requeue: Fault, key: string)
    requires key in s.ctl.actions
    ensures var after := Next(s, ControllerRestart(now, requeue)).ctl.actions;
            var status := s.ctl.actions[key].status;
            && after.Keys == s.ctl.actions.Keys
            && after[key].(status := status) == s.ctl.actions[key]
            && (after[key].status == Pending <==>
                  status == Pending ||
                  (status.Running? && now - status.startedAt > 15 * MINUTE && requeue != FailedBefore))
            && (after[key].status != Pending ==> after[key].status == status)
  {
  }

  /** The worker takes only pending actions, one at a time, and lets go of them whatever becomes of the update. */
  lemma {:induction false} WorkerSteps(s: System, key: string, now: int, ok: bool, update: Fault)
    ensures var claimed := Next(s, Claim(key, now, update));
            && (claimed != s ==> s.worker == None && key in s.ctl.actions && s.ctl.actions[key].status == Pending)
            && (s.worker == None && key in s.ctl.actions && s.ctl.actions[key].status == Pending ==>
                  && (claimed.worker == Some(key) <==> update == NoFault)
                  && claimed.ctl.actions == (if update == FailedBefore then s.ctl.actions
                                             else s.ctl.actions[key := s.ctl.actions[key].(status := Running(now))]))
    ensures Next(s, Complete(ok, update)).worker == None
    ensures s.worker == Some(key) && key in s.ctl.actions ==>
              Next(s, Complete(ok, update)).ctl.actions ==
              if update == FailedBefore then s.ctl.actions
              else s.ctl.actions[key := s.ctl.actions[key].(status := Done(ok))]
  {
  }

  /** At least once: whatever happened before, an action that is not done, pending or claimed more than fifteen
      minutes ago, is handed to the agent again by a restart, a claim and a delivery that do not fail. */
  lemma {:induction false} DeliveredAgain(s: System, key: string, restart: int, claim: int, locked: bool, t: G.Clock)
    requires key in s.ctl.actions && s.ctl.actions[key].kind.RestartService?
    requires var status := s.ctl.actions[key].status;
             status == Pending || (status.Running? && restart - status.startedAt > 15 * MINUTE)
    ensures var a := s.ctl.actions[key];
            var ready := Next(Next(s, ControllerRestart(restart, NoFault)), Claim(key, claim, NoFault));
            && ready.worker == Some(key) && key in ready.ctl.actions
            && ready.ctl.actions[key] == a.(status := Running(claim))
            && Next(ready, Deliver(locked, t)).agent == G.Next(s.agent, G.Request(a.id, a.reason, locked, t))
  {
    RequeuedIff(s, restart, NoFault, key);
    hide Requeued;
  }

  /** The n-th step marks the action as done, on behalf of a worker that had claimed it. */
  ghost predicate CompletedAt(now: int, run: seq<Event>, n: int, key: string, ok: bool) {
    && 0 <= n < |run|
    && Exec(now, run[..n]).worker == Some(key) && run[n].Complete? && run[n].ok == ok
    && run[n].update != FailedBefore
  }

  /** In every run an action is done only if a worker that had claimed it completed it with that result. */
  lemma {:induction false} DoneWasClaimed(now: int, run: seq<Event>, key: string) returns (n: nat)
    requires var actions := Exec(now, run).ctl.actions; key in actions && actions[key].status.Done?
    ensures CompletedAt(now, run, n, key, Exec(now, run).ctl.actions[key].status.ok)
  {
    var m := |run| - 1;
    var s := Exec(now, run[..m]);
    DoneStep(s, run[m], key);
    hide Next;
    if key in s.ctl.actions && s.ctl.actions[key].status == Exec(now, run).ctl.actions[key].status {
      n := DoneWasClaimed(now, run[..m], key);
      assert run[..m][..n] == run[..n];
    } else {
      n := m;
    }
  }

  /** Only a completion makes an action done. */
  lemma {:induction false} DoneStep(s: System, e: Event, key: string)
    requires key in Next(s, e).ctl.actions && Next(s, e).ctl.actions[key].status.Done?
    ensures var done := Next(s, e).ctl.actions[key].status;
            (key in s.ctl.actions && s.ctl.actions[key].status == done) ||
            (s.worker == Some(key) && e.Complete? && e.ok == done.ok && e.update != FailedBefore)
  {
    if e.SignalPass? {
      PassKeepsDone(s.ctl, e.input, key);
      hide HandleAll;
    }
    hide OpenIncident, ValidManual, Trimmed, SameRequest, ActionIdUsed;
  }

  lemma {:induction false} PassKeepsDone(st: State, input: PassInput, key: string)
    requires key in HandleSignals(st, input).actions && HandleSignals(st, input).actions[key].status.Done?
    ensures key in st.actions && st.actions[key] == HandleSignals(st, input).actions[key]
  {
    SignalsKeepDone(st, input.env, input.signals, key);
    hide HandleAll;
  }

  lemma {:induction false} SignalsKeepDone(st: State, env: Env, signals: seq<(Signal, SignalIo)>, key: string)
    requires var next := HandleAll(st, env, signals); key in next.actions && next.actions[key].status.Done?
    ensures key in st.actions && st.actions[key] == HandleAll(st, env, signals).actions[key]
  {
    hide HandleSignal;
    if signals != [] {
      var n := |signals| - 1;
      SignalKeepsDone(HandleAll(st, env, signals[..n]), env, signals[n].0, signals[n].1, key);
      SignalsKeepDone(st, env, signals[..n], key);
    }
  }

  lemma {:induction false} SignalKeepsDone(st: State, env: Env, s: Signal, io: SignalIo, key: string)
    requires var next := HandleSignal(st, env, s, io); key in next.actions && next.actions[key].status.Done?
    ensures key in st.actions && st.actions[key] == HandleSignal(st, env, s, io).actions[key]
  {
    var base, offered, sees := SignalShape(st, env, s, io);
    hide HandleSignal, Safe, AutoKey, ActionIdUsed;
  }

  /** Two automatic executions never stem from the same incident. */
  lemma {:induction false} OneAutomaticRestartPerIncident(now: int, run: seq<Event>, i: nat, j: nat, incident: string)
    requires ExecutionOf(Exec(now, run), i, AutoKey(incident)) && ExecutionOf(Exec(now, run), j, AutoKey(incident))
    ensures i == j
  {
    var key := AtMostOnceEndToEnd(now, run, i);
  }
}
