/** The controller's pass over the signals in the imperative form of cmd/controller/main.go. */
module ControllerLoop {
  import opened Base
  import opened Controller

  class Process {
    var open: map<string, OpenRow>
    var resolved: set<string>
    var actions: map<string, Action>
    var autoSeen: map<string, int>
    var smtpHealthy: bool

    ghost function View(): State
      reads this
    {
      State(open, resolved, actions, autoSeen, smtpHealthy)
    }

    constructor ()
      ensures View() == New()
    {
      open, resolved, actions, autoSeen, smtpHealthy := map[], {}, map[], map[], false;
    }

    method TryOpen(s: Signal, io: SignalIo) returns (outcome: Opened)
      modifies `open
      ensures (View(), outcome) == OpenIncident(old(View()), s, io)
    {
      var row := OpenRow(io.newId, s.severity);
      var inserts := s.fingerprint !in open && !IdUsed(open, resolved, io.newId);
      if inserts && !io.insert.FailedBefore? {
        open := open[s.fingerprint := row];
      }
      if !io.insert.NoFault? { return NotOpened; }
      if inserts { return OpenedNow(row); }
      if s.fingerprint !in open || !io.lookupOk { return NotOpened; }
      outcome := AlreadyOpen(open[s.fingerprint]);
    }

    method Remember(fingerprint: string, now: int)
      modifies `autoSeen
      ensures View() == See(old(View()), fingerprint, now)
    {
      autoSeen := autoSeen[fingerprint := now];
    }

    method TryEnqueue(env: Env, fingerprint: string, incident: string, io: SignalIo)
      modifies `autoSeen, `actions
      ensures View() == MaybeEnqueueAuto(old(View()), env, fingerprint, incident, io)
    {
      if fingerprint !in autoSeen {
        Remember(fingerprint, io.now);
        return;
      }
      var first := autoSeen[fingerprint];
      if !Safe(smtpHealthy, env, first, io) { return; }
      var key := AutoKey(incident);
      if key !in actions && !ActionIdUsed(actions, io.actionId) && !io.enqueue.FailedBefore? {
        actions := actions[key := Action(io.actionId, incident, "controller", AUTO_REASON, RestartService, true,
                                        Pending)];
      }
    }

    method OneSignal(env: Env, s: Signal, io: SignalIo)
      modifies `open, `autoSeen, `smtpHealthy, `actions
      ensures View() == HandleSignal(old(View()), env, s, io)
    {
      var outcome := TryOpen(s, io);
      match outcome
      case NotOpened =>
      case OpenedNow(row) =>
        smtpHealthy := io.mailOk;
        if s.autoCandidate { Remember(s.fingerprint, io.now); }
        TryEnqueue(env, s.fingerprint, row.id, io);
      case AlreadyOpen(row) =>
        if Rank(s.severity) > Rank(row.severity) {
          if !io.escalate.FailedBefore? {
            open := open[s.fingerprint := row.(severity := s.severity)];
          }
          if io.escalate.NoFault? { smtpHealthy := io.mailOk; }
        } else if s.autoCandidate {
          TryEnqueue(env, s.fingerprint, row.id, io);
        }
    }

    /** One pass: all signals in order, then the sweep over the open incidents in any order. */
    method HandlePass(input: PassInput)
      modifies this
      ensures View() == HandleSignals(old(View()), input)
    {
      var active: set<string> := {};
      var n := 0;
      ghost var start := View();
      while n < |input.signals|
        invariant n <= |input.signals|
        invariant View() == HandleAll(start, input.env, input.signals[..n])
        invariant active == Fingerprints(input.signals[..n])
      {
        var (s, io) := input.signals[n];
        active := active + {s.fingerprint};
        OneSignal(input.env, s, io);
        assert input.signals[..n + 1][..n] == input.signals[..n];
        MoreFingerprints(input.signals, n);
        n := n + 1;
      }
      assert input.signals[..n] == input.signals;
      Sweep(input, active);
    }

    method CloseOne(f: string, updated: set<string>)
      requires f in open
      modifies `open, `resolved, `autoSeen
      ensures (open, resolved, autoSeen) ==
              if f in updated then (old(open) - {f}, old(resolved) + {old(open)[f].id}, old(autoSeen) - {f})
              else (old(open), old(resolved), old(autoSeen) - {f})
    {
      if f in updated {
        resolved := resolved + {open[f].id};
        open := open - {f};
      }
      autoSeen := autoSeen - {f};
    }

    method Sweep(input: PassInput, active: set<string>)
      requires active == Fingerprints(input.signals)
      modifies this
      ensures View() == Resolve(old(View()), input)
    {
      ghost var st := View();
      ghost var gone := Gone(st, input);
      var rows := set f | f in open && f in input.sweep.visited;
      var pending := rows;
      ghost var done: set<string> := {};
      assert forall f :: f in gone <==> f in rows && f !in active && !Held(input.env, f);
      hide Gone, Fingerprints, Resolve, IdsOf, Held;
      AfterNone(st, input.sweep.updated);
      hide After;
      while pending != {}
        invariant pending <= rows && done == gone - pending
        invariant After(st, done, input.sweep.updated) == (open, resolved, autoSeen)
        invariant smtpHealthy == st.smtpHealthy && actions == st.actions
        decreases pending
      {
        var f :| f in pending;
        pending := pending - {f};
        if f !in active && !Held(input.env, f) {
          AfterOneMore(st, done, f, input.sweep.updated);
          CloseOne(f, input.sweep.updated);
          done := done + {f};
        }
      }
      assert done == gone;
      AfterAll(st, input);
    }
  }

  /** The tables once the fingerprints in `done` have been dealt with. */
  ghost function After(st: State, done: set<string>, updated: set<string>)
    : (map<string, OpenRow>, set<string>, map<string, int>)
  {
    (st.open - done * updated,
     st.resolved + IdsOf(st.open, done * updated),
     st.autoSeen - done)
  }

  lemma {:induction false} AfterNone(st: State, updated: set<string>)
    ensures After(st, {}, updated) == (st.open, st.resolved, st.autoSeen)
  {
    var none: set<string> := {};
    assert none * updated == none;
    assert IdsOf(st.open, none) == {};
    var tables := After(st, none, updated);
    assert tables.0 == st.open && tables.1 == st.resolved && tables.2 == st.autoSeen;
  }

  lemma {:induction false} AfterAll(st: State, input: PassInput)
    ensures var tables := After(st, Gone(st, input), input.sweep.updated);
            Resolve(st, input) == st.(open := tables.0, resolved := tables.1, autoSeen := tables.2)
  {
  }

  lemma {:induction false} AfterOneMore(st: State, done: set<string>, f: string, updated: set<string>)
    requires f in st.open && f !in done
    ensures var (open, resolved, autoSeen) := After(st, done, updated);
            && f in open && open[f] == st.open[f]
            && After(st, done + {f}, updated) ==
               (if f in updated then (open - {f}, resolved + {open[f].id}, autoSeen - {f})
                else (open, resolved, autoSeen - {f}))
  {
    var now, next := After(st, done, updated), After(st, done + {f}, updated);
    assert next.2 == now.2 - {f};
    if f in updated {
      assert (done + {f}) * updated == done * updated + {f};
      assert next.0 == now.0 - {f};
      assert IdsOf(st.open, done * updated + {f}) == IdsOf(st.open, done * updated) + {st.open[f].id};
      assert next.1 == now.1 + {st.open[f].id};
    } else {
      assert (done + {f}) * updated == done * updated;
    }
  }

  lemma {:induction false} MoreFingerprints(signals: seq<(Signal, SignalIo)>, n: nat)
    requires n < |signals|
    ensures Fingerprints(signals[..n + 1]) == Fingerprints(signals[..n]) + {signals[n].0.fingerprint}
  {
    assert forall i :: 0 <= i < n ==> signals[..n][i] == signals[..n + 1][i];
  }
}
