/** What the limiter promises to one address (internal/authlimit/limiter.go): what it takes to evict it, its
admission rate while it is not evicted, and the exact meaning of RetryAfter. */
module LimiterAddresses {
  import opened Base
  import opened Limiter
  import opened LimiterRuns
  import opened LimiterTheorems

  // ---------- Who can push an address out of the table ----------

  /** Every key in front of k belongs to s. */
  ghost predicate AheadIn(order: seq<string>, k: string, s: set<string>) {
    forall i, j :: 0 <= j < i < |order| && order[i] == k ==> order[j] in s
  }

  lemma {:induction false} DistinctCount(order: seq<string>)
    requires NoDuplicates(order)
    ensures |set k | k in order| == |order|
  {
    if order != [] {
      DistinctCount(order[1..]);
      assert (set k | k in order) == {order[0]} + set k | k in order[1..];
    }
  }

  lemma {:induction false} SubsetSize(a: set<string>, b: set<string>)
    requires a <= b
    ensures |a| <= |b|
  {
    assert b == a + (b - a);
  }

  /** The row of k is pushed out by another address: it survives the cleanup of a call but not the call. */
  ghost predicate Evicted(cfg: Config, st: State, e: Event, k: string)
    requires cfg.Valid()
  {
    && e.call.CallAllow?
    && k in Cleanup(cfg, st, e.now).ips.entries
    && k !in Step(cfg, st, e, true).0.ips.entries
  }

  /** A newcomer j that finds k at the end of a full table: the keys in front of k and j are MaxIPs many. */
  lemma {:induction false} FrontIsLong(order: seq<string>, k: string, j: string, ahead: set<string>, maxIPs: int,
                                       i: nat)
    requires NoDuplicates(order) && i < |order| && order[i] == k
    requires AheadIn(order, k, ahead) && j !in order
    requires i >= maxIPs - 1
    ensures |ahead + {j}| >= maxIPs
  {
    var front := order[..i];
    DistinctCount(front);
    var members := set x | x in front;
    assert j !in members;
    assert |members + {j}| == i + 1;
    forall x | x in front ensures x in ahead {
      var m :| 0 <= m < |front| && front[m] == x;
      assert order[m] == x;
    }
    SubsetSize(members + {j}, ahead + {j});
  }

  lemma {:induction false} StaysInRest(cfg: Config, t: Table<Bucket>, i: nat, n: nat)
    requires cfg.Valid() && i < |t.order| && i != n
    requires n < |t.order| || i < cfg.maxIPs - 1
    ensures t.order[i] in Rest(cfg, t, n)
  {
    var m := if n < |t.order| && i > n then i - 1 else i;
    assert Rest(cfg, t, n)[m] == t.order[i];
  }

  /** Another address keeps the row of k, or pushes it out past MaxIPs distinct keys. */
  lemma {:induction false} VisitOther(cfg: Config, t: Table<Bucket>, k: string, j: string, now: int, b: Bucket,
                                      ahead: set<string>)
    requires cfg.Valid() && IpInv(cfg, t, now) && j != k && AheadIn(t.order, k, ahead)
    ensures var r := Visited(cfg, t, j, now, b);
            && (k in r.entries ==> k in t.entries && r.entries[k] == t.entries[k])
            && (k in t.entries && k !in r.entries ==> |ahead + {j}| >= cfg.maxIPs)
            && AheadIn(r.order, k, ahead + {j})
  {
    var n := VisitedRows(cfg, t, j, now, b);
    RestAhead(cfg, t, k, n, ahead);
    PutInFront(Rest(cfg, t, n), k, j, ahead);
    hide Visited, Rest, AheadIn;
    if k in t.entries {
      var i :| 0 <= i < |t.order| && t.order[i] == k;
      if n >= |t.order| && i >= cfg.maxIPs - 1 {
        FrontIsLong(t.order, k, j, ahead, cfg.maxIPs, i);
      } else {
        StaysInRest(cfg, t, i, n);
        assert k in [j] + Rest(cfg, t, n);
      }
    }
  }

  lemma {:induction false} PutInFront(rest: seq<string>, k: string, j: string, ahead: set<string>)
    requires AheadIn(rest, k, ahead) && j != k
    ensures AheadIn([j] + rest, k, ahead + {j})
  {
    var order := [j] + rest;
    forall i, m | 0 <= m < i < |order| && order[i] == k ensures order[m] in ahead + {j} {
      assert order[i] == rest[i - 1];
      if m > 0 {
        assert order[m] == rest[m - 1];
      }
    }
  }

  lemma {:induction false} RestAhead(cfg: Config, t: Table<Bucket>, k: string, n: nat, ahead: set<string>)
    requires cfg.Valid() && AheadIn(t.order, k, ahead)
    ensures AheadIn(Rest(cfg, t, n), k, ahead)
  {
    var rest := Rest(cfg, t, n);
    forall i, j | 0 <= j < i < |rest| && rest[i] == k ensures rest[j] in ahead {
      var i' := if n < |t.order| && i >= n then i + 1 else i;
      var j' := if n < |t.order| && j >= n then j + 1 else j;
      assert rest[i] == t.order[i'] && rest[j] == t.order[j'];
    }
  }

  lemma {:induction false} VisitSelf(cfg: Config, t: Table<Bucket>, k: string, now: int, b: Bucket, s: set<string>)
    requires cfg.Valid() && IpInv(cfg, t, now)
    ensures AheadIn(Visited(cfg, t, k, now, b).order, k, s)
  {
    var n := VisitedRows(cfg, t, k, now, b);
    var r := Visited(cfg, t, k, now, b);
    assert r.order[0] == k;
  }

  lemma {:induction false} PurgeKeepsAvailable(cfg: Config, t: Table<Bucket>, k: string, cutoff: int, now: int)
    requires cfg.Valid() && IpInv(cfg, t, now) && cutoff + cfg.IpFull() <= now
    ensures AvailableTo(cfg, Purge(t, cutoff), k, now) == AvailableTo(cfg, t, k, now)
  {
    if k in t.entries {
      assert BucketInv(t.entries[k].value, cfg.IpFull(), now);
    }
  }

  lemma {:induction false} PurgeKeepsAhead(cfg: Config, t: Table<Bucket>, k: string, cutoff: int, now: int,
                                           ahead: set<string>)
    requires cfg.Valid() && IpInv(cfg, t, now)
    ensures AheadIn(t.order, k, ahead) ==> AheadIn(Purge(t, cutoff).order, k, ahead)
  {
    var n := PurgeCutsTail(cfg, t, cutoff, now);
    hide Purge, IpInv;
  }

  /** The cleanup takes nothing from anyone. */
  lemma {:induction false} CleanupKeepsAvailable(cfg: Config, st: State, k: string, now: int)
    requires cfg.Valid() && Inv(cfg, st, now) && cfg.entryTTL >= cfg.IpFull()
    ensures AvailableTo(cfg, Cleanup(cfg, st, now).ips, k, now) == AvailableTo(cfg, st.ips, k, now)
  {
    hide Purge, IpInv, AvailableTo;
    if now >= st.nextCleanup {
      PurgeKeepsAvailable(cfg, st.ips, k, now - cfg.entryTTL, now);
    }
  }

  /** The cleanup puts nobody further back. */
  lemma {:induction false} CleanupKeepsAhead(cfg: Config, st: State, k: string, now: int, ahead: set<string>)
    requires cfg.Valid() && Inv(cfg, st, now) && AheadIn(st.ips.order, k, ahead)
    ensures AheadIn(Cleanup(cfg, st, now).ips.order, k, ahead)
  {
    hide Purge, IpInv, AheadIn;
    if now >= st.nextCleanup {
      PurgeKeepsAhead(cfg, st.ips, k, now - cfg.entryTTL, now, ahead);
    }
  }

  // ---------- One event ----------

  lemma {:induction false} AvailableLater(cfg: Config, t: Table<Bucket>, k: string, now: int, later: int)
    requires cfg.Valid() && IpInv(cfg, t, now) && now <= later
    ensures AvailableTo(cfg, t, k, later) <= AvailableTo(cfg, t, k, now) + (later - now)
    ensures 0 <= AvailableTo(cfg, t, k, later) <= cfg.IpFull()
  {
    Full(cfg);
  }

  /** One event: what k spends comes out of what was available to it. */
  lemma {:induction false} OwnStep(cfg: Config, st: State, e: Event, k: string)
    requires cfg.Valid() && Inv(cfg, st, e.now) && cfg.entryTTL >= cfg.IpFull() && IsFrom(e, k)
    ensures var (next, d) := Step(cfg, st, e, true);
            && d.Some?
            && AvailableTo(cfg, next.ips, k, e.now) + (if d.value.allowed then cfg.ipRefill else 0)
               == AvailableTo(cfg, st.ips, k, e.now)
  {
    hide Address, Cleanup;
    var c := Cleanup(cfg, st, e.now);
    CleanupInv(cfg, st, e.now);
    CleanupKeepsAvailable(cfg, st, k, e.now);
    AdmitMeaning(cfg, c, e.call.ip, e.call.user, e.now);
    var (next, d) := Step(cfg, st, e, true);
    assert (next, d.value) == Admit(cfg, c, e.call.ip, e.call.user, e.now);
    hide Admit;
    OwnRow(cfg, c.ips, k, e.now, d.value.allowed);
  }

  lemma {:induction false} OwnRow(cfg: Config, t: Table<Bucket>, k: string, now: int, allowed: bool)
    requires cfg.Valid() && IpInv(cfg, t, now)
    requires allowed ==> Found(cfg, t, k, now).credit >= cfg.ipRefill
    ensures var b := Found(cfg, t, k, now);
            var r := Visited(cfg, t, k, now, if allowed then Spend(b, cfg.ipRefill) else b);
            AvailableTo(cfg, r, k, now) + (if allowed then cfg.ipRefill else 0) == AvailableTo(cfg, t, k, now)
  {
    Full(cfg);
    var b := Found(cfg, t, k, now);
    if k in t.entries {
      assert BucketInv(t.entries[k].value, cfg.IpFull(), now);
    }
    assert b.credit == AvailableTo(cfg, t, k, now) && b.last == now;
    var n := VisitedRows(cfg, t, k, now, if allowed then Spend(b, cfg.ipRefill) else b);
    hide Visited, WellFormed, IpInv;
  }

  /** A call from elsewhere takes nothing from k unless it evicts k, and eviction needs MaxIPs distinct callers. */
  lemma {:induction false} OtherStep(cfg: Config, st: State, e: Event, k: string, ahead: set<string>)
    requires cfg.Valid() && Inv(cfg, st, e.now) && !IsFrom(e, k) && AheadIn(st.ips.order, k, ahead)
    ensures var next := Step(cfg, st, e, true).0;
            && (Evicted(cfg, st, e, k) ==> |ahead + Others([e], k)| >= cfg.maxIPs)
            && (cfg.entryTTL >= cfg.IpFull() && !Evicted(cfg, st, e, k) ==>
                  AvailableTo(cfg, next.ips, k, e.now) == AvailableTo(cfg, st.ips, k, e.now))
            && AheadIn(next.ips.order, k, ahead + Others([e], k))
  {
    if e.call.CallAllow? {
      OtherCall(cfg, st, e, k, ahead);
    } else {
      assert ahead + Others([e], k) == ahead;
    }
  }

  lemma {:induction false} OtherCall(cfg: Config, st: State, e: Event, k: string, ahead: set<string>)
    requires cfg.Valid() && Inv(cfg, st, e.now) && !IsFrom(e, k) && AheadIn(st.ips.order, k, ahead) && e.call.CallAllow?
    ensures var next := Step(cfg, st, e, true).0;
            && (Evicted(cfg, st, e, k) ==> |ahead + Others([e], k)| >= cfg.maxIPs)
            && (cfg.entryTTL >= cfg.IpFull() && !Evicted(cfg, st, e, k) ==>
                  AvailableTo(cfg, next.ips, k, e.now) == AvailableTo(cfg, st.ips, k, e.now))
            && AheadIn(next.ips.order, k, ahead + Others([e], k))
  {
    var c := Cleanup(cfg, st, e.now);
    var j := Address(e.call.ip);
    CleanupInv(cfg, st, e.now);
    CleanupKeepsAhead(cfg, st, k, e.now, ahead);
    if cfg.entryTTL >= cfg.IpFull() {
      CleanupKeepsAvailable(cfg, st, k, e.now);
    }
    AdmitMeaning(cfg, c, e.call.ip, e.call.user, e.now);
    var (next, d) := Admit(cfg, c, e.call.ip, e.call.user, e.now);
    var b := Found(cfg, c.ips, j, e.now);
    assert Others([e], k) == {j};
    assert Step(cfg, st, e, true).0 == next;
    hide Admit, Cleanup, Visited, Found, AheadIn, Address, IpInv, Step;
    VisitOther(cfg, c.ips, k, j, e.now, if d.allowed then Spend(b, cfg.ipRefill) else b, ahead);
  }

  // ---------- Eviction over runs ----------

  /** Along a run, in front of k are only addresses that called since. */
  lemma {:induction false} AheadAlong(cfg: Config, st: State, run: seq<Event>, k: string, ahead: set<string>, now: int)
    requires cfg.Valid() && Inv(cfg, st, now) && Timed(run, now) && AheadIn(st.ips.order, k, ahead)
    ensures AheadIn(Exec(cfg, st, run, true).ips.order, k, ahead + Others(run, k))
    decreases |run|
  {
    if run == [] {
      assert ahead + Others(run, k) == ahead;
    } else {
      hide AheadIn, Step;
      var e := run[0];
      var next := Step(cfg, st, e, true).0;
      InvLater(cfg, st, now, e.now);
      StepInv(cfg, st, e, true, now);
      OthersSplit(run, k, ahead);
      hide Inv;
      if IsFrom(e, k) {
        InFront(cfg, st, e, k, ahead + Others([e], k));
      } else {
        OtherStep(cfg, st, e, k, ahead);
      }
      AheadAlong(cfg, next, run[1..], k, ahead + Others([e], k), e.now);
    }
  }

  lemma {:induction false} InvLater(cfg: Config, st: State, now: int, later: int)
    requires Inv(cfg, st, now) && now <= later
    ensures Inv(cfg, st, later)
  {
    IpInvLater(cfg, st.ips, now, later);
    hide IpInv;
  }

  /** After its own call k is the most recently used. */
  lemma {:induction false} InFront(cfg: Config, st: State, e: Event, k: string, s: set<string>)
    requires cfg.Valid() && Inv(cfg, st, e.now) && IsFrom(e, k)
    ensures AheadIn(Step(cfg, st, e, true).0.ips.order, k, s)
  {
    var c := Cleanup(cfg, st, e.now);
    CleanupInv(cfg, st, e.now);
    AdmitMeaning(cfg, c, e.call.ip, e.call.user, e.now);
    var b := Found(cfg, c.ips, k, e.now);
    var d := Admit(cfg, c, e.call.ip, e.call.user, e.now).1;
    hide Admit, Cleanup, Found, Visited, AheadIn, Address;
    VisitSelf(cfg, c.ips, k, e.now, if d.allowed then Spend(b, cfg.ipRefill) else b, s);
  }

  /** An address is evicted only after MaxIPs distinct other addresses have called since its last call: whatever
      call of k is taken as `access`, that many others called after it. */
  lemma {:induction false} EvictionNeedsOthers(cfg: Config, start: int, before: seq<Event>, access: Event,
                                               after: seq<Event>, e: Event, k: string)
    requires cfg.Valid() && Timed(before + [access] + after + [e], start) && IsFrom(access, k)
    requires Evicted(cfg, Exec(cfg, New(cfg, start), before + [access] + after, true), e, k)
    ensures |Others(after + [e], k)| >= cfg.maxIPs
  {
    var upto := before + [access];
    TimedSplits(upto + after, [e], start);
    TimedSplits(upto, after, start);
    TimedSplits(before, [access], start);
    NewInv(cfg, start);
    ExecInv(cfg, New(cfg, start), before, true, start);
    ExecInv(cfg, New(cfg, start), upto, true, start);
    ExecInv(cfg, New(cfg, start), upto + after, true, start);
    ExecJoins(cfg, New(cfg, start), before, [access]);
    ExecJoins(cfg, New(cfg, start), upto, after);
    var s0 := Exec(cfg, New(cfg, start), before, true);
    var s1 := Exec(cfg, New(cfg, start), upto, true);
    var s2 := Exec(cfg, New(cfg, start), upto + after, true);
    assert s1 == Step(cfg, s0, access, true).0 by {
      assert [access][1..] == [];
    }
    InvLater(cfg, s0, End(before, start), access.now);
    InFront(cfg, s0, access, k, {});
    AheadAlong(cfg, s1, after, k, {}, End(upto, start));
    InvLater(cfg, s2, End(upto + after, start), e.now);
    OthersAppend(after, e, k);
    OtherStep(cfg, s2, e, k, {} + Others(after, k)) by {
      EvictedByOther(cfg, s2, e, k);
    }
    assert {} + Others(after, k) + Others([e], k) == Others(after + [e], k);
  }

  lemma {:induction false} EvictedByOther(cfg: Config, st: State, e: Event, k: string)
    requires cfg.Valid() && Evicted(cfg, st, e, k)
    ensures !IsFrom(e, k)
  {
    AdmitMeaning(cfg, Cleanup(cfg, st, e.now), e.call.ip, e.call.user, e.now);
  }

  lemma {:induction false} ExecJoins(cfg: Config, st: State, a: seq<Event>, b: seq<Event>)
    requires cfg.Valid()
    ensures Exec(cfg, st, a + b, true) == Exec(cfg, Exec(cfg, st, a, true), b, true)
    decreases |a|
  {
    hide Step;
    if a == [] {
      assert a + b == b;
    } else {
      assert (a + b)[1..] == a[1..] + b;
      ExecJoins(cfg, Step(cfg, st, a[0], true).0, a[1..], b);
    }
  }

  lemma {:induction false} OthersAppend(run: seq<Event>, e: Event, k: string)
    ensures Others(run + [e], k) == Others(run, k) + Others([e], k)
  {
    if run == [] {
      assert run + [e] == [e];
    } else {
      assert (run + [e])[1..] == run[1..] + [e];
      OthersAppend(run[1..], e, k);
    }
  }

  lemma {:induction false} OthersSplit(run: seq<Event>, k: string, ahead: set<string>)
    requires run != []
    ensures ahead + Others([run[0]], k) + Others(run[1..], k) == ahead + Others(run, k)
  {
    assert Others(run, k) == Others([run[0]], k) + Others(run[1..], k);
  }

  // ---------- The rate of one address ----------

  /** k calls somewhere in the run. */
  predicate CallsIn(run: seq<Event>, k: string) {
    run != [] && (IsFrom(run[0], k) || CallsIn(run[1..], k))
  }

  /** Up to its last call in the run k is not evicted. */
  ghost predicate NeverEvicted(cfg: Config, st: State, run: seq<Event>, k: string)
    requires cfg.Valid()
    decreases |run|
  {
    CallsIn(run, k) ==> !Evicted(cfg, st, run[0], k) && NeverEvicted(cfg, Step(cfg, st, run[0], true).0, run[1..], k)
  }

  /** Between its first and its last call in the window k is not evicted. */
  ghost predicate Resident(cfg: Config, st: State, window: seq<Event>, k: string)
    requires cfg.Valid()
    decreases |window|
  {
    window != [] ==>
      var next := Step(cfg, st, window[0], true).0;
      if IsFrom(window[0], k) then NeverEvicted(cfg, next, window[1..], k) else Resident(cfg, next, window[1..], k)
  }

  /** Before each call of k fewer than MaxIPs distinct others have called since the one before. */
  predicate Room(cfg: Config, run: seq<Event>, k: string, ahead: set<string>)
    decreases |run|
  {
    CallsIn(run, k) ==>
      if IsFrom(run[0], k) then Room(cfg, run[1..], k, {})
      else
        |ahead + Others([run[0]], k)| < cfg.maxIPs && Room(cfg, run[1..], k, ahead + Others([run[0]], k))
  }

  /** Between any two neighbouring calls of k in the window fewer than MaxIPs distinct others call. */
  predicate Uncrowded(cfg: Config, window: seq<Event>, k: string)
    decreases |window|
  {
    window != [] ==>
      if IsFrom(window[0], k) then Room(cfg, window[1..], k, {}) else Uncrowded(cfg, window[1..], k)
  }

  lemma {:induction false} RoomKeepsRow(cfg: Config, st: State, run: seq<Event>, k: string, ahead: set<string>,
                                        now: int)
    requires cfg.Valid() && Inv(cfg, st, now) && Timed(run, now)
    requires AheadIn(st.ips.order, k, ahead) && Room(cfg, run, k, ahead)
    ensures NeverEvicted(cfg, st, run, k)
    decreases |run|
  {
    if CallsIn(run, k) {
      hide AheadIn, Step, Evicted;
      var e := run[0];
      InvLater(cfg, st, now, e.now);
      StepInv(cfg, st, e, true, now);
      hide Inv;
      var next := Step(cfg, st, e, true).0;
      if IsFrom(e, k) {
        InFront(cfg, st, e, k, {});
        OwnNotEvicted(cfg, st, e, k);
        RoomKeepsRow(cfg, next, run[1..], k, {}, e.now);
      } else {
        OtherStep(cfg, st, e, k, ahead);
        RoomKeepsRow(cfg, next, run[1..], k, ahead + Others([e], k), e.now);
      }
    }
  }

  lemma {:induction false} OwnNotEvicted(cfg: Config, st: State, e: Event, k: string)
    requires cfg.Valid() && IsFrom(e, k)
    ensures !Evicted(cfg, st, e, k)
  {
    if Evicted(cfg, st, e, k) {
      EvictedByOther(cfg, st, e, k);
    }
  }

  /** Where fewer than MaxIPs others call between the calls of k, k stays, however many call in all. */
  lemma {:induction false} UncrowdedStays(cfg: Config, st: State, window: seq<Event>, k: string, now: int)
    requires cfg.Valid() && Inv(cfg, st, now) && Timed(window, now) && Uncrowded(cfg, window, k)
    ensures Resident(cfg, st, window, k)
    decreases |window|
  {
    if window != [] {
      hide AheadIn, Step, NeverEvicted, Room;
      var e := window[0];
      InvLater(cfg, st, now, e.now);
      StepInv(cfg, st, e, true, now);
      hide Inv;
      var next := Step(cfg, st, e, true).0;
      if IsFrom(e, k) {
        InFront(cfg, st, e, k, {});
        RoomKeepsRow(cfg, next, window[1..], k, {}, e.now);
      } else {
        UncrowdedStays(cfg, next, window[1..], k, e.now);
      }
    }
  }

  /** One event, if k is not evicted by it. */
  lemma {:induction false} AddressStep(cfg: Config, st: State, e: Event, k: string, now: int)
    requires cfg.Valid() && Inv(cfg, st, now) && now <= e.now && cfg.entryTTL >= cfg.IpFull()
    requires !Evicted(cfg, st, e, k)
    ensures var (next, d) := Step(cfg, st, e, true);
            && Inv(cfg, next, e.now)
            && AvailableTo(cfg, next.ips, k, e.now) +
               (if IsFrom(e, k) && d.Some? && d.value.allowed then cfg.ipRefill else 0)
               <= AvailableTo(cfg, st.ips, k, now) + (e.now - now)
  {
    hide Step, AvailableTo, Evicted;
    AvailableLater(cfg, st.ips, k, now, e.now);
    StepInv(cfg, st, e, true, now);
    InvLater(cfg, st, now, e.now);
    EverythingAhead(st.ips.order, k);
    hide Inv, AheadIn;
    if IsFrom(e, k) {
      OwnStep(cfg, st, e, k);
    } else {
      OtherStep(cfg, st, e, k, set x | x in st.ips.order);
    }
  }

  lemma {:induction false} EverythingAhead(order: seq<string>, k: string)
    ensures AheadIn(order, k, set x | x in order)
  {
  }

  lemma {:induction false} NothingAdmitted(cfg: Config, st: State, run: seq<Event>, k: string)
    requires cfg.Valid() && !CallsIn(run, k)
    ensures AdmittedFrom(cfg, st, run, k) == 0
    decreases |run|
  {
    hide Step;
    if run != [] {
      NothingAdmitted(cfg, Step(cfg, st, run[0], true).0, run[1..], k);
    }
  }

  lemma {:induction false} Spending(own: bool, rest: int, cost: int, total: int)
    requires total == if own then rest + 1 else rest
    ensures total * cost == rest * cost + if own then cost else 0
  {
    OneMore(rest, cost);
  }

  lemma {:induction false} AddressPotential(cfg: Config, st: State, run: seq<Event>, k: string, now: int)
    requires cfg.Valid() && Inv(cfg, st, now) && Timed(run, now) && cfg.entryTTL >= cfg.IpFull()
    requires NeverEvicted(cfg, st, run, k)
    ensures AdmittedFrom(cfg, st, run, k) * cfg.ipRefill <=
            AvailableTo(cfg, st.ips, k, now) + (End(run, now) - now)
    decreases |run|
  {
    if !CallsIn(run, k) {
      AvailableLater(cfg, st.ips, k, now, now);
      NothingAdmitted(cfg, st, run, k);
      EndIsLast(run, now);
    } else {
      hide Inv, Step, AvailableTo, Evicted;
      var e := run[0];
      var (next, d) := Step(cfg, st, e, true);
      AddressStep(cfg, st, e, k, now);
      AddressPotential(cfg, next, run[1..], k, e.now);
      var rest := AdmittedFrom(cfg, next, run[1..], k);
      var own := IsFrom(e, k) && d.Some? && d.value.allowed;
      assert AdmittedFrom(cfg, st, run, k) == if own then rest + 1 else rest;
      assert End(run, now) == End(run[1..], e.now);
      hide AdmittedFrom, End, Timed, IsFrom, NeverEvicted;
      Spending(own, rest, cfg.ipRefill, AdmittedFrom(cfg, st, run, k));
    }
  }

  /** A window begins for k at its first call: until then nothing is admitted from k, whoever calls. */
  lemma {:induction false} AddressWindow(cfg: Config, st: State, window: seq<Event>, k: string, now: int)
    requires cfg.Valid() && Inv(cfg, st, now) && Timed(window, now) && cfg.entryTTL >= cfg.IpFull()
    requires Resident(cfg, st, window, k)
    ensures AdmittedFrom(cfg, st, window, k) * cfg.ipRefill <=
            cfg.IpFull() + (End(window, now) - (if window == [] then now else window[0].now))
    decreases |window|
  {
    hide Step, Inv, AvailableTo, NeverEvicted;
    Full(cfg);
    if window != [] {
      var e := window[0];
      var (next, d) := Step(cfg, st, e, true);
      InvLater(cfg, st, now, e.now);
      StepInv(cfg, st, e, true, now);
      EndIsLast(window[1..], e.now);
      if IsFrom(e, k) {
        OwnStep(cfg, st, e, k);
        AvailableNow(cfg, st, k, e.now);
        AddressPotential(cfg, next, window[1..], k, e.now);
        OneMore(AdmittedFrom(cfg, next, window[1..], k), cfg.ipRefill);
      } else {
        AddressWindow(cfg, next, window[1..], k, e.now);
      }
    }
  }

  lemma {:induction false} AvailableNow(cfg: Config, st: State, k: string, now: int)
    requires cfg.Valid() && Inv(cfg, st, now)
    ensures AvailableTo(cfg, st.ips, k, now) <= cfg.IpFull()
  {
    AvailableLater(cfg, st.ips, k, now, now);
  }

  /** In every window [s, t] of every run in which an address is not evicted between its first and last call,
      at most IPBurst + (t - s) / IPRefill of its calls are admitted. */
  lemma {:induction false} AddressRate(cfg: Config, start: int, before: seq<Event>, window: seq<Event>, k: string,
                                       s: int, t: int)
    requires cfg.Valid() && Timed(before + window, start) && cfg.entryTTL >= cfg.IpFull()
    requires window != [] ==> s <= window[0].now && window[|window| - 1].now <= t
    requires s <= t && Resident(cfg, Exec(cfg, New(cfg, start), before, true), window, k)
    ensures AdmittedFrom(cfg, Exec(cfg, New(cfg, start), before, true), window, k) * cfg.ipRefill <=
            cfg.ipBurst * cfg.ipRefill + (t - s)
  {
    hide AdmittedFrom, Exec, Inv, Resident;
    TimedSplits(before, window, start);
    NewInv(cfg, start);
    ExecInv(cfg, New(cfg, start), before, true, start);
    AddressWindow(cfg, Exec(cfg, New(cfg, start), before, true), window, k, End(before, start));
    EndIsLast(window, End(before, start));
  }

  // ---------- RetryAfter ----------

  lemma {:induction false} Denied(cfg: Config, st: State, ip: string, user: string, t: int)
    requires cfg.Valid() && Inv(cfg, st, t)
    ensures var (next, d) := Allow(cfg, st, ip, user, t);
            !d.allowed ==>
              && Inv(cfg, next, t)
              && next.global.last == t
              && Address(ip) in next.ips.entries && next.ips.entries[Address(ip)].value.last == t
              && d.retryAfter > 0
              && d.retryAfter == Max(cfg.globalRefill - next.global.credit,
                                     cfg.ipRefill - next.ips.entries[Address(ip)].value.credit)
  {
    CleanupInv(cfg, st, t);
    var c := Cleanup(cfg, st, t);
    AdmitMeaning(cfg, c, ip, user, t);
    AdmitInv(cfg, c, ip, user, t);
    var n := VisitedRows(cfg, c.ips, Address(ip), t, Found(cfg, c.ips, Address(ip), t));
  }

  /** After a denial at t the same address is denied at every instant before t + RetryAfter and admitted
      at every instant from then on, as long as nobody else calls. */
  lemma {:induction false} RetryAfterIsExact(cfg: Config, st: State, ip: string, user: string, t: int, user': string,
                                             later: int)
    requires cfg.Valid() && Inv(cfg, st, t) && cfg.entryTTL >= cfg.ipRefill
    requires !Allow(cfg, st, ip, user, t).1.allowed && later >= t
    ensures var (next, d) := Allow(cfg, st, ip, user, t);
            Allow(cfg, next, ip, user', later).1.allowed <==> later >= t + d.retryAfter
  {
    Denied(cfg, st, ip, user, t);
    var (next, d) := Allow(cfg, st, ip, user, t);
    Full(cfg);
    var c := Cleanup(cfg, next, later);
    AdmitMeaning(cfg, c, ip, user', later);
    var k := Address(ip);
    if later < next.nextCleanup || later - cfg.entryTTL <= t {
      RowSurvives(cfg, next, k, later);
    }
  }

  lemma {:induction false} RowSurvives(cfg: Config, st: State, k: string, now: int)
    requires k in st.ips.entries && (now < st.nextCleanup || st.ips.entries[k].lastAccess >= now - cfg.entryTTL)
    ensures var c := Cleanup(cfg, st, now); k in c.ips.entries && c.ips.entries[k] == st.ips.entries[k]
  {
  }

  /** The Retry-After header: whole seconds, rounded up, at least one. */
  function RetrySeconds(retryAfter: int): (seconds: int)
    ensures seconds >= 1
    ensures seconds * SECOND >= retryAfter
    ensures seconds > 1 ==> (seconds - 1) * SECOND < retryAfter
  {
    var seconds := (retryAfter + SECOND - 1) / SECOND;
    if seconds < 1 then 1 else seconds
  }

  /** Waiting the announced number of seconds always succeeds. */
  lemma {:induction false} WaitingSucceeds(cfg: Config, st: State, ip: string, user: string, t: int, user': string)
    requires cfg.Valid() && Inv(cfg, st, t) && cfg.entryTTL >= cfg.ipRefill
    requires !Allow(cfg, st, ip, user, t).1.allowed
    ensures var (next, d) := Allow(cfg, st, ip, user, t);
            Allow(cfg, next, ip, user', t + RetrySeconds(d.retryAfter) * SECOND).1.allowed
  {
    var (next, d) := Allow(cfg, st, ip, user, t);
    Denied(cfg, st, ip, user, t);
    RetryAfterIsExact(cfg, st, ip, user, t, user', t + RetrySeconds(d.retryAfter) * SECOND);
  }
}
