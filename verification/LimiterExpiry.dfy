/** How long the limiter remembers (internal/authlimit/limiter.go): what a cleanup leaves, and when failed logins are
forgotten. */
module LimiterExpiry {
  import opened Base
  import opened Limiter
  import opened LimiterRuns
  import opened LimiterTheorems
  import LimiterCleanup

  /** Every row was accessed at or after the cutoff. */
  ghost predicate AllSince<V>(t: Table<V>, cutoff: int) {
    forall k :: k in t.entries ==> t.entries[k].lastAccess >= cutoff
  }

  lemma {:induction false} TouchSince<V>(t: Table<V>, k: string, initial: V, now: int, capacity: int, cutoff: int)
    requires capacity > 0 && AllSince(t, cutoff) && cutoff <= now
    ensures AllSince(Touch(t, k, initial, now, capacity), cutoff)
    ensures Touch(t, k, initial, now, capacity).entries[k].lastAccess == now
    ensures Touch(t, k, initial, now, capacity).entries.Keys <= t.entries.Keys + {k}
    ensures |t.order| < capacity ==> t.entries.Keys <= Touch(t, k, initial, now, capacity).entries.Keys
  {
  }

  lemma {:induction false} PurgeSince<V>(t: Table<V>, cutoff: int)
    ensures AllSince(Purge(t, cutoff), cutoff)
    ensures forall k :: k in t.entries && t.entries[k].lastAccess >= cutoff ==> k in Purge(t, cutoff).entries
    ensures forall k :: k in Purge(t, cutoff).entries ==>
              k in t.entries && Purge(t, cutoff).entries[k] == t.entries[k]
    ensures |Purge(t, cutoff).order| <= |t.order|
  {
    KeepMembers(t.order, Purge(t, cutoff).entries.Keys);
  }

  /** A call that finds the cleanup due leaves only rows, of addresses and of accounts, that were accessed within
      their lifetime, keeps all of those that are not pushed out for lack of room, and is due again one interval
      later. */
  lemma {:induction false} DueCallExpires(cfg: Config, st: State, ip: string, user: string, now: int)
    requires cfg.Valid() && now >= st.nextCleanup
    ensures var next := Allow(cfg, st, ip, user, now).0;
            && next.nextCleanup == now + cfg.cleanupInterval
            && (forall k :: k in next.accounts.entries ==> next.accounts.entries[k].lastAccess >= now - cfg.entryTTL)
            && (forall k :: k in next.ips.entries ==> next.ips.entries[k].lastAccess >= now - cfg.entryTTL)
            && (|st.accounts.order| < cfg.maxAccounts ==>
                  forall k :: k in st.accounts.entries && st.accounts.entries[k].lastAccess >= now - cfg.entryTTL ==>
                    k in next.accounts.entries)
            && (|st.ips.order| < cfg.maxIPs ==>
                  forall k :: k in st.ips.entries && st.ips.entries[k].lastAccess >= now - cfg.entryTTL ==>
                    k in next.ips.entries)
  {
    var cutoff := now - cfg.entryTTL;
    var ips, accounts := Purge(st.ips, cutoff), Purge(st.accounts, cutoff);
    PurgeSince(st.ips, cutoff);
    PurgeSince(st.accounts, cutoff);
    var c := Cleanup(cfg, st, now);
    assert c == State(st.global, ips, accounts, now + cfg.cleanupInterval);
    hide Purge, Cleanup;
    AdmitTouches(cfg, c, ip, user, now, cutoff);
    hide Admit;
  }

  lemma {:induction false} AdmitTouches(cfg: Config, st: State, ip: string, user: string, now: int, cutoff: int)
    requires cfg.Valid() && AllSince(st.ips, cutoff) && AllSince(st.accounts, cutoff) && cutoff <= now
    ensures var next := Admit(cfg, st, ip, user, now).0;
            && next.nextCleanup == st.nextCleanup && AllSince(next.ips, cutoff) && AllSince(next.accounts, cutoff)
            && (|st.accounts.order| < cfg.maxAccounts ==> st.accounts.entries.Keys <= next.accounts.entries.Keys)
            && (|st.ips.order| < cfg.maxIPs ==> st.ips.entries.Keys <= next.ips.entries.Keys)
  {
    TouchSince(st.ips, Address(ip), Bucket(cfg.IpFull(), now), now, cfg.maxIPs, cutoff);
    TouchSince(st.accounts, Account(cfg, user), 0, now, cfg.maxAccounts, cutoff);
    hide Touch, Address, Account, Refill, FailureDelay;
  }

  /** A call that does not find it due expires nothing. */
  lemma {:induction false} EarlyCallKeeps(cfg: Config, st: State, ip: string, user: string, now: int)
    requires cfg.Valid() && now < st.nextCleanup
    ensures var next := Allow(cfg, st, ip, user, now).0;
            && next.nextCleanup == st.nextCleanup
            && (|st.accounts.order| < cfg.maxAccounts ==> st.accounts.entries.Keys <= next.accounts.entries.Keys)
            && (|st.ips.order| < cfg.maxIPs ==> st.ips.entries.Keys <= next.ips.entries.Keys)
  {
    hide Address, Account, Refill, FailureDelay;
  }

  // ---------- When failures are forgotten ----------

  /** The rows of accounts reach back at most one lifetime before the last cleanup. */
  ghost predicate ReachesBack(cfg: Config, st: State, clock: int) {
    && st.nextCleanup <= clock + cfg.cleanupInterval
    && AllSince(st.accounts, st.nextCleanup - cfg.cleanupInterval - cfg.entryTTL)
  }

  lemma {:induction false} SinceEarlier<V>(t: Table<V>, cutoff: int, earlier: int)
    requires AllSince(t, cutoff) && earlier <= cutoff
    ensures AllSince(t, earlier)
  {
  }

  lemma {:induction false} CleanupReaches(cfg: Config, st: State, now: int)
    requires cfg.Valid() && ReachesBack(cfg, st, now)
    ensures ReachesBack(cfg, Cleanup(cfg, st, now), now)
    ensures AllSince(Cleanup(cfg, st, now).accounts, now - cfg.cleanupInterval - cfg.entryTTL)
  {
    if now >= st.nextCleanup {
      PurgeSince(st.accounts, now - cfg.entryTTL);
    }
    hide Purge;
  }

  lemma {:induction false} StepReaches(cfg: Config, st: State, e: Event, clock: int)
    requires cfg.Valid() && ReachesBack(cfg, st, clock) && clock <= e.now
    ensures ReachesBack(cfg, Step(cfg, st, e, true).0, e.now)
  {
    var c := Cleanup(cfg, st, e.now);
    CleanupReaches(cfg, st, e.now);
    hide Cleanup, Account, Address, Refill, FailureDelay, Touch;
    match e.call
    case CallAllow(ip, user) =>
      TouchSince(c.accounts, Account(cfg, user), 0, e.now, cfg.maxAccounts,
                 c.nextCleanup - cfg.cleanupInterval - cfg.entryTTL);
    case CallFail(user) =>
      TouchSince(st.accounts, Account(cfg, user), 0, e.now, cfg.maxAccounts,
                 st.nextCleanup - cfg.cleanupInterval - cfg.entryTTL);
    case CallSuccess(user) =>
  }

  lemma {:induction false} ExecReaches(cfg: Config, st: State, run: seq<Event>, clock: int)
    requires cfg.Valid() && ReachesBack(cfg, st, clock) && Timed(run, clock)
    ensures ReachesBack(cfg, Exec(cfg, st, run, true), End(run, clock))
    decreases |run|
  {
    hide Step, ReachesBack;
    if run != [] {
      StepReaches(cfg, st, run[0], clock);
      ExecReaches(cfg, Step(cfg, st, run[0], true).0, run[1..], run[0].now);
    }
  }

  /** The call may touch the row of account k. */
  predicate Names(cfg: Config, e: Event, k: string) {
    !e.call.CallSuccess? && Account(cfg, e.call.user) == k
  }

  /** A row was last accessed by a call that names its account. */
  ghost predicate NamedAt(cfg: Config, run: seq<Event>, k: string, at: int) {
    exists i :: 0 <= i < |run| && Names(cfg, run[i], k) && run[i].now == at
  }

  lemma {:induction false} NamedLater(cfg: Config, run: seq<Event>, e: Event, k: string, at: int)
    requires NamedAt(cfg, run, k, at) || (Names(cfg, e, k) && e.now == at)
    ensures NamedAt(cfg, run + [e], k, at)
  {
    var more := run + [e];
    assert more[|run|] == e && forall i :: 0 <= i < |run| ==> more[i] == run[i];
  }

  /** One call leaves every row as it was accessed before, or by this call. */
  lemma {:induction false} StepAccesses(cfg: Config, st: State, e: Event, k: string)
    requires cfg.Valid() && k in Step(cfg, st, e, true).0.accounts.entries
    ensures var at := Step(cfg, st, e, true).0.accounts.entries[k].lastAccess;
            (Names(cfg, e, k) && at == e.now) || (k in st.accounts.entries && at == st.accounts.entries[k].lastAccess)
  {
    hide Account, Address, Refill, FailureDelay;
  }

  lemma {:induction false} RowsAreNamed(cfg: Config, start: int, run: seq<Event>, k: string)
    requires cfg.Valid()
    ensures var st := Exec(cfg, New(cfg, start), run, true);
            k in st.accounts.entries ==> NamedAt(cfg, run, k, st.accounts.entries[k].lastAccess)
    decreases |run|
  {
    hide Step, Exec, NamedAt;
    if run == [] {
      NothingYet(cfg, start);
    } else {
      var m := |run| - 1;
      assert run[..m] + [run[m]] == run;
      var before := Exec(cfg, New(cfg, start), run[..m], true);
      var st := Exec(cfg, New(cfg, start), run, true);
      LimiterCleanup.ExecSnoc(cfg, New(cfg, start), run[..m], run[m], true);
      RowsAreNamed(cfg, start, run[..m], k);
      if k in st.accounts.entries {
        StepAccesses(cfg, before, run[m], k);
        NamedLater(cfg, run[..m], run[m], k, st.accounts.entries[k].lastAccess);
      }
    }
  }

  lemma {:induction false} NothingYet(cfg: Config, start: int)
    requires cfg.Valid()
    ensures Exec(cfg, New(cfg, start), [], true) == New(cfg, start)
  {
  }

  /** Failures are forgotten: in every run, an admitted call that comes more than a lifetime and a cleanup interval
      after the last call naming its account carries no delay; if it finds the cleanup due, more than a lifetime is
      enough. */
  lemma {:induction false} FailuresExpire(cfg: Config, start: int, run: seq<Event>, ip: string, user: string, now: int)
    requires cfg.Valid() && Timed(run, start) && End(run, start) <= now
    requires var due := now >= Exec(cfg, New(cfg, start), run, true).nextCleanup;
             forall i :: 0 <= i < |run| && Names(cfg, run[i], Account(cfg, user)) ==>
               now - run[i].now > cfg.entryTTL + if due then 0 else cfg.cleanupInterval
    ensures var d := Allow(cfg, Exec(cfg, New(cfg, start), run, true), ip, user, now).1;
            d.allowed ==> d.delay == 0
  {
    var k := Account(cfg, user);
    var st := Exec(cfg, New(cfg, start), run, true);
    ExecReaches(cfg, New(cfg, start), run, start);
    RowsAreNamed(cfg, start, run, k);
    LeftSince(cfg, st, now);
    AccountDelay(cfg, Cleanup(cfg, st, now), ip, user, now);
    hide Exec, Admit, Account, ReachesBack, New;
    if k in Cleanup(cfg, st, now).accounts.entries {
      CleanupKeepsRow(cfg, st, now, k);
      hide Cleanup;
      assert false;
    }
  }

  lemma {:induction false} LeftSince(cfg: Config, st: State, now: int)
    requires cfg.Valid() && ReachesBack(cfg, st, now)
    ensures AllSince(Cleanup(cfg, st, now).accounts,
                     now - cfg.entryTTL - if now >= st.nextCleanup then 0 else cfg.cleanupInterval)
  {
    if now >= st.nextCleanup {
      PurgeSince(st.accounts, now - cfg.entryTTL);
    }
    hide Purge;
  }

  lemma {:induction false} CleanupKeepsRow(cfg: Config, st: State, now: int, k: string)
    requires k in Cleanup(cfg, st, now).accounts.entries
    ensures k in st.accounts.entries && Cleanup(cfg, st, now).accounts.entries[k] == st.accounts.entries[k]
  {
  }
}
