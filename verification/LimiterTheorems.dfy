/** The main results about the limiter (internal/authlimit/limiter.go): the cleanup cannot be observed,
admission rates are bounded, and a denial announces the exact instant of the next admission. */
module LimiterTheorems {
  import opened Base
  import opened Limiter
  import opened LimiterRuns

  // ---------- The cleanup is invisible ----------

  /** Whether a call was admitted, and how long to wait otherwise; the progressive delay of an account is
      not part of the verdict. */
  datatype Verdict = Verdict(allowed: bool, retryAfter: int)

  function Verdicts(cfg: Config, st: State, run: seq<Event>, cleans: bool): seq<Verdict>
    requires cfg.Valid()
    decreases |run|
  {
    if run == [] then []
    else
      var (next, d) := Step(cfg, st, run[0], cleans);
      (if d.Some? then [Verdict(d.value.allowed, d.value.retryAfter)] else []) +
      Verdicts(cfg, next, run[1..], cleans)
  }

  /** The cleaned table is a front part of the uncleaned one, with the same rows, and every further row
      of the uncleaned table has a bucket that refills completely by now. */
  ghost predicate FrontOf(cfg: Config, c: Table<Bucket>, u: Table<Bucket>, now: int) {
    && |c.order| <= |u.order|
    && c.order == u.order[..|c.order|]
    && (forall k :: k in c.entries ==> k in u.entries && c.entries[k] == u.entries[k])
    && (forall j :: |c.order| <= j < |u.order| && u.order[j] in u.entries ==>
          u.entries[u.order[j]].value.last + cfg.IpFull() <= now)
  }

  lemma {:induction false} PurgeKeepsFront(cfg: Config, c: Table<Bucket>, u: Table<Bucket>, cutoff: int, now: int)
    requires cfg.Valid() && IpInv(cfg, c, now) && IpInv(cfg, u, now) && FrontOf(cfg, c, u, now)
    requires cutoff + cfg.IpFull() <= now + 1
    ensures FrontOf(cfg, Purge(c, cutoff), u, now)
  {
    var n := PurgeCutsTail(cfg, c, cutoff, now);
    var r := Purge(c, cutoff);
    CutKeepsFront(cfg, c, u, r, cutoff, now);
  }

  lemma {:induction false} CutKeepsFront(cfg: Config, c: Table<Bucket>, u: Table<Bucket>, r: Table<Bucket>,
                                         cutoff: int, now: int)
    requires IpInv(cfg, c, now) && FrontOf(cfg, c, u, now) && cutoff + cfg.IpFull() <= now + 1
    requires |r.order| <= |c.order| && r.order == c.order[..|r.order|]
    requires forall k :: k in r.entries ==> k in c.entries && r.entries[k] == c.entries[k]
    requires forall j :: |r.order| <= j < |c.order| ==> c.entries[c.order[j]].lastAccess < cutoff
    ensures FrontOf(cfg, r, u, now)
  {
    assert r.order == u.order[..|r.order|];
    forall j | |r.order| <= j < |u.order| && u.order[j] in u.entries
      ensures u.entries[u.order[j]].value.last + cfg.IpFull() <= now
    {
      if j < |c.order| {
        assert c.order[j] == u.order[j];
        InOrder(c, j);
      }
    }
  }

  lemma {:induction false} InOrder(t: Table<Bucket>, j: nat)
    requires WellFormed(t) && j < |t.order|
    ensures t.order[j] in t.entries
  {
  }

  lemma {:induction false} FoundAgrees(cfg: Config, c: Table<Bucket>, u: Table<Bucket>, k: string, now: int)
    requires cfg.Valid() && IpInv(cfg, c, now) && IpInv(cfg, u, now) && FrontOf(cfg, c, u, now)
    ensures Found(cfg, c, k, now) == Found(cfg, u, k, now)
  {
    if k in u.entries && k !in c.entries {
      var j :| 0 <= j < |u.order| && u.order[j] == k;
      assert forall i :: 0 <= i < |c.order| ==> c.order[i] == u.order[i] && c.order[i] in c.entries;
    }
  }

  ghost predicate OccursFrom(order: seq<string>, start: int, k: string) {
    exists i :: 0 <= start <= i < |order| && order[i] == k
  }

  /** Moving or inserting one key keeps a front part a front part. */
  lemma {:induction false} RestKeepsFront(cfg: Config, c: Table<Bucket>, u: Table<Bucket>, m: nat, n: nat)
    requires cfg.Valid() && |c.order| <= |u.order| <= cfg.maxIPs && c.order == u.order[..|c.order|]
    requires (m < |c.order| ==> n == m) && (m >= |c.order| ==> n >= |c.order|)
    ensures var rc, ru := Rest(cfg, c, m), Rest(cfg, u, n);
            && |rc| <= |ru| && rc == ru[..|rc|]
            && forall j :: |rc| <= j < |ru| ==> OccursFrom(u.order, |c.order|, ru[j])
  {
    var rc, ru := Rest(cfg, c, m), Rest(cfg, u, n);
    assert forall i :: 0 <= i < |c.order| ==> c.order[i] == u.order[i];
    if n < |u.order| {
      assert forall j :: 0 <= j < |ru| ==> ru[j] == u.order[if j < n then j else j + 1];
    }
    forall j | |rc| <= j < |ru| ensures OccursFrom(u.order, |c.order|, ru[j]) {
      if n < |u.order| && j >= n {
        assert ru[j] == u.order[j + 1];
      } else {
        assert ru[j] == u.order[j];
      }
    }
  }

  lemma {:induction false} SameIndex(cfg: Config, c: Table<Bucket>, u: Table<Bucket>, k: string, m: nat, n: nat)
    requires WellFormed(c) && WellFormed(u) && |c.order| <= |u.order| && c.order == u.order[..|c.order|]
    requires (k in c.entries <==> m < |c.order|) && (k in c.entries ==> c.order[m] == k)
    requires (k in u.entries <==> n < |u.order|) && (k in u.entries ==> u.order[n] == k)
    ensures (m < |c.order| ==> n == m) && (m >= |c.order| ==> n >= |c.order|)
  {
    assert forall i :: 0 <= i < |c.order| ==> c.order[i] == u.order[i] && c.order[i] in c.entries;
  }

  lemma {:induction false} VisitKeepsFront(cfg: Config, c: Table<Bucket>, u: Table<Bucket>, k: string, now: int,
                                           b: Bucket)
    requires cfg.Valid() && IpInv(cfg, c, now) && IpInv(cfg, u, now) && FrontOf(cfg, c, u, now)
    ensures FrontOf(cfg, Visited(cfg, c, k, now, b), Visited(cfg, u, k, now, b), now)
  {
    var m := VisitedRows(cfg, c, k, now, b);
    var n := VisitedRows(cfg, u, k, now, b);
    SameIndex(cfg, c, u, k, m, n);
    RestKeepsFront(cfg, c, u, m, n);
    RowsKeepFront(cfg, c, u, Visited(cfg, c, k, now, b), Visited(cfg, u, k, now, b), k,
                  Rest(cfg, c, m), Rest(cfg, u, n), now);
  }

  lemma {:induction false} RowsKeepFront(cfg: Config, c: Table<Bucket>, u: Table<Bucket>, rc: Table<Bucket>,
                                         ru: Table<Bucket>, k: string, restC: seq<string>, restU: seq<string>,
                                         now: int)
    requires FrontOf(cfg, c, u, now) && WellFormed(u)
    requires WellFormed(rc) && rc.order == [k] + restC && k in rc.entries
    requires WellFormed(ru) && ru.order == [k] + restU && k in ru.entries && ru.entries[k] == rc.entries[k]
    requires forall x :: x in rc.entries && x != k ==> x in c.entries && rc.entries[x] == c.entries[x]
    requires forall x :: x in ru.entries && x != k ==> x in u.entries && ru.entries[x] == u.entries[x]
    requires |restC| <= |restU| && restC == restU[..|restC|]
    requires forall j :: |restC| <= j < |restU| ==> OccursFrom(u.order, |c.order|, restU[j])
    ensures FrontOf(cfg, rc, ru, now)
  {
    forall x | x in rc.entries ensures x in ru.entries && rc.entries[x] == ru.entries[x] {
      if x != k {
        assert x in rc.order && x in restC && x in restU && x in ru.order;
      }
    }
    forall j | |rc.order| <= j < |ru.order| && ru.order[j] in ru.entries
      ensures ru.entries[ru.order[j]].value.last + cfg.IpFull() <= now
    {
      assert ru.order[j] == restU[j - 1] && ru.order[j] != ru.order[0];
      var i :| |c.order| <= i < |u.order| && restU[j - 1] == u.order[i];
    }
  }

  ghost predicate Simulates(cfg: Config, c: State, u: State, now: int) {
    Inv(cfg, c, now) && Inv(cfg, u, now) && c.global == u.global && FrontOf(cfg, c.ips, u.ips, now)
  }

  lemma {:induction false} AdmitSimulates(cfg: Config, c: State, u: State, ip: string, user: string, now: int)
    requires cfg.Valid() && Simulates(cfg, c, u, now)
    ensures var (c', dc) := Admit(cfg, c, ip, user, now);
            var (u', du) := Admit(cfg, u, ip, user, now);
            && Simulates(cfg, c', u', now)
            && dc.allowed == du.allowed && dc.retryAfter == du.retryAfter
  {
    AdmitMeaning(cfg, c, ip, user, now);
    AdmitMeaning(cfg, u, ip, user, now);
    AdmitInv(cfg, c, ip, user, now);
    AdmitInv(cfg, u, ip, user, now);
    var k := Address(ip);
    FoundAgrees(cfg, c.ips, u.ips, k, now);
    var b := Found(cfg, c.ips, k, now);
    VisitKeepsFront(cfg, c.ips, u.ips, k, now, b);
    VisitKeepsFront(cfg, c.ips, u.ips, k, now, Spend(b, cfg.ipRefill));
  }

  lemma {:induction false} CleanupSimulates(cfg: Config, c: State, u: State, now: int)
    requires cfg.Valid() && Simulates(cfg, c, u, now) && cfg.entryTTL + 1 >= cfg.IpFull()
    ensures Simulates(cfg, Cleanup(cfg, c, now), u, now)
  {
    hide FrontOf, IpInv, Purge;
    CleanupInv(cfg, c, now);
    var r := Cleanup(cfg, c, now);
    if now >= c.nextCleanup {
      PurgeKeepsFront(cfg, c.ips, u.ips, now - cfg.entryTTL, now);
      assert r.ips == Purge(c.ips, now - cfg.entryTTL);
    }
    assert r.global == c.global && FrontOf(cfg, r.ips, u.ips, now);
    hide Cleanup;
  }

  lemma {:induction false} RunsAgree(cfg: Config, c: State, u: State, run: seq<Event>, now: int)
    requires cfg.Valid() && cfg.entryTTL + 1 >= cfg.IpFull()
    requires Simulates(cfg, c, u, now) && Timed(run, now)
    ensures Verdicts(cfg, c, run, true) == Verdicts(cfg, u, run, false)
    decreases |run|
  {
    if run != [] {
      var e := run[0];
      IpInvLater(cfg, c.ips, now, e.now);
      IpInvLater(cfg, u.ips, now, e.now);
      if e.call.CallAllow? {
        CleanupSimulates(cfg, c, u, e.now);
        AdmitSimulates(cfg, Cleanup(cfg, c, e.now), u, e.call.ip, e.call.user, e.now);
      }
      RunsAgree(cfg, Step(cfg, c, e, true).0, Step(cfg, u, e, false).0, run[1..], e.now);
    }
  }

  /** A limiter that cleans up and one that never does give the same verdicts on every call sequence,
      provided a row is kept until its bucket has refilled completely. */
  lemma {:induction false} CleanupInvisible(cfg: Config, run: seq<Event>, start: int)
    requires cfg.Valid() && cfg.entryTTL + 1 >= cfg.IpFull() && Timed(run, start)
    ensures Verdicts(cfg, New(cfg, start), run, true) == Verdicts(cfg, New(cfg, start), run, false)
  {
    NewInv(cfg, start);
    RunsAgree(cfg, New(cfg, start), New(cfg, start), run, start);
  }

  /** The limiter of the public status page. */
  function PublicConfig(lower: char -> char): Config {
    Config(60, SECOND / 10, 12, 5 * SECOND, 4096, 1, 30 * MINUTE, MINUTE, lower)
  }

  /** Both limiters in use outlive a full refill, so their cleanup is invisible. */
  lemma {:induction false} CleanupInvisibleInUse(cfg: Config, run: seq<Event>, start: int)
    requires (cfg == DefaultConfig(cfg.lower) || cfg == PublicConfig(cfg.lower)) && Timed(run, start)
    ensures Verdicts(cfg, New(cfg, start), run, true) == Verdicts(cfg, New(cfg, start), run, false)
  {
    CleanupInvisible(cfg, run, start);
  }

  /** Failed logins slow an account down but never deny anyone: verdicts do not depend on the accounts. */
  lemma {:induction false} AccountsNeverDeny(cfg: Config, st: State, accounts: Table<int>, run: seq<Event>)
    requires cfg.Valid()
    ensures Verdicts(cfg, st, run, true) == Verdicts(cfg, st.(accounts := accounts), run, true)
    decreases |run|
  {
    hide Admit, Fail, Success, Visited, Found, Refill, Purge, Address;
    if run != [] {
      var e := run[0];
      OnlyAccounts(cfg, st, e);
      OnlyAccounts(cfg, st.(accounts := accounts), e);
      var other := Step(cfg, st.(accounts := accounts), e, true).0;
      if e.call.CallAllow? {
        AdmitMeaning(cfg, Cleanup(cfg, st, e.now), e.call.ip, e.call.user, e.now);
        AdmitMeaning(cfg, Cleanup(cfg, st.(accounts := accounts), e.now), e.call.ip, e.call.user, e.now);
      }
      AccountsNeverDeny(cfg, Step(cfg, st, e, true).0, other.accounts, run[1..]);
    }
  }

  lemma {:induction false} OnlyAccounts(cfg: Config, st: State, e: Event)
    requires cfg.Valid()
    ensures !e.call.CallAllow? ==>
              Step(cfg, st, e, true).0 == st.(accounts := Step(cfg, st, e, true).0.accounts)
  {
    hide Touch;
  }

  // ---------- Delays ----------

  /** The failed logins of account k since its last success, on top of n earlier ones. */
  function Failures(cfg: Config, n: nat, run: seq<Event>, k: string): nat
    decreases |run|
  {
    if run == [] then n
    else
      var e := run[0];
      var now := if e.call.CallFail? && Account(cfg, e.call.user) == k then n + 1
                 else if e.call.CallSuccess? && Account(cfg, e.call.user) == k then 0
                 else n;
      Failures(cfg, now, run[1..], k)
  }

  /** The row of account k expires or is pushed out, rather than removed by a success. */
  ghost predicate Forgets(cfg: Config, st: State, e: Event, k: string)
    requires cfg.Valid()
  {
    && k in st.accounts.entries
    && !(e.call.CallSuccess? && Account(cfg, e.call.user) == k)
    && (k !in Step(cfg, st, e, true).0.accounts.entries ||
        (e.call.CallAllow? && k !in Cleanup(cfg, st, e.now).accounts.entries))
  }

  ghost predicate NeverForgets(cfg: Config, st: State, run: seq<Event>, k: string)
    requires cfg.Valid()
    decreases |run|
  {
    run == [] || (!Forgets(cfg, st, run[0], k) && NeverForgets(cfg, Step(cfg, st, run[0], true).0, run[1..], k))
  }

  /** The row of k, or its absence, stands for n failures. */
  ghost predicate Counts(accounts: Table<int>, k: string, n: nat) {
    if k in accounts.entries then accounts.entries[k].value == Min(n, 1000) else n == 0
  }

  lemma {:induction false} TouchCounts(t: Table<int>, j: string, now: int, capacity: int, k: string, n: nat)
    requires capacity > 0 && Counts(t, k, n)
    ensures var r := Touch(t, j, 0, now, capacity);
            && (k !in t.entries || k in r.entries ==> Counts(r, k, n))
            && (j == k ==> Counts(r, k, n))
  {
  }

  lemma {:induction false} StepCounts(cfg: Config, st: State, e: Event, k: string, n: nat)
    requires cfg.Valid() && Counts(st.accounts, k, n) && !Forgets(cfg, st, e, k)
    ensures Counts(Step(cfg, st, e, true).0.accounts, k, Failures(cfg, n, [e], k))
  {
    assert [e][1..] == [];
    var c := Cleanup(cfg, st, e.now);
    match e.call
    case CallAllow(ip, user) =>
      assert Counts(c.accounts, k, n);
      TouchCounts(c.accounts, Account(cfg, user), e.now, cfg.maxAccounts, k, n);
      hide Touch, Account, Cleanup, Refill, FailureDelay;
    case CallFail(user) =>
      TouchCounts(st.accounts, Account(cfg, user), e.now, cfg.maxAccounts, k, n);
      hide Touch, Account, Cleanup;
    case CallSuccess(user) =>
      hide Account, Cleanup;
  }

  lemma {:induction false} RunCounts(cfg: Config, st: State, run: seq<Event>, k: string, n: nat)
    requires cfg.Valid() && Counts(st.accounts, k, n) && NeverForgets(cfg, st, run, k)
    ensures Counts(Exec(cfg, st, run, true).accounts, k, Failures(cfg, n, run, k))
    decreases |run|
  {
    hide Step, Forgets, Counts;
    if run != [] {
      StepCounts(cfg, st, run[0], k, n);
      assert [run[0]][1..] == [];
      RunCounts(cfg, Step(cfg, st, run[0], true).0, run[1..], k, Failures(cfg, n, [run[0]], k));
    }
  }

  /** In every run in which the row of an account neither expires nor is pushed out, whatever else is called in
      between, an admitted call is delayed by the delay of as many failures as there were since the last success. */
  lemma {:induction false} DelayFollowsFailures(cfg: Config, start: int, run: seq<Event>, ip: string, user: string,
                                                now: int)
    requires cfg.Valid()
    requires var e := Event(now, CallAllow(ip, user)); NeverForgets(cfg, New(cfg, start), run + [e], Account(cfg, user))
    ensures var d := Allow(cfg, Exec(cfg, New(cfg, start), run, true), ip, user, now).1;
            d.allowed ==> d.delay == FailureDelay(Failures(cfg, 0, run, Account(cfg, user)))
  {
    var k := Account(cfg, user);
    var e := Event(now, CallAllow(ip, user));
    var st := Exec(cfg, New(cfg, start), run, true);
    NeverForgetsSplit(cfg, New(cfg, start), run, e, k);
    RunCounts(cfg, New(cfg, start), run, k, 0);
    AccountDelay(cfg, Cleanup(cfg, st, now), ip, user, now);
    CleanupCounts(cfg, st, e, k, Failures(cfg, 0, run, k));
    hide Admit, Exec, Cleanup, Account;
  }

  lemma {:induction false} NeverForgetsSplit(cfg: Config, st: State, run: seq<Event>, e: Event, k: string)
    requires cfg.Valid() && NeverForgets(cfg, st, run + [e], k)
    ensures NeverForgets(cfg, st, run, k) && !Forgets(cfg, Exec(cfg, st, run, true), e, k)
    decreases |run|
  {
    hide Step, Forgets;
    if run == [] {
      assert run + [e] == [e];
    } else {
      assert (run + [e])[1..] == run[1..] + [e] && (run + [e])[0] == run[0];
      NeverForgetsSplit(cfg, Step(cfg, st, run[0], true).0, run[1..], e, k);
    }
  }

  lemma {:induction false} CleanupCounts(cfg: Config, st: State, e: Event, k: string, n: nat)
    requires cfg.Valid() && Counts(st.accounts, k, n) && e.call.CallAllow? && !Forgets(cfg, st, e, k)
    ensures Counts(Cleanup(cfg, st, e.now).accounts, k, n)
  {
    hide Step, Account;
  }

  lemma {:induction false} AccountDelay(cfg: Config, st: State, ip: string, user: string, now: int)
    requires cfg.Valid()
    ensures var d := Admit(cfg, st, ip, user, now).1;
            var k := Account(cfg, user);
            d.allowed ==>
              d.delay == FailureDelay(if k in st.accounts.entries then st.accounts.entries[k].value else 0)
  {
  }

  /** The delay starts at the fifth failure and doubles from a quarter of a second up to two seconds. */
  lemma {:induction false} DelayDoubles(failures: int)
    ensures failures < 5 ==> FailureDelay(failures) == 0
    ensures FailureDelay(5) == SECOND / 4
    ensures failures >= 5 ==> FailureDelay(failures + 1) == Min(2 * FailureDelay(failures), 2 * SECOND)
  {
  }

  // ---------- Admission rates ----------

  /** What a bucket would hold now if nobody called. */
  function Available(b: Bucket, full: int, now: int): int {
    Min(b.credit + (now - b.last), full)
  }

  function AvailableTo(cfg: Config, t: Table<Bucket>, k: string, now: int): int {
    if k in t.entries then Available(t.entries[k].value, cfg.IpFull(), now) else cfg.IpFull()
  }

  function Admitted(cfg: Config, st: State, run: seq<Event>): nat
    requires cfg.Valid()
    decreases |run|
  {
    if run == [] then 0
    else
      var (next, d) := Step(cfg, st, run[0], true);
      (if d.Some? && d.value.allowed then 1 else 0) + Admitted(cfg, next, run[1..])
  }

  predicate IsFrom(e: Event, k: string) {
    e.call.CallAllow? && Address(e.call.ip) == k
  }

  function AdmittedFrom(cfg: Config, st: State, run: seq<Event>, k: string): nat
    requires cfg.Valid()
    decreases |run|
  {
    if run == [] then 0
    else
      var (next, d) := Step(cfg, st, run[0], true);
      (if IsFrom(run[0], k) && d.Some? && d.value.allowed then 1 else 0) + AdmittedFrom(cfg, next, run[1..], k)
  }

  /** The other addresses that call along a run. */
  function Others(run: seq<Event>, k: string): set<string> {
    if run == [] then {}
    else
      (if run[0].call.CallAllow? && Address(run[0].call.ip) != k then {Address(run[0].call.ip)} else {}) +
      Others(run[1..], k)
  }

  /** One event: what is admitted comes out of what was available. */
  lemma {:induction false} GlobalStep(cfg: Config, st: State, e: Event, now: int)
    requires cfg.Valid() && Inv(cfg, st, now) && now <= e.now
    ensures var (next, d) := Step(cfg, st, e, true);
            && Inv(cfg, next, e.now)
            && Available(next.global, cfg.GlobalFull(), e.now) +
               (if d.Some? && d.value.allowed then cfg.globalRefill else 0)
               <= Available(st.global, cfg.GlobalFull(), now) + (e.now - now)
  {
    StepInv(cfg, st, e, true, now);
    if e.call.CallAllow? {
      AdmitMeaning(cfg, Cleanup(cfg, st, e.now), e.call.ip, e.call.user, e.now);
      hide Admit, IpInv, Visited, Found, Purge;
    }
  }

  lemma {:induction false} OneMore(n: int, cost: int)
    ensures (n + 1) * cost == n * cost + cost
  {
  }

  lemma {:induction false} GlobalPotential(cfg: Config, st: State, run: seq<Event>, now: int)
    requires cfg.Valid() && Inv(cfg, st, now) && Timed(run, now)
    ensures Admitted(cfg, st, run) * cfg.globalRefill <=
            Available(st.global, cfg.GlobalFull(), now) + (End(run, now) - now)
    decreases |run|
  {
    if run == [] {
      assert Available(st.global, cfg.GlobalFull(), now) >= 0;
    } else {
      hide Step, Inv, Available, IpInv, BucketInv;
      var e := run[0];
      GlobalStep(cfg, st, e, now);
      var (next, d) := Step(cfg, st, e, true);
      GlobalPotential(cfg, next, run[1..], e.now);
      OneMore(Admitted(cfg, next, run[1..]), cfg.globalRefill);
    }
  }

  /** In every window [s, t] of every run at most GlobalBurst + (t - s) / GlobalRefill calls are admitted. */
  lemma {:induction false} GlobalRate(cfg: Config, start: int, before: seq<Event>, window: seq<Event>, s: int, t: int)
    requires cfg.Valid() && Timed(before + window, start)
    requires window != [] ==> s <= window[0].now && window[|window| - 1].now <= t
    requires s <= t
    ensures Admitted(cfg, Exec(cfg, New(cfg, start), before, true), window) * cfg.globalRefill <=
            cfg.globalBurst * cfg.globalRefill + (t - s)
  {
    hide Admitted, Exec, Inv;
    TimedSplits(before, window, start);
    NewInv(cfg, start);
    ExecInv(cfg, New(cfg, start), before, true, start);
    GlobalWindow(cfg, Exec(cfg, New(cfg, start), before, true), window, End(before, start), s, t);
  }

  lemma {:induction false} GlobalWindow(cfg: Config, st: State, window: seq<Event>, now: int, s: int, t: int)
    requires cfg.Valid() && Inv(cfg, st, now) && Timed(window, now)
    requires window != [] ==> s <= window[0].now && window[|window| - 1].now <= t
    requires s <= t
    ensures Admitted(cfg, st, window) * cfg.globalRefill <= cfg.globalBurst * cfg.globalRefill + (t - s)
  {
    Full(cfg);
    if window != [] {
      IpInvLater(cfg, st.ips, now, window[0].now);
      GlobalPotential(cfg, st, window, window[0].now);
      EndIsLast(window, window[0].now);
    }
  }
}
