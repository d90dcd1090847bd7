/** When the cleanup of the limiter can be noticed (internal/authlimit/limiter.go). */
module LimiterCleanup {
  import opened Base
  import opened Limiter
  import opened LimiterRuns
  import opened LimiterTheorems

  /** n calls of one client at one instant. */
  function Burst(ip: string, user: string, t: int, n: nat): seq<Event> {
    if n == 0 then [] else Burst(ip, user, t, n - 1) + [Event(t, CallAllow(ip, user))]
  }

  /** The table a call at t looks at. */
  function Seen(cfg: Config, st: State, t: int, cleans: bool): State {
    if cleans then Cleanup(cfg, st, t) else st
  }

  /** The credit a call from ip finds at t in its own bucket. */
  function Own(cfg: Config, st: State, ip: string, t: int, cleans: bool): int
    requires cfg.Valid()
  {
    Found(cfg, Seen(cfg, st, t, cleans).ips, Address(ip), t).credit
  }

  /** The credit a call finds at t in the global bucket. */
  function Shared(cfg: Config, st: State, t: int): int {
    Refill(st.global, cfg.GlobalFull(), t).credit
  }

  lemma {:induction false} ExecSnoc(cfg: Config, st: State, run: seq<Event>, e: Event, cleans: bool)
    requires cfg.Valid()
    ensures Exec(cfg, st, run + [e], cleans) == Step(cfg, Exec(cfg, st, run, cleans), e, cleans).0
    ensures e.call.CallAllow? ==>
              var d := Step(cfg, Exec(cfg, st, run, cleans), e, cleans).1;
              d.Some? &&
              Verdicts(cfg, st, run + [e], cleans) ==
              Verdicts(cfg, st, run, cleans) + [Verdict(d.value.allowed, d.value.retryAfter)]
    decreases |run|
  {
    hide Admit, Cleanup, Fail, Success;
    if run == [] {
      assert run + [e] == [e] && [e][1..] == [];
    } else {
      assert (run + [e])[1..] == run[1..] + [e];
      ExecSnoc(cfg, Step(cfg, st, run[0], cleans).0, run[1..], e, cleans);
    }
  }

  lemma {:induction false} ExecAppend(cfg: Config, st: State, a: seq<Event>, b: seq<Event>, cleans: bool)
    requires cfg.Valid()
    ensures Exec(cfg, st, a + b, cleans) == Exec(cfg, Exec(cfg, st, a, cleans), b, cleans)
    decreases |a|
  {
    hide Step;
    if a == [] {
      assert a + b == b;
    } else {
      assert (a + b)[1..] == a[1..] + b;
      ExecAppend(cfg, Step(cfg, st, a[0], cleans).0, a[1..], b, cleans);
    }
  }

  /** One call: it is admitted if both buckets hold a token, and then costs one of each. */
  lemma {:induction false} OneCall(cfg: Config, st: State, ip: string, user: string, t: int, cleans: bool)
    requires cfg.Valid()
    ensures var (next, d) := Step(cfg, st, Event(t, CallAllow(ip, user)), cleans);
            var own, shared := Own(cfg, st, ip, t, cleans), Shared(cfg, st, t);
            && d.Some? && (d.value.allowed <==> own >= cfg.ipRefill && shared >= cfg.globalRefill)
            && Address(ip) in next.ips.entries
            && next.ips.entries[Address(ip)] ==
               Entry(Bucket(if d.value.allowed then own - cfg.ipRefill else own, t), t)
            && next.global == Bucket(if d.value.allowed then shared - cfg.globalRefill else shared, t)
            && next.nextCleanup == (if cleans && t >= st.nextCleanup then t + cfg.cleanupInterval else st.nextCleanup)
  {
    var seen := Seen(cfg, st, t, cleans);
    AdmitMeaning(cfg, seen, ip, user, t);
    VisitedRow(cfg, seen.ips, Address(ip), t, Bucket(0, 0));
    assert forall b :: Visited(cfg, seen.ips, Address(ip), t, b).entries[Address(ip)] == Entry(b, t) by {
      forall b ensures Visited(cfg, seen.ips, Address(ip), t, b).entries[Address(ip)] == Entry(b, t) {
        VisitedRow(cfg, seen.ips, Address(ip), t, b);
      }
    }
    assert Found(cfg, seen.ips, Address(ip), t).last == t;
    hide Admit, Visited, Found, Purge, Address;
  }

  lemma {:induction false} VisitedRow(cfg: Config, t: Table<Bucket>, k: string, now: int, b: Bucket)
    requires cfg.Valid()
    ensures var r := Visited(cfg, t, k, now, b);
            k in r.entries && r.entries[k] == Entry(b, now)
  {
  }

  /** What n calls cost. */
  function Tokens(n: int, cost: int): int {
    n * cost
  }

  lemma {:induction false} OneMoreToken(n: int, cost: int)
    requires cost > 0
    ensures Tokens(n + 1, cost) == Tokens(n, cost) + cost && Tokens(0, cost) == 0 && Tokens(1, cost) == cost
    ensures n >= 0 ==> Tokens(n, cost) >= 0
    ensures n >= 1 ==> Tokens(n, cost) >= cost
  {
  }

  lemma {:induction false} FullBuckets(cfg: Config)
    ensures cfg.IpFull() == Tokens(cfg.ipBurst, cfg.ipRefill)
    ensures cfg.GlobalFull() == Tokens(cfg.globalBurst, cfg.globalRefill)
  {
  }

  /** A state right after calls at t: a further call at t finds what the rows hold. */
  ghost predicate At(cfg: Config, st: State, ip: string, t: int, own: int, shared: int) {
    && Address(ip) in st.ips.entries && st.ips.entries[Address(ip)] == Entry(Bucket(own, t), t)
    && st.global == Bucket(shared, t)
    && 0 <= own <= cfg.IpFull() && 0 <= shared <= cfg.GlobalFull()
  }

  lemma {:induction false} AtFinds(cfg: Config, st: State, ip: string, t: int, own: int, shared: int, cleans: bool)
    requires cfg.Valid() && At(cfg, st, ip, t, own, shared) && (cleans ==> t < st.nextCleanup)
    ensures Own(cfg, st, ip, t, cleans) == own && Shared(cfg, st, t) == shared
  {
    hide Address;
  }

  /** n calls at one instant, all admitted. */
  lemma {:induction false} AllAdmitted(cfg: Config, st: State, ip: string, user: string, t: int, n: nat, cleans: bool)
    requires cfg.Valid() && n > 0
    requires Tokens(n, cfg.ipRefill) <= Own(cfg, st, ip, t, cleans) <= cfg.IpFull()
    requires Tokens(n, cfg.globalRefill) <= Shared(cfg, st, t) <= cfg.GlobalFull()
    ensures var r := Exec(cfg, st, Burst(ip, user, t, n), cleans);
            && At(cfg, r, ip, t, Own(cfg, st, ip, t, cleans) - Tokens(n, cfg.ipRefill),
                  Shared(cfg, st, t) - Tokens(n, cfg.globalRefill))
            && r.nextCleanup == (if cleans && t >= st.nextCleanup then t + cfg.cleanupInterval else st.nextCleanup)
    ensures var before := Exec(cfg, st, Burst(ip, user, t, n - 1), cleans);
            var d := Step(cfg, before, Event(t, CallAllow(ip, user)), cleans).1;
            d.Some? && d.value.allowed
  {
    hide Exec, Step, Own, Shared, Tokens, At, Verdicts;
    var before := Exec(cfg, st, Burst(ip, user, t, n - 1), cleans);
    ExecSnoc(cfg, st, Burst(ip, user, t, n - 1), Event(t, CallAllow(ip, user)), cleans);
    NoCalls(cfg, st, ip, user, t, cleans);
    OneMoreToken(n - 1, cfg.ipRefill);
    OneMoreToken(n - 1, cfg.globalRefill);
    if n > 1 {
      AllAdmitted(cfg, st, ip, user, t, n - 1, cleans);
      AtFinds(cfg, before, ip, t, Own(cfg, st, ip, t, cleans) - Tokens(n - 1, cfg.ipRefill),
              Shared(cfg, st, t) - Tokens(n - 1, cfg.globalRefill), cleans);
    }
    CallAdmitted(cfg, before, ip, user, t, cleans);
  }

  lemma {:induction false} CallAdmitted(cfg: Config, st: State, ip: string, user: string, t: int, cleans: bool)
    requires cfg.Valid()
    requires cfg.ipRefill <= Own(cfg, st, ip, t, cleans) <= cfg.IpFull()
    requires cfg.globalRefill <= Shared(cfg, st, t) <= cfg.GlobalFull()
    ensures var (next, d) := Step(cfg, st, Event(t, CallAllow(ip, user)), cleans);
            && d.Some? && d.value.allowed
            && At(cfg, next, ip, t, Own(cfg, st, ip, t, cleans) - cfg.ipRefill, Shared(cfg, st, t) - cfg.globalRefill)
            && next.nextCleanup == (if cleans && t >= st.nextCleanup then t + cfg.cleanupInterval else st.nextCleanup)
  {
    OneCall(cfg, st, ip, user, t, cleans);
    hide Step, Own, Shared, Address;
  }

  lemma {:induction false} IsAt(cfg: Config, st: State, ip: string, t: int, own: int, shared: int)
    requires Address(ip) in st.ips.entries && st.ips.entries[Address(ip)] == Entry(Bucket(own, t), t)
    requires st.global == Bucket(shared, t) && 0 <= own <= cfg.IpFull() && 0 <= shared <= cfg.GlobalFull()
    ensures At(cfg, st, ip, t, own, shared)
  {
  }

  /** A bucket that is not full stays behind: m calls leave less than a full bucket would hold. */
  lemma {:induction false} StaysBehind(cfg: Config, st: State, ip: string, user: string, t: int, m: nat)
    requires cfg.Valid() && m < cfg.ipBurst
    requires 0 <= Own(cfg, st, ip, t, false) < cfg.IpFull()
    requires Tokens(cfg.ipBurst, cfg.globalRefill) <= Shared(cfg, st, t) <= cfg.GlobalFull()
    ensures var r := Exec(cfg, st, Burst(ip, user, t, m), false);
            && 0 <= Own(cfg, r, ip, t, false) < Tokens(cfg.ipBurst - m, cfg.ipRefill)
            && Own(cfg, r, ip, t, false) <= cfg.IpFull()
            && Tokens(cfg.ipBurst - m, cfg.globalRefill) <= Shared(cfg, r, t) <= cfg.GlobalFull()
  {
    FullBuckets(cfg);
    hide Exec, Step, Own, Shared, Tokens, At;
    if m == 0 {
      assert Exec(cfg, st, Burst(ip, user, t, 0), false) == st by {
        NoCalls(cfg, st, ip, user, t, false);
      }
    } else {
      var before := Exec(cfg, st, Burst(ip, user, t, m - 1), false);
      StaysBehind(cfg, st, ip, user, t, m - 1);
      ExecSnoc(cfg, st, Burst(ip, user, t, m - 1), Event(t, CallAllow(ip, user)), false);
      OneCall(cfg, before, ip, user, t, false);
      OneMoreToken(cfg.ipBurst - m, cfg.ipRefill);
      OneMoreToken(cfg.ipBurst - m, cfg.globalRefill);
      var r := Exec(cfg, st, Burst(ip, user, t, m), false);
      var own, shared := r.ips.entries[Address(ip)].value.credit, r.global.credit;
      IsAt(cfg, r, ip, t, own, shared);
      AtFinds(cfg, r, ip, t, own, shared, false);
    }
  }

  lemma {:induction false} NoCalls(cfg: Config, st: State, ip: string, user: string, t: int, cleans: bool)
    requires cfg.Valid()
    ensures Exec(cfg, st, Burst(ip, user, t, 0), cleans) == st
  {
  }

  /** The whole burst twice, the second time when the row has just become stale but its bucket has not refilled. */
  function TwoBursts(cfg: Config, ip: string, user: string, start: int): seq<Event>
    requires cfg.Valid()
  {
    var t := start + cfg.cleanupInterval - 1;
    Burst(ip, user, t, cfg.ipBurst) + Burst(ip, user, t + cfg.entryTTL + 1, cfg.ipBurst)
  }

  lemma {:induction false} TwiceFits(cfg: Config)
    requires cfg.Valid() && cfg.globalBurst >= 2 * cfg.ipBurst
    ensures 0 <= Tokens(cfg.ipBurst, cfg.globalRefill) <=
            cfg.GlobalFull() - Tokens(cfg.ipBurst, cfg.globalRefill) <= cfg.GlobalFull()
    ensures 0 <= Tokens(cfg.ipBurst, cfg.ipRefill) == cfg.IpFull()
  {
    assert (cfg.globalBurst - 2 * cfg.ipBurst) * cfg.globalRefill >= 0;
    assert cfg.ipBurst * cfg.globalRefill >= 0;
    assert cfg.ipBurst * cfg.ipRefill >= 0;
  }

  lemma {:induction false} NewFinds(cfg: Config, ip: string, t: int, start: int, cleans: bool)
    requires cfg.Valid() && start <= t
    ensures Own(cfg, New(cfg, start), ip, t, cleans) == cfg.IpFull()
    ensures Shared(cfg, New(cfg, start), t) == cfg.GlobalFull()
  {
    Full(cfg);
    hide Address;
  }

  /** After the first burst the bucket is empty and half of the global bucket is left. */
  lemma {:induction false} FirstBurst(cfg: Config, ip: string, user: string, start: int, cleans: bool)
    requires cfg.Valid() && cfg.globalBurst >= 2 * cfg.ipBurst
    ensures var t := start + cfg.cleanupInterval - 1;
            var r := Exec(cfg, New(cfg, start), Burst(ip, user, t, cfg.ipBurst), cleans);
            && At(cfg, r, ip, t, 0, cfg.GlobalFull() - Tokens(cfg.ipBurst, cfg.globalRefill))
            && r.nextCleanup == start + cfg.cleanupInterval
  {
    hide Tokens, Own, Shared, At, Exec, Step, Burst;
    TwiceFits(cfg);
    var t := start + cfg.cleanupInterval - 1;
    NewFinds(cfg, ip, t, start, cleans);
    AllAdmitted(cfg, New(cfg, start), ip, user, t, cfg.ipBurst, cleans);
  }

  /** What the second burst finds: a full bucket if the row was cleaned up, and too little otherwise. */
  lemma {:induction false} SecondBurst(cfg: Config, r: State, ip: string, t: int, shared: int)
    requires cfg.Valid() && cfg.entryTTL + 1 < cfg.IpFull()
    requires At(cfg, r, ip, t, 0, shared) && r.nextCleanup == t + 1
    ensures var later := t + cfg.entryTTL + 1;
            && Own(cfg, r, ip, later, true) == cfg.IpFull()
            && Own(cfg, r, ip, later, false) == cfg.entryTTL + 1
            && shared <= Shared(cfg, r, later) <= cfg.GlobalFull()
  {
    var cleaned := Cleanup(cfg, r, t + cfg.entryTTL + 1);
    hide Address, Keep;
    assert Address(ip) !in cleaned.ips.entries;
  }

  /** Too short a lifetime shows: the last call of the second burst is admitted with the cleanup and denied
      without. */
  lemma {:induction false} CleanupVisible(cfg: Config, ip: string, user: string, start: int)
    requires cfg.Valid() && cfg.entryTTL + 1 < cfg.IpFull() && cfg.globalBurst >= 2 * cfg.ipBurst
    ensures Verdicts(cfg, New(cfg, start), TwoBursts(cfg, ip, user, start), true) !=
            Verdicts(cfg, New(cfg, start), TwoBursts(cfg, ip, user, start), false)
  {
    LastVerdict(cfg, ip, user, start, true);
    LastVerdict(cfg, ip, user, start, false);
  }

  lemma {:induction false} LastVerdict(cfg: Config, ip: string, user: string, start: int, cleans: bool)
    requires cfg.Valid() && cfg.entryTTL + 1 < cfg.IpFull() && cfg.globalBurst >= 2 * cfg.ipBurst
    ensures var verdicts := Verdicts(cfg, New(cfg, start), TwoBursts(cfg, ip, user, start), cleans);
            verdicts != [] && verdicts[|verdicts| - 1].allowed == cleans
  {
    var t := start + cfg.cleanupInterval - 1;
    var later := t + cfg.entryTTL + 1;
    var first, rest := Burst(ip, user, t, cfg.ipBurst), Burst(ip, user, later, cfg.ipBurst - 1);
    var e := Event(later, CallAllow(ip, user));
    var r := Exec(cfg, New(cfg, start), first, cleans);
    assert TwoBursts(cfg, ip, user, start) == first + rest + [e];
    TwiceFits(cfg);
    hide Exec, Own, Shared, At, Verdicts, TwoBursts, Tokens, Step, Burst;
    FirstBurst(cfg, ip, user, start, cleans);
    SecondBurst(cfg, r, ip, t, cfg.GlobalFull() - Tokens(cfg.ipBurst, cfg.globalRefill));
    ExecAppend(cfg, New(cfg, start), first, rest, cleans);
    ExecSnoc(cfg, New(cfg, start), first + rest, e, cleans);
    LastOfBurst(cfg, r, ip, user, later, cleans);
  }

  /** A burst from a bucket that is full, or is not. */
  lemma {:induction false} LastOfBurst(cfg: Config, r: State, ip: string, user: string, t: int, full: bool)
    requires cfg.Valid()
    requires full <==> Own(cfg, r, ip, t, full) == cfg.IpFull()
    requires 0 <= Own(cfg, r, ip, t, full) <= cfg.IpFull()
    requires Tokens(cfg.ipBurst, cfg.globalRefill) <= Shared(cfg, r, t) <= cfg.GlobalFull()
    ensures var d := Step(cfg, Exec(cfg, r, Burst(ip, user, t, cfg.ipBurst - 1), full),
                          Event(t, CallAllow(ip, user)), full).1;
            d.Some? && d.value.allowed == full
  {
    FullBuckets(cfg);
    OneMoreToken(0, cfg.ipRefill);
    hide Exec, Own, Shared, At, Tokens, Step;
    if full {
      AllAdmitted(cfg, r, ip, user, t, cfg.ipBurst, true);
    } else {
      StaysBehind(cfg, r, ip, user, t, cfg.ipBurst - 1);
      OneCall(cfg, Exec(cfg, r, Burst(ip, user, t, cfg.ipBurst - 1), false), ip, user, t, false);
    }
  }

  lemma {:induction false} BurstIsTimed(ip: string, user: string, t: int, n: nat, start: int)
    requires start <= t
    ensures Timed(Burst(ip, user, t, n), start) && start <= End(Burst(ip, user, t, n), start) <= t
  {
    if n > 0 {
      BurstIsTimed(ip, user, t, n - 1, start);
      TimedSplits(Burst(ip, user, t, n - 1), [Event(t, CallAllow(ip, user))], start);
    }
  }

  /** Every run gets the same verdicts with and without the cleanup. */
  ghost predicate Invisible(cfg: Config)
    requires cfg.Valid()
  {
    forall run: seq<Event>, start: int :: Timed(run, start) ==>
      Verdicts(cfg, New(cfg, start), run, true) == Verdicts(cfg, New(cfg, start), run, false)
  }

  // ---------- When the global bucket alone decides ----------

  /** The global bucket refills no faster than one of an address and holds fewer tokens. */
  predicate GlobalIsTighter(cfg: Config) {
    cfg.ipRefill <= cfg.globalRefill && cfg.globalBurst < cfg.ipBurst
  }

  /** In tokens, an address lacks no more than the global bucket does. */
  predicate LacksLess(cfg: Config, g: Bucket, b: Bucket) {
    (cfg.IpFull() - b.credit - (g.last - b.last)) * cfg.globalRefill <= (cfg.GlobalFull() - g.credit) * cfg.ipRefill
  }

  ghost predicate AllLackLess(cfg: Config, st: State) {
    && 0 <= st.global.credit <= cfg.GlobalFull()
    && forall k :: k in st.ips.entries ==>
         st.ips.entries[k].value.last <= st.global.last && LacksLess(cfg, st.global, st.ips.entries[k].value)
  }

  lemma {:induction false} TimesMonotone(a: int, b: int, x: int)
    requires a <= b && 0 <= x
    ensures a * x <= b * x
  {
  }

  /** Time gives the address at least as many tokens. */
  lemma {:induction false} LaterLacksLess(cfg: Config, g: Bucket, b: Bucket, now: int)
    requires cfg.Valid() && cfg.ipRefill <= cfg.globalRefill && g.last <= now && g.credit <= cfg.GlobalFull()
    requires LacksLess(cfg, g, b)
    ensures LacksLess(cfg, Refill(g, cfg.GlobalFull(), now), b)
  {
    var d, lacks, missing := now - g.last, cfg.IpFull() - b.credit - (g.last - b.last), cfg.GlobalFull() - g.credit;
    TimesMonotone(cfg.ipRefill, cfg.globalRefill, d);
    assert (lacks - d) * cfg.globalRefill == lacks * cfg.globalRefill - d * cfg.globalRefill;
    assert (missing - d) * cfg.ipRefill == missing * cfg.ipRefill - d * cfg.ipRefill;
    if missing < d {
      TimesMonotone(missing, d, cfg.ipRefill);
    }
  }

  lemma {:induction false} RefillLacksLess(cfg: Config, g: Bucket, b: Bucket)
    requires cfg.Valid() && b.last <= g.last && g.credit <= cfg.GlobalFull() && LacksLess(cfg, g, b)
    ensures LacksLess(cfg, g, Refill(b, cfg.IpFull(), g.last))
  {
    TimesMonotone(g.credit, cfg.GlobalFull(), cfg.ipRefill);
  }

  /** A call costs one token of each. */
  lemma {:induction false} SpendLacksLess(cfg: Config, g: Bucket, b: Bucket)
    requires LacksLess(cfg, g, b)
    ensures LacksLess(cfg, Spend(g, cfg.globalRefill), Spend(b, cfg.ipRefill))
  {
    var lacks, missing := cfg.IpFull() - b.credit - (g.last - b.last), cfg.GlobalFull() - g.credit;
    assert (lacks + cfg.ipRefill) * cfg.globalRefill == lacks * cfg.globalRefill + cfg.ipRefill * cfg.globalRefill;
    assert (missing + cfg.globalRefill) * cfg.ipRefill == missing * cfg.ipRefill + cfg.globalRefill * cfg.ipRefill;
  }

  lemma {:induction false} OthersLackLess(cfg: Config, g: Bucket, b: Bucket)
    requires cfg.Valid() && LacksLess(cfg, g, b)
    ensures LacksLess(cfg, Spend(g, cfg.globalRefill), b)
  {
    TimesMonotone(cfg.GlobalFull() - g.credit, cfg.GlobalFull() - g.credit + cfg.globalRefill, cfg.ipRefill);
  }

  /** An address always holds a token. */
  lemma {:induction false} AlwaysAToken(cfg: Config, g: Bucket, b: Bucket)
    requires cfg.Valid() && GlobalIsTighter(cfg) && 0 <= g.credit && b.last == g.last && LacksLess(cfg, g, b)
    ensures b.credit >= cfg.ipRefill
  {
    var most := (cfg.ipBurst - 1) * cfg.ipRefill;
    assert (cfg.GlobalFull() - g.credit) * cfg.ipRefill <= most * cfg.globalRefill by {
      TimesMonotone(cfg.GlobalFull() - g.credit, cfg.GlobalFull(), cfg.ipRefill);
      TimesMonotone(cfg.globalBurst, cfg.ipBurst - 1, cfg.ipRefill * cfg.globalRefill);
      assert cfg.globalBurst * cfg.globalRefill * cfg.ipRefill == cfg.globalBurst * (cfg.ipRefill * cfg.globalRefill);
      assert (cfg.ipBurst - 1) * (cfg.ipRefill * cfg.globalRefill) == most * cfg.globalRefill;
    }
    assert (cfg.IpFull() - b.credit - most) * cfg.globalRefill <= 0;
    assert cfg.IpFull() == most + cfg.ipRefill;
  }

  /** What a call finds in both buckets. */
  lemma {:induction false} FoundLacksLess(cfg: Config, st: State, k: string, now: int)
    requires cfg.Valid() && GlobalIsTighter(cfg) && AllLackLess(cfg, st) && st.global.last <= now
    ensures var g, b := Refill(st.global, cfg.GlobalFull(), now), Found(cfg, st.ips, k, now);
            && g.last == now == b.last && 0 <= g.credit <= cfg.GlobalFull()
            && LacksLess(cfg, g, b) && b.credit >= cfg.ipRefill
            && forall x :: x in st.ips.entries ==>
                 st.ips.entries[x].value.last <= now && LacksLess(cfg, g, st.ips.entries[x].value)
  {
    var g, b := Refill(st.global, cfg.GlobalFull(), now), Found(cfg, st.ips, k, now);
    forall x | x in st.ips.entries ensures LacksLess(cfg, g, st.ips.entries[x].value) {
      LaterLacksLess(cfg, st.global, st.ips.entries[x].value, now);
    }
    if k in st.ips.entries {
      RefillLacksLess(cfg, g, st.ips.entries[k].value);
    } else {
      TimesMonotone(g.credit, cfg.GlobalFull(), cfg.ipRefill);
    }
    hide LacksLess;
    AlwaysAToken(cfg, g, b);
  }

  /** The verdict of a call follows from the global bucket. */
  lemma {:induction false} GlobalDecides(cfg: Config, st: State, ip: string, user: string, now: int)
    requires cfg.Valid() && GlobalIsTighter(cfg) && AllLackLess(cfg, st) && Inv(cfg, st, now) && st.global.last <= now
    ensures var (next, d) := Admit(cfg, st, ip, user, now);
            var g := Refill(st.global, cfg.GlobalFull(), now);
            && AllLackLess(cfg, next) && next.global.last == now
            && (d.allowed <==> g.credit >= cfg.globalRefill)
            && next.global == (if d.allowed then Spend(g, cfg.globalRefill) else g)
            && d.retryAfter == (if d.allowed then 0 else cfg.globalRefill - g.credit)
  {
    var (next, d) := Admit(cfg, st, ip, user, now);
    var k := Address(ip);
    var g, b := Refill(st.global, cfg.GlobalFull(), now), Found(cfg, st.ips, k, now);
    FoundLacksLess(cfg, st, k, now);
    AdmitMeaning(cfg, st, ip, user, now);
    var left := if d.allowed then Spend(b, cfg.ipRefill) else b;
    var n := VisitedRows(cfg, st.ips, k, now, left);
    SpendLacksLess(cfg, g, b);
    hide Admit, Visited, Found, Refill, LacksLess, Address;
    forall x | x in next.ips.entries ensures LacksLess(cfg, next.global, next.ips.entries[x].value) {
      if x != k {
        OthersLackLess(cfg, g, st.ips.entries[x].value);
      }
    }
  }

  lemma {:induction false} CleanupLacksLess(cfg: Config, st: State, now: int)
    requires AllLackLess(cfg, st)
    ensures AllLackLess(cfg, Cleanup(cfg, st, now)) && Cleanup(cfg, st, now).global == st.global
  {
    hide LacksLess;
  }

  lemma {:induction false} TighterRunsAgree(cfg: Config, c: State, u: State, run: seq<Event>, now: int)
    requires cfg.Valid() && GlobalIsTighter(cfg) && Timed(run, now) && c.global == u.global && c.global.last <= now
    requires Inv(cfg, c, now) && Inv(cfg, u, now) && AllLackLess(cfg, c) && AllLackLess(cfg, u)
    ensures Verdicts(cfg, c, run, true) == Verdicts(cfg, u, run, false)
    decreases |run|
  {
    if run != [] {
      var e := run[0];
      StepInv(cfg, c, e, true, now);
      StepInv(cfg, u, e, false, now);
      IpInvLater(cfg, c.ips, now, e.now);
      IpInvLater(cfg, u.ips, now, e.now);
      CleanupInv(cfg, c, e.now);
      CleanupLacksLess(cfg, c, e.now);
      hide AllLackLess, Admit, Cleanup, Fail, Success, IpInv, LacksLess;
      if e.call.CallAllow? {
        GlobalDecides(cfg, Cleanup(cfg, c, e.now), e.call.ip, e.call.user, e.now);
        GlobalDecides(cfg, u, e.call.ip, e.call.user, e.now);
      } else {
        OtherCallsKeep(cfg, c, e, true);
        OtherCallsKeep(cfg, u, e, false);
      }
      TighterRunsAgree(cfg, Step(cfg, c, e, true).0, Step(cfg, u, e, false).0, run[1..], e.now);
    }
  }

  lemma {:induction false} OtherCallsKeep(cfg: Config, st: State, e: Event, cleans: bool)
    requires cfg.Valid() && !e.call.CallAllow? && AllLackLess(cfg, st)
    ensures var next := Step(cfg, st, e, cleans).0;
            next.ips == st.ips && next.global == st.global && AllLackLess(cfg, next)
  {
    hide LacksLess, Touch;
  }

  // ---------- When the cleanup is invisible ----------

  /** With a global bucket that admits two bursts of one address, the cleanup is invisible if and only if a row
      is kept until its bucket has refilled completely.  With a global bucket that refills no faster and holds
      fewer tokens than one of an address, it always is. */
  lemma {:induction false} InvisibleIff(cfg: Config)
    requires cfg.Valid() && (cfg.globalBurst >= 2 * cfg.ipBurst || GlobalIsTighter(cfg))
    ensures Invisible(cfg) <==> cfg.entryTTL + 1 >= cfg.IpFull() || GlobalIsTighter(cfg)
  {
    if cfg.entryTTL + 1 >= cfg.IpFull() {
      forall run: seq<Event>, start: int | Timed(run, start)
        ensures Verdicts(cfg, New(cfg, start), run, true) == Verdicts(cfg, New(cfg, start), run, false)
      {
        CleanupInvisible(cfg, run, start);
      }
    } else if GlobalIsTighter(cfg) {
      forall run: seq<Event>, start: int | Timed(run, start)
        ensures Verdicts(cfg, New(cfg, start), run, true) == Verdicts(cfg, New(cfg, start), run, false)
      {
        NewInv(cfg, start);
        TighterRunsAgree(cfg, New(cfg, start), New(cfg, start), run, start);
      }
    } else {
      ShortLivedShows(cfg);
    }
  }

  lemma {:induction false} ShortLivedShows(cfg: Config)
    requires cfg.Valid() && cfg.entryTTL + 1 < cfg.IpFull() && cfg.globalBurst >= 2 * cfg.ipBurst
    ensures !Invisible(cfg)
  {
    CleanupVisible(cfg, "", "", 0);
    hide Verdicts;
    var t := cfg.cleanupInterval - 1;
    BurstIsTimed("", "", t, cfg.ipBurst, 0);
    var first := Burst("", "", t, cfg.ipBurst);
    BurstIsTimed("", "", t + cfg.entryTTL + 1, cfg.ipBurst, End(first, 0));
    TimedSplits(first, Burst("", "", t + cfg.entryTTL + 1, cfg.ipBurst), 0);
    assert Timed(TwoBursts(cfg, "", "", 0), 0);
  }
}
