/** Properties of the limiter over whole call sequences (internal/authlimit/limiter.go). */
module LimiterRuns {
  import opened Base
  import Text
  import opened Limiter

  datatype Call = CallAllow(ip: string, user: string) | CallFail(user: string) | CallSuccess(user: string)

  datatype Event = Event(now: int, call: Call)

  /** One call; `cleans` selects the limiter of the source or one that never cleans up. */
  function Step(cfg: Config, st: State, e: Event, cleans: bool): (State, Option<Decision>)
    requires cfg.Valid()
  {
    match e.call
    case CallAllow(ip, user) =>
      var start := if cleans then Cleanup(cfg, st, e.now) else st;
      var (next, d) := Admit(cfg, start, ip, user, e.now);
      (next, Some(d))
    case CallFail(user) => (Fail(cfg, st, user, e.now), None)
    case CallSuccess(user) => (Success(cfg, st, user), None)
  }

  function Exec(cfg: Config, st: State, run: seq<Event>, cleans: bool): State
    requires cfg.Valid()
    decreases |run|
  {
    if run == [] then st else Exec(cfg, Step(cfg, st, run[0], cleans).0, run[1..], cleans)
  }

  /** The clock never goes backwards along the run. */
  predicate Timed(run: seq<Event>, start: int) {
    run != [] ==> start <= run[0].now && Timed(run[1..], run[0].now)
  }

  function End(run: seq<Event>, start: int): int {
    if run == [] then start else End(run[1..], run[0].now)
  }

  lemma {:induction false} TimedSplits(a: seq<Event>, b: seq<Event>, start: int)
    ensures Timed(a + b, start) <==> Timed(a, start) && Timed(b, End(a, start))
    ensures End(a + b, start) == End(b, End(a, start))
  {
    if a == [] {
      assert a + b == b;
    } else {
      assert (a + b)[1..] == a[1..] + b;
      TimedSplits(a[1..], b, a[0].now);
    }
  }

  lemma {:induction false} EndIsLast(run: seq<Event>, start: int)
    requires Timed(run, start)
    ensures start <= End(run, start)
    ensures run != [] ==> End(run, start) == run[|run| - 1].now
  {
    if run != [] {
      EndIsLast(run[1..], run[0].now);
    }
  }

  // ---------- Invariants ----------

  ghost predicate BucketInv(b: Bucket, full: int, now: int) {
    0 <= b.credit <= full && b.last <= now
  }

  ghost predicate Recent<V>(entries: map<string, Entry<V>>, order: seq<string>) {
    forall i, j :: 0 <= i < j < |order| && order[i] in entries && order[j] in entries ==>
      entries[order[i]].lastAccess >= entries[order[j]].lastAccess
  }

  ghost predicate RowsOk(cfg: Config, entries: map<string, Entry<Bucket>>, now: int) {
    forall k :: k in entries ==>
      BucketInv(entries[k].value, cfg.IpFull(), now) && entries[k].value.last == entries[k].lastAccess
  }

  /** Rows are in recency order, no row is younger than the clock, and a bucket was last refilled when
      its row was last accessed. */
  ghost predicate IpInv(cfg: Config, t: Table<Bucket>, now: int) {
    && WellFormed(t)
    && |t.order| <= cfg.maxIPs
    && RowsOk(cfg, t.entries, now)
    && Recent(t.entries, t.order)
  }

  ghost predicate Inv(cfg: Config, st: State, now: int) {
    BucketInv(st.global, cfg.GlobalFull(), now) && IpInv(cfg, st.ips, now)
  }

  lemma {:induction false} Full(cfg: Config)
    requires cfg.Valid()
    ensures cfg.IpFull() >= cfg.ipRefill && cfg.GlobalFull() >= cfg.globalRefill
  {
    assert (cfg.ipBurst - 1) * cfg.ipRefill >= 0;
    assert (cfg.globalBurst - 1) * cfg.globalRefill >= 0;
  }

  lemma {:induction false} KeepPrefix(order: seq<string>, keys: set<string>) returns (n: nat)
    requires forall i, j :: 0 <= i < j < |order| && order[j] in keys ==> order[i] in keys
    ensures n <= |order| && Keep(order, keys) == order[..n]
    ensures forall i :: 0 <= i < |order| ==> (order[i] in keys <==> i < n)
  {
    if order == [] || order[0] !in keys {
      n := 0;
      WithNone(order, keys);
    } else {
      var m := KeepPrefix(order[1..], keys);
      n := m + 1;
      assert order[..n] == [order[0]] + order[1..][..m];
      forall i | 0 <= i < |order| ensures order[i] in keys <==> i < n {
        if i > 0 {
          assert order[i] == order[1..][i - 1];
        }
      }
    }
  }

  lemma {:induction false} WithNone(order: seq<string>, keys: set<string>)
    requires forall i :: 0 <= i < |order| ==> order[i] !in keys
    ensures Keep(order, keys) == []
  {
    if order != [] {
      WithNone(order[1..], keys);
    }
  }

  /** Cleaning a list in recency order cuts off its tail. */
  lemma {:induction false} PurgeCutsTail(cfg: Config, t: Table<Bucket>, cutoff: int, now: int) returns (n: nat)
    requires IpInv(cfg, t, now)
    ensures n <= |t.order| && Purge(t, cutoff).order == t.order[..n]
    ensures forall j :: n <= j < |t.order| ==> t.entries[t.order[j]].lastAccess < cutoff
    ensures IpInv(cfg, Purge(t, cutoff), now)
  {
    var kept := Purge(t, cutoff).entries.Keys;
    n := KeepPrefix(t.order, kept);
    PurgeWellFormed(t, cutoff);
  }

  lemma {:induction false} IpInvLater(cfg: Config, t: Table<Bucket>, now: int, later: int)
    requires IpInv(cfg, t, now) && now <= later
    ensures IpInv(cfg, t, later)
  {
  }

  /** What Touch does to the order: the key moves, or is put, in front of what stays of the list. */
  lemma {:induction false} TouchOrder(cfg: Config, t: Table<Bucket>, k: string, initial: Bucket,
                                      now: int) returns (i: nat)
    requires cfg.Valid() && WellFormed(t) && |t.order| <= cfg.maxIPs
    ensures k in t.entries <==> i < |t.order|
    ensures k in t.entries ==> t.order[i] == k
    ensures Touch(t, k, initial, now, cfg.maxIPs).order == [k] + Rest(cfg, t, i)
  {
    if k in t.entries {
      i :| 0 <= i < |t.order| && t.order[i] == k;
      WithoutAt(t.order, i);
    } else {
      i := |t.order|;
    }
  }

  /** What stays of a list behind a visited key that was at i, or was absent. */
  function Rest(cfg: Config, t: Table<Bucket>, i: nat): seq<string>
    requires cfg.Valid()
  {
    if i < |t.order| then t.order[..i] + t.order[i + 1..] else t.order[..Min(|t.order|, cfg.maxIPs - 1)]
  }

  /** The table after a call from k leaves bucket b in its row. */
  function Visited(cfg: Config, t: Table<Bucket>, k: string, now: int, b: Bucket): Table<Bucket>
    requires cfg.Valid()
  {
    SetValue(Touch(t, k, Bucket(cfg.IpFull(), now), now, cfg.maxIPs), k, b)
  }

  lemma {:induction false} VisitedRows(cfg: Config, t: Table<Bucket>, k: string, now: int, b: Bucket) returns (i: nat)
    requires cfg.Valid() && WellFormed(t) && |t.order| <= cfg.maxIPs
    ensures k in t.entries <==> i < |t.order|
    ensures k in t.entries ==> t.order[i] == k
    ensures var r := Visited(cfg, t, k, now, b);
            && WellFormed(r) && |r.order| <= cfg.maxIPs
            && r.order == [k] + Rest(cfg, t, i)
            && k in r.entries && r.entries[k] == Entry(b, now)
            && (forall x :: x in r.entries && x != k ==> x in t.entries && r.entries[x] == t.entries[x])
  {
    var initial := Bucket(cfg.IpFull(), now);
    i := TouchOrder(cfg, t, k, initial, now);
    TouchWellFormed(t, k, initial, now, cfg.maxIPs);
    SetValueWellFormed(Touch(t, k, initial, now, cfg.maxIPs), k, b);
    assert forall x :: x in Touch(t, k, initial, now, cfg.maxIPs).entries && x != k ==>
      x in t.entries && Touch(t, k, initial, now, cfg.maxIPs).entries[x] == t.entries[x];
  }

  lemma {:induction false} RestRecent(cfg: Config, t: Table<Bucket>, i: nat)
    requires cfg.Valid() && Recent(t.entries, t.order)
    ensures Recent(t.entries, Rest(cfg, t, i))
  {
  }

  /** A row put in front, as young as the clock, keeps a list in recency order. */
  lemma {:induction false} FrontIsRecent(before: map<string, Entry<Bucket>>, after: map<string, Entry<Bucket>>,
                                         k: string, rest: seq<string>, now: int)
    requires Recent(before, rest) && k in after && after[k].lastAccess == now && k !in rest
    requires forall x :: x in rest && x in after ==> x in before && after[x] == before[x] && before[x].lastAccess <= now
    ensures Recent(after, [k] + rest)
  {
    var order := [k] + rest;
    forall i, j | 0 <= i < j < |order| && order[i] in after && order[j] in after
      ensures after[order[i]].lastAccess >= after[order[j]].lastAccess
    {
      assert order[j] == rest[j - 1] && order[j] in rest;
      if i > 0 {
        assert order[i] == rest[i - 1] && order[i] in rest;
      }
    }
  }

  lemma {:induction false} VisitedInv(cfg: Config, t: Table<Bucket>, k: string, now: int, b: Bucket)
    requires cfg.Valid() && IpInv(cfg, t, now)
    requires BucketInv(b, cfg.IpFull(), now) && b.last == now
    ensures IpInv(cfg, Visited(cfg, t, k, now, b), now)
  {
    hide Visited, Rest, Recent, BucketInv;
    var n := VisitedRows(cfg, t, k, now, b);
    var r := Visited(cfg, t, k, now, b);
    var rest := Rest(cfg, t, n);
    RestRecent(cfg, t, n);
    NotInFront(r, k, rest);
    RowsBefore(cfg, t.entries, now);
    FrontIsRecent(t.entries, r.entries, k, rest, now);
    hide WellFormed;
  }

  lemma {:induction false} NotInFront(t: Table<Bucket>, k: string, rest: seq<string>)
    requires WellFormed(t) && t.order == [k] + rest
    ensures k !in rest && forall x :: x in rest ==> x in t.entries
  {
    forall x | x in rest ensures x in t.entries && x != k {
      var i :| 0 <= i < |rest| && rest[i] == x;
      assert t.order[i + 1] == x && t.order[0] == k;
    }
  }

  lemma {:induction false} RowsBefore(cfg: Config, entries: map<string, Entry<Bucket>>, now: int)
    requires RowsOk(cfg, entries, now)
    ensures forall k :: k in entries ==> entries[k].lastAccess <= now
  {
    forall k | k in entries ensures entries[k].lastAccess <= now {
      assert BucketInv(entries[k].value, cfg.IpFull(), now);
    }
  }

  /** The bucket k finds when it calls. */
  function Found(cfg: Config, t: Table<Bucket>, k: string, now: int): Bucket
    requires cfg.Valid()
  {
    Refill(if k in t.entries then t.entries[k].value else Bucket(cfg.IpFull(), now), cfg.IpFull(), now)
  }

  function Spend(b: Bucket, cost: int): Bucket {
    b.(credit := b.credit - cost)
  }

  /** Admit in terms of the two buckets it looks at. */
  lemma {:induction false} AdmitMeaning(cfg: Config, st: State, ip: string, user: string, now: int)
    requires cfg.Valid()
    ensures var (next, d) := Admit(cfg, st, ip, user, now);
            var k := Address(ip);
            var g := Refill(st.global, cfg.GlobalFull(), now);
            var b := Found(cfg, st.ips, k, now);
            && (d.allowed <==> g.credit >= cfg.globalRefill && b.credit >= cfg.ipRefill)
            && next.global == (if d.allowed then Spend(g, cfg.globalRefill) else g)
            && next.ips == Visited(cfg, st.ips, k, now, if d.allowed then Spend(b, cfg.ipRefill) else b)
            && next.nextCleanup == st.nextCleanup
            && d.retryAfter == (if d.allowed then 0
                                else Max(Max(cfg.globalRefill - g.credit, cfg.ipRefill - b.credit), 0))
            && (!d.allowed ==> d.delay == 0 && next.accounts == st.accounts)
  {
  }

  /** A bucket gains what time has passed, up to its size; a clock that went back gives it nothing. */
  lemma {:induction false} RefillMeans(b: Bucket, full: int, now: int)
    requires b.credit <= full
    ensures var r := Refill(b, full, now);
            && r.last == now
            && (now <= b.last ==> r.credit == b.credit)
            && (now > b.last ==>
                  var more := b.credit + (now - b.last); r.credit == if more < full then more else full)
  {
  }

  /** An address is known by its text without the white space around it, and all blank ones by one name. */
  lemma {:induction false} AddressMeans(ip: string) returns (i: nat, j: nat)
    ensures i <= j <= |ip| && Text.Blank(ip[..i]) && Text.Blank(ip[j..])
    ensures i == j ==> Text.Blank(ip) && Address(ip) == "unknown"
    ensures i < j ==> Address(ip) == ip[i..j] && !Text.IsSpace(ip[i]) && !Text.IsSpace(ip[j - 1])
  {
    i, j := Text.TrimMeans(ip);
    hide Text.Trim, Text.IsSpace;
    if i == j {
      assert ip == ip[..i] + ip[j..];
    }
  }

  /** An account by the lower-case text without the white space around it. */
  lemma {:induction false} AccountMeans(cfg: Config, user: string) returns (i: nat, j: nat)
    ensures i <= j <= |user| && Text.Blank(user[..i]) && Text.Blank(user[j..])
    ensures i < j ==> !Text.IsSpace(user[i]) && !Text.IsSpace(user[j - 1])
    ensures |Account(cfg, user)| == j - i
    ensures forall k :: 0 <= k < j - i ==> Account(cfg, user)[k] == cfg.lower(user[i + k])
  {
    i, j := Text.TrimMeans(user);
    hide Text.Trim, Text.IsSpace;
  }

  lemma {:induction false} CleanupInv(cfg: Config, st: State, now: int)
    requires cfg.Valid() && Inv(cfg, st, now)
    ensures Inv(cfg, Cleanup(cfg, st, now), now)
  {
    hide Purge, IpInv, BucketInv;
    if now >= st.nextCleanup {
      var n := PurgeCutsTail(cfg, st.ips, now - cfg.entryTTL, now);
    }
  }

  lemma {:induction false} AdmitInv(cfg: Config, st: State, ip: string, user: string, now: int)
    requires cfg.Valid() && Inv(cfg, st, now)
    ensures Inv(cfg, Admit(cfg, st, ip, user, now).0, now)
  {
    AdmitMeaning(cfg, st, ip, user, now);
    Full(cfg);
    var (next, d) := Admit(cfg, st, ip, user, now);
    var k := Address(ip);
    var b := Found(cfg, st.ips, k, now);
    VisitedInv(cfg, st.ips, k, now, if d.allowed then Spend(b, cfg.ipRefill) else b);
  }

  lemma {:induction false} StepInv(cfg: Config, st: State, e: Event, cleans: bool, now: int)
    requires cfg.Valid() && Inv(cfg, st, now) && now <= e.now
    ensures Inv(cfg, Step(cfg, st, e, cleans).0, e.now)
  {
    IpInvLater(cfg, st.ips, now, e.now);
    if e.call.CallAllow? {
      CleanupInv(cfg, st, e.now);
      AdmitInv(cfg, if cleans then Cleanup(cfg, st, e.now) else st, e.call.ip, e.call.user, e.now);
    }
  }

  lemma {:induction false} ExecInv(cfg: Config, st: State, run: seq<Event>, cleans: bool, now: int)
    requires cfg.Valid() && Inv(cfg, st, now) && Timed(run, now)
    ensures Inv(cfg, Exec(cfg, st, run, cleans), End(run, now))
    decreases |run|
  {
    if run != [] {
      StepInv(cfg, st, run[0], cleans, now);
      ExecInv(cfg, Step(cfg, st, run[0], cleans).0, run[1..], cleans, run[0].now);
    }
  }

  lemma {:induction false} NewInv(cfg: Config, now: int)
    requires cfg.Valid()
    ensures Inv(cfg, New(cfg, now), now)
  {
    Full(cfg);
  }
}
