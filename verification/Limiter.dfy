/** The request limiter (internal/authlimit/limiter.go): two levels of token bucket, two tables kept in
least-recently-used order and a periodic cleanup.

A bucket holds `tokens * interval` nanoseconds of credit.  Every operation of the source keeps that
product an integer, so the model is exact where the source uses float64.
*/
module Limiter {
  import opened Base
  import opened Text

  /** `lower` is the table of lower-case characters. */
  datatype Config = Config(globalBurst: int, globalRefill: int, ipBurst: int, ipRefill: int,
                           maxIPs: int, maxAccounts: int, entryTTL: int, cleanupInterval: int,
                           lower: char -> char)
  {
    predicate Valid() {
      && globalBurst > 0 && globalRefill > 0 && ipBurst > 0 && ipRefill > 0
      && maxIPs > 0 && maxAccounts > 0 && entryTTL > 0 && cleanupInterval > 0
    }

    function GlobalFull(): int { globalBurst * globalRefill }

    function IpFull(): int { ipBurst * ipRefill }
  }

  function DefaultConfig(lower: char -> char): Config {
    Config(30, SECOND, 10, 90 * SECOND, 4096, 1024, 30 * MINUTE, MINUTE, lower)
  }

  function OrDefault(value: int, default: int): int {
    if value <= 0 then default else value
  }

  /** A positive request is taken, anything else is replaced. */
  predicate Chosen(requested: int, default: int, used: int) {
    used == if requested > 0 then requested else default
  }

  function Normalized(c: Config): (r: Config)
    ensures r.Valid() && r.lower == c.lower
    ensures Chosen(c.globalBurst, 30, r.globalBurst) && Chosen(c.globalRefill, SECOND, r.globalRefill)
    ensures Chosen(c.ipBurst, 10, r.ipBurst) && Chosen(c.ipRefill, 90 * SECOND, r.ipRefill)
    ensures Chosen(c.maxIPs, 4096, r.maxIPs) && Chosen(c.maxAccounts, 1024, r.maxAccounts)
    ensures Chosen(c.entryTTL, 30 * MINUTE, r.entryTTL) && Chosen(c.cleanupInterval, MINUTE, r.cleanupInterval)
  {
    var d := DefaultConfig(c.lower);
    Config(OrDefault(c.globalBurst, d.globalBurst), OrDefault(c.globalRefill, d.globalRefill),
           OrDefault(c.ipBurst, d.ipBurst), OrDefault(c.ipRefill, d.ipRefill),
           OrDefault(c.maxIPs, d.maxIPs), OrDefault(c.maxAccounts, d.maxAccounts),
           OrDefault(c.entryTTL, d.entryTTL), OrDefault(c.cleanupInterval, d.cleanupInterval),
           c.lower)
  }

  datatype Bucket = Bucket(credit: int, last: int)

  /** A table row; for addresses the value is a bucket, for accounts the number of failures. */
  datatype Entry<+V> = Entry(value: V, lastAccess: int)

  /** A map with its keys listed from the most to the least recently used. */
  datatype Table<V> = Table(entries: map<string, Entry<V>>, order: seq<string>)

  ghost predicate WellFormed<V>(t: Table<V>) {
    && NoDuplicates(t.order)
    && forall k :: k in t.order <==> k in t.entries
  }

  datatype State = State(global: Bucket, ips: Table<Bucket>, accounts: Table<int>, nextCleanup: int)

  datatype Decision = Decision(allowed: bool, delay: int, retryAfter: int)

  ghost predicate NoDuplicates(s: seq<string>) {
    forall i, j :: 0 <= i < j < |s| ==> s[i] != s[j]
  }

  // ---------- Specification of one call ----------

  function Refill(b: Bucket, full: int, now: int): Bucket {
    if now < b.last then b.(last := now) else Bucket(Min(b.credit + (now - b.last), full), now)
  }

  function TimeToToken(credit: int, interval: int): int {
    if interval - credit <= 0 then 0 else interval - credit
  }

  function FailureDelay(failures: int): int {
    if failures < 5 then 0
    else if failures == 5 then SECOND / 4
    else if failures == 6 then SECOND / 2
    else if failures == 7 then SECOND
    else 2 * SECOND
  }

  function Without(order: seq<string>, k: string): (r: seq<string>)
    ensures |r| <= |order|
  {
    if order == [] then []
    else if order[0] == k then Without(order[1..], k)
    else [order[0]] + Without(order[1..], k)
  }

  function Keep(order: seq<string>, keys: set<string>): seq<string> {
    if order == [] then []
    else if order[0] in keys then [order[0]] + Keep(order[1..], keys)
    else Keep(order[1..], keys)
  }

  function Restrict<V>(entries: map<string, Entry<V>>, keys: seq<string>): map<string, Entry<V>> {
    map k | k in entries && k in keys :: entries[k]
  }

  /** Make room for one more row by dropping the least recently used ones. */
  function MakeRoom<V>(t: Table<V>, capacity: int): Table<V>
    requires capacity > 0
  {
    if |t.order| < capacity then t
    else var kept := t.order[..capacity - 1]; Table(Restrict(t.entries, kept), kept)
  }

  /** Look a key up, creating it if needed, and make it the most recently used. */
  function Touch<V>(t: Table<V>, k: string, initial: V, now: int, capacity: int): (r: Table<V>)
    requires capacity > 0
    ensures k in r.entries && r.order != [] && r.order[0] == k
  {
    if k in t.entries then
      Table(t.entries[k := t.entries[k].(lastAccess := now)], [k] + Without(t.order, k))
    else
      var room := MakeRoom(t, capacity);
      Table(room.entries[k := Entry(initial, now)], [k] + room.order)
  }

  function Purge<V>(t: Table<V>, cutoff: int): Table<V> {
    var kept := map k | k in t.entries && t.entries[k].lastAccess >= cutoff :: t.entries[k];
    Table(kept, Keep(t.order, kept.Keys))
  }

  function Cleanup(cfg: Config, st: State, now: int): State {
    if now < st.nextCleanup then st
    else
      var cutoff := now - cfg.entryTTL;
      State(st.global, Purge(st.ips, cutoff), Purge(st.accounts, cutoff), now + cfg.cleanupInterval)
  }

  /** The key of an address: trimmed, with one name for all empty ones. */
  function Address(ip: string): string {
    if Trim(ip) == "" then "unknown" else Trim(ip)
  }

  /** The key of an account: trimmed and in lower case. */
  function Account(cfg: Config, user: string): string {
    Lower(Trim(user), cfg.lower)
  }

  /** A call once the cleanup is done. */
  function Admit(cfg: Config, st: State, ip: string, user: string, now: int): (State, Decision)
    requires cfg.Valid()
  {
    var k := Address(ip);
    var global := Refill(st.global, cfg.GlobalFull(), now);
    var ips := Touch(st.ips, k, Bucket(cfg.IpFull(), now), now, cfg.maxIPs);
    var bucket := Refill(ips.entries[k].value, cfg.IpFull(), now);
    if global.credit < cfg.globalRefill || bucket.credit < cfg.ipRefill then
      var globalWait := if global.credit < cfg.globalRefill then TimeToToken(global.credit, cfg.globalRefill) else 0;
      var ipWait := if bucket.credit < cfg.ipRefill then TimeToToken(bucket.credit, cfg.ipRefill) else 0;
      (st.(global := global, ips := SetValue(ips, k, bucket)), Decision(false, 0, Max(globalWait, ipWait)))
    else
      var account := Account(cfg, user);
      var accounts := Touch(st.accounts, account, 0, now, cfg.maxAccounts);
      (State(global.(credit := global.credit - cfg.globalRefill),
             SetValue(ips, k, bucket.(credit := bucket.credit - cfg.ipRefill)),
             accounts, st.nextCleanup),
       Decision(true, FailureDelay(accounts.entries[account].value), 0))
  }

  function SetValue<V>(t: Table<V>, k: string, v: V): Table<V>
    requires k in t.entries
  {
    t.(entries := t.entries[k := t.entries[k].(value := v)])
  }

  function Allow(cfg: Config, st: State, ip: string, user: string, now: int): (State, Decision)
    requires cfg.Valid()
  {
    Admit(cfg, Cleanup(cfg, st, now), ip, user, now)
  }

  function Fail(cfg: Config, st: State, user: string, now: int): State
    requires cfg.Valid()
  {
    var account := Account(cfg, user);
    var accounts := Touch(st.accounts, account, 0, now, cfg.maxAccounts);
    var failures := accounts.entries[account].value;
    st.(accounts := if failures < 1000 then SetValue(accounts, account, failures + 1) else accounts)
  }

  function Success(cfg: Config, st: State, user: string): State {
    var account := Account(cfg, user);
    if account in st.accounts.entries
    then st.(accounts := Table(st.accounts.entries - {account}, Without(st.accounts.order, account)))
    else st
  }

  function New(cfg: Config, now: int): State {
    State(Bucket(cfg.GlobalFull(), now), Table(map[], []), Table(map[], []), now + cfg.cleanupInterval)
  }

  // ---------- Lists in recency order ----------

  lemma {:induction false} WithoutMembers(order: seq<string>, k: string)
    ensures forall x :: x in Without(order, k) <==> x in order && x != k
    ensures NoDuplicates(order) ==> NoDuplicates(Without(order, k))
  {
    if order != [] {
      WithoutMembers(order[1..], k);
      assert order == [order[0]] + order[1..];
      if NoDuplicates(order) {
        assert order[0] !in order[1..];
      }
    }
  }

  lemma {:induction false} WithoutAbsent(order: seq<string>, k: string)
    requires k !in order
    ensures Without(order, k) == order
  {
    if order != [] {
      WithoutAbsent(order[1..], k);
    }
  }

  lemma {:induction false} WithoutAt(order: seq<string>, i: nat)
    requires i < |order| && NoDuplicates(order)
    ensures Without(order, order[i]) == order[..i] + order[i + 1..]
  {
    if i == 0 {
      WithoutAbsent(order[1..], order[0]);
    } else {
      WithoutAt(order[1..], i - 1);
      assert order[..i] == [order[0]] + order[1..][..i - 1];
      assert order[i + 1..] == order[1..][i..];
    }
  }

  lemma {:induction false} KeepWithout(order: seq<string>, keys: set<string>, k: string)
    requires k !in keys
    ensures Keep(Without(order, k), keys) == Keep(order, keys)
  {
    if order != [] {
      KeepWithout(order[1..], keys, k);
    }
  }

  lemma {:induction false} KeepMembers(order: seq<string>, keys: set<string>)
    ensures forall x :: x in Keep(order, keys) <==> x in order && x in keys
    ensures NoDuplicates(order) ==> NoDuplicates(Keep(order, keys))
    ensures |Keep(order, keys)| <= |order|
  {
    if order != [] {
      KeepMembers(order[1..], keys);
      assert order == [order[0]] + order[1..];
    }
  }

  lemma {:induction false} KeepAll(order: seq<string>, keys: set<string>)
    requires forall k :: k in order ==> k in keys
    ensures Keep(order, keys) == order
  {
    if order != [] {
      KeepAll(order[1..], keys);
    }
  }

  lemma {:induction false} PurgeWellFormed<V>(t: Table<V>, cutoff: int)
    requires WellFormed(t)
    ensures WellFormed(Purge(t, cutoff)) && |Purge(t, cutoff).order| <= |t.order|
  {
    KeepMembers(t.order, Purge(t, cutoff).entries.Keys);
  }

  lemma {:induction false} TouchWellFormed<V>(t: Table<V>, k: string, initial: V, now: int, capacity: int)
    requires capacity > 0 && WellFormed(t) && |t.order| <= capacity
    ensures var r := Touch(t, k, initial, now, capacity);
            WellFormed(r) && |r.order| <= capacity
  {
    WithoutMembers(t.order, k);
    if k in t.entries {
      var i :| 0 <= i < |t.order| && t.order[i] == k;
      WithoutAt(t.order, i);
    }
  }

  lemma {:induction false} SetValueWellFormed<V>(t: Table<V>, k: string, v: V)
    requires WellFormed(t) && k in t.entries
    ensures WellFormed(SetValue(t, k, v))
  {
  }

  lemma {:induction false} DropLast<V>(t: Table<V>)
    requires WellFormed(t) && t.order != []
    ensures var last := |t.order| - 1;
            && t.order[last] in t.entries
            && WellFormed(Table(t.entries - {t.order[last]}, t.order[..last]))
  {
    var last := |t.order| - 1;
    assert t.order == t.order[..last] + [t.order[last]];
  }

  lemma {:induction false} SizeMatches<V>(t: Table<V>)
    requires WellFormed(t)
    ensures |t.entries| == |t.order|
    decreases |t.order|
  {
    if t.order == [] {
      assert t.entries == map[];
    } else {
      DropLast(t);
      hide WellFormed;
      var last := |t.order| - 1;
      var k := t.order[last];
      var rest := Table(t.entries - {k}, t.order[..last]);
      SizeMatches(rest);
      assert t.entries == rest.entries[k := t.entries[k]];
    }
  }

  lemma {:induction false} AllRestricted<V>(t: Table<V>)
    requires WellFormed(t)
    ensures Restrict(t.entries, t.order) == t.entries
  {
  }

  lemma {:induction false} PrefixTable<V>(t: Table<V>, n: nat)
    requires WellFormed(t) && n <= |t.order|
    ensures |Restrict(t.entries, t.order[..n])| == n
    ensures n > 0 ==> Restrict(t.entries, t.order[..n]) - {t.order[n - 1]} == Restrict(t.entries, t.order[..n - 1])
  {
    PrefixWellFormed(t, n);
    SizeMatches(Table(Restrict(t.entries, t.order[..n]), t.order[..n]));
    if n > 0 {
      assert t.order[..n] == t.order[..n - 1] + [t.order[n - 1]];
      assert t.order[n - 1] !in t.order[..n - 1];
      hide WellFormed, NoDuplicates;
    }
  }

  lemma {:induction false} PrefixWellFormed<V>(t: Table<V>, n: nat)
    requires WellFormed(t) && n <= |t.order|
    ensures WellFormed(Table(Restrict(t.entries, t.order[..n]), t.order[..n]))
  {
  }

  // ---------- The limiter object ----------

  class Limiter {
    const cfg: Config
    var global: Bucket
    var ips: map<string, Entry<Bucket>>
    var ipLRU: seq<string>
    var accounts: map<string, Entry<int>>
    var accountLRU: seq<string>
    var nextCleanup: int

    ghost function View(): State
      reads this
    {
      State(global, Table(ips, ipLRU), Table(accounts, accountLRU), nextCleanup)
    }

    ghost predicate Valid()
      reads this
    {
      && cfg.Valid()
      && WellFormed(Table(ips, ipLRU)) && |ipLRU| <= cfg.maxIPs
      && WellFormed(Table(accounts, accountLRU)) && |accountLRU| <= cfg.maxAccounts
    }

    constructor (requested: Config, now: int)
      ensures Valid() && cfg == Normalized(requested) && View() == New(cfg, now)
    {
      var c := Normalized(requested);
      cfg := c;
      global := Bucket(c.globalBurst * c.globalRefill, now);
      ips, ipLRU, accounts, accountLRU := map[], [], map[], [];
      nextCleanup := now + c.cleanupInterval;
    }

    /** Drop rows from the back of a list until there is room for one more. */
    static method Evict<V>(entries: map<string, Entry<V>>, order: seq<string>, capacity: int)
      returns (entries': map<string, Entry<V>>, order': seq<string>)
      requires capacity > 0 && WellFormed(Table(entries, order))
      ensures Table(entries', order') == MakeRoom(Table(entries, order), capacity)
    {
      hide WellFormed;
      ghost var t := Table(entries, order);
      ghost var n: nat := |order|;
      AllRestricted(t);
      assert order[..n] == order;
      entries', order' := entries, order;
      while |entries'| >= capacity
        invariant n <= |order| && order' == order[..n] && entries' == Restrict(entries, order[..n])
        invariant n < |order| ==> n >= capacity - 1
        decreases n
      {
        PrefixTable(t, n);
        entries' := entries' - {order'[|order'| - 1]};
        order' := order'[..|order'| - 1];
        n := n - 1;
      }
      PrefixTable(t, n);
    }

    /** Delete the stale rows one by one, in any order. */
    static method Expire<V>(entries: map<string, Entry<V>>, order: seq<string>, cutoff: int)
      returns (entries': map<string, Entry<V>>, order': seq<string>)
      requires WellFormed(Table(entries, order))
      ensures Table(entries', order') == Purge(Table(entries, order), cutoff)
    {
      ghost var kept := Purge(Table(entries, order), cutoff).entries;
      entries', order' := entries, order;
      var pending := entries.Keys;
      while pending != {}
        invariant pending <= entries'.Keys
        invariant kept.Keys <= entries'.Keys
        invariant forall k :: k in entries' ==> k in entries && entries'[k] == entries[k]
        invariant forall k :: k in entries' && k !in pending ==> k in kept
        invariant forall k :: k in order' <==> k in entries'
        invariant Keep(order', kept.Keys) == Keep(order, kept.Keys)
        decreases pending
      {
        var k :| k in pending;
        pending := pending - {k};
        if entries'[k].lastAccess < cutoff {
          WithoutMembers(order', k);
          KeepWithout(order', kept.Keys, k);
          order' := Without(order', k);
          entries' := entries' - {k};
        }
      }
      assert entries' == kept;
      KeepAll(order', kept.Keys);
    }

    method CleanUp(now: int)
      requires Valid()
      modifies this
      ensures Valid() && View() == Cleanup(cfg, old(View()), now)
    {
      hide WellFormed, Keep;
      if now < nextCleanup { return; }
      var cutoff := now - cfg.entryTTL;
      PurgeWellFormed(Table(ips, ipLRU), cutoff);
      PurgeWellFormed(Table(accounts, accountLRU), cutoff);
      ips, ipLRU := Expire(ips, ipLRU, cutoff);
      accounts, accountLRU := Expire(accounts, accountLRU, cutoff);
      nextCleanup := now + cfg.cleanupInterval;
    }

    method TouchIp(k: string, now: int)
      requires Valid()
      modifies `ips, `ipLRU
      ensures Valid()
      ensures Table(ips, ipLRU) ==
              Touch(Table(old(ips), old(ipLRU)), k, Bucket(cfg.IpFull(), now), now, cfg.maxIPs)
    {
      TouchWellFormed(Table(ips, ipLRU), k, Bucket(cfg.IpFull(), now), now, cfg.maxIPs);
      if k in ips {
        ips := ips[k := ips[k].(lastAccess := now)];
        ipLRU := [k] + Without(ipLRU, k);
      } else {
        ips, ipLRU := Evict(ips, ipLRU, cfg.maxIPs);
        ips := ips[k := Entry(Bucket(cfg.IpFull(), now), now)];
        ipLRU := [k] + ipLRU;
      }
    }

    method TouchAccount(account: string, now: int)
      requires Valid()
      modifies `accounts, `accountLRU
      ensures Valid()
      ensures Table(accounts, accountLRU) ==
              Touch(Table(old(accounts), old(accountLRU)), account, 0, now, cfg.maxAccounts)
    {
      TouchWellFormed(Table(accounts, accountLRU), account, 0, now, cfg.maxAccounts);
      if account in accounts {
        accounts := accounts[account := accounts[account].(lastAccess := now)];
        accountLRU := [account] + Without(accountLRU, account);
      } else {
        accounts, accountLRU := Evict(accounts, accountLRU, cfg.maxAccounts);
        accounts := accounts[account := Entry(0, now)];
        accountLRU := [account] + accountLRU;
      }
    }

    method AllowCall(ip: string, user: string, now: int) returns (d: Decision)
      requires Valid()
      modifies this
      ensures Valid() && (View(), d) == Allow(cfg, old(View()), ip, user, now)
    {
      hide WellFormed, Cleanup, Touch, Refill, FailureDelay, Trim, Lower;
      CleanUp(now);
      var k := Trim(ip);
      if k == "" { k := "unknown"; }
      var account := Lower(Trim(user), cfg.lower);
      global := Refill(global, cfg.GlobalFull(), now);
      TouchIp(k, now);
      ghost var touched := ips;
      var bucket := Refill(ips[k].value, cfg.IpFull(), now);
      SetValueWellFormed(Table(ips, ipLRU), k, bucket);
      ips := ips[k := ips[k].(value := bucket)];
      if global.credit < cfg.globalRefill || bucket.credit < cfg.ipRefill {
        var retryAfter := 0;
        if global.credit < cfg.globalRefill {
          retryAfter := TimeToToken(global.credit, cfg.globalRefill);
        }
        if bucket.credit < cfg.ipRefill {
          var ipRetry := TimeToToken(bucket.credit, cfg.ipRefill);
          if ipRetry > retryAfter { retryAfter := ipRetry; }
        }
        return Decision(false, 0, retryAfter);
      }
      global := global.(credit := global.credit - cfg.globalRefill);
      SetValueWellFormed(Table(ips, ipLRU), k, bucket.(credit := bucket.credit - cfg.ipRefill));
      ips := ips[k := ips[k].(value := bucket.(credit := bucket.credit - cfg.ipRefill))];
      assert ips == touched[k := touched[k].(value := bucket.(credit := bucket.credit - cfg.ipRefill))];
      TouchAccount(account, now);
      d := Decision(true, FailureDelay(accounts[account].value), 0);
    }

    method FailCall(user: string, now: int)
      requires Valid()
      modifies this
      ensures Valid() && View() == Fail(cfg, old(View()), user, now)
    {
      hide Trim, Lower, WellFormed, Touch;
      var account := Lower(Trim(user), cfg.lower);
      TouchAccount(account, now);
      if accounts[account].value < 1000 {
        SetValueWellFormed(Table(accounts, accountLRU), account, accounts[account].value + 1);
        accounts := accounts[account := accounts[account].(value := accounts[account].value + 1)];
      }
    }

    method SuccessCall(user: string)
      requires Valid()
      modifies this
      ensures Valid() && View() == Success(cfg, old(View()), user)
    {
      hide Trim, Lower;
      var account := Lower(Trim(user), cfg.lower);
      WithoutMembers(accountLRU, account);
      if account in accounts {
        accountLRU := Without(accountLRU, account);
        accounts := accounts - {account};
      }
    }
  }
}
