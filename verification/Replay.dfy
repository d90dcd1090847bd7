/** The request verifier of the action broker (internal/actionbroker/actionbroker.go): a skew window, a
signature and a nonce cache with a time limit and first-in-first-out eviction.

Parsing, base64 and HMAC are uninterpreted: they are the fields of `Crypto`.
*/
module Replay {
  import opened Base

  datatype Request = Request(timestamp: string, nonce: string, signature: string, body: string)

  /** `parse` reads the decimal timestamp, `decode` undoes base64 and `sign` is the decoded signature over
      timestamp, nonce and body. */
  datatype Crypto = Crypto(parse: string -> Option<int>, decode: string -> Option<seq<int>>,
                           sign: (string, string, string) -> seq<int>)

  const MAX_SKEW: int := 30 * SECOND
  const TTL: int := 2 * MINUTE
  const MAX_NONCES: int := 1024

  datatype Entry = Entry(value: string, at: int)

  datatype Failure = Malformed | BadNonce | Expired | BadSignature | Replayed

  // ---------- Which requests are accepted ----------

  /** Everything but the replay check. */
  predicate Authentic(c: Crypto, r: Request, now: int) {
    && c.parse(r.timestamp).Some? && r.nonce != "" && r.signature != ""
    && c.decode(r.nonce).Some? && |c.decode(r.nonce).value| == 16
    && now - MAX_SKEW <= c.parse(r.timestamp).value * SECOND <= now + MAX_SKEW
    && c.decode(r.signature) == Some(c.sign(r.timestamp, r.nonce, r.body))
  }

  /** The timestamp is a number, and nonce and signature are there. */
  predicate Parsed(c: Crypto, r: Request) {
    c.parse(r.timestamp) != None && r.nonce != "" && r.signature != ""
  }

  /** The nonce decodes to sixteen bytes, too. */
  ghost predicate Formed(c: Crypto, r: Request) {
    Parsed(c, r) && exists raw :: c.decode(r.nonce) == Some(raw) && |raw| == 16
  }

  /** The timestamp, in seconds, is at most thirty seconds off. */
  predicate InWindow(c: Crypto, r: Request, now: int) {
    match c.parse(r.timestamp)
    case None => false
    case Some(issued) => -30 * SECOND <= now - issued * SECOND <= 30 * SECOND
  }

  /** The signature is the one over timestamp, nonce and body. */
  predicate Signed(c: Crypto, r: Request) {
    c.decode(r.signature) == Some(c.sign(r.timestamp, r.nonce, r.body))
  }

  /** What authentic means: formed, in its window and signed. */
  lemma {:induction false} AuthenticIff(c: Crypto, r: Request, now: int)
    ensures Authentic(c, r, now) <==> Formed(c, r) && InWindow(c, r, now) && Signed(c, r)
  {
  }

  /** A nonce is remembered while its last acceptance is at most TTL old and was followed by fewer than
      MAX_NONCES other acceptances. */
  ghost predicate Remembered(accepted: seq<Entry>, nonce: string, now: int) {
    exists i ::
      && 0 <= i < |accepted|
      && accepted[i].value == nonce
      && now - accepted[i].at <= TTL
      && |accepted| - i <= MAX_NONCES
  }

  ghost predicate Accepts(c: Crypto, accepted: seq<Entry>, r: Request, now: int) {
    Authentic(c, r, now) && !Remembered(accepted, r.nonce, now)
  }

  ghost predicate Ordered(accepted: seq<Entry>, now: int) {
    && (forall i, j :: 0 <= i <= j < |accepted| ==> accepted[i].at <= accepted[j].at)
    && (forall i :: 0 <= i < |accepted| ==> accepted[i].at <= now)
  }

  /** The cache holds the acceptances from m on, and what it dropped was too old or too far back. */
  ghost predicate CacheOf(accepted: seq<Entry>, m: nat, order: seq<Entry>, clock: int) {
    && m <= |accepted|
    && order == accepted[m..]
    && |order| <= MAX_NONCES
    && (forall i :: 0 <= i < m ==> clock - accepted[i].at > TTL || |accepted| - i > MAX_NONCES)
  }

  /** The nonce map and the order list hold the same nonces with the same times, without duplicates. */
  ghost predicate Consistent(nonces: map<string, int>, order: seq<Entry>) {
    && (forall i, j :: 0 <= i < j < |order| ==> order[i].value != order[j].value)
    && (forall i :: 0 <= i < |order| ==> order[i].value in nonces && nonces[order[i].value] == order[i].at)
    && (forall k :: k in nonces ==> exists i :: 0 <= i < |order| && order[i].value == k)
  }

  lemma {:induction false} DropFirst(nonces: map<string, int>, order: seq<Entry>)
    requires order != [] && Consistent(nonces, order)
    ensures Consistent(nonces - {order[0].value}, order[1..])
  {
    forall k | k in nonces - {order[0].value} ensures exists i :: 0 <= i < |order[1..]| && order[1..][i].value == k {
      var i :| 0 <= i < |order| && order[i].value == k;
      assert order[1..][i - 1].value == k;
    }
  }

  lemma {:induction false} Append(nonces: map<string, int>, order: seq<Entry>, nonce: string, now: int)
    requires Consistent(nonces, order) && nonce !in nonces
    ensures Consistent(nonces[nonce := now], order + [Entry(nonce, now)])
  {
    var longer := order + [Entry(nonce, now)];
    var more := nonces[nonce := now];
    forall k | k in more ensures exists i :: 0 <= i < |longer| && longer[i].value == k {
      if k == nonce {
        assert longer[|order|].value == k;
      } else {
        var i :| 0 <= i < |order| && order[i].value == k;
        assert longer[i].value == k;
      }
    }
  }

  // ---------- The verifier ----------

  class Verifier {
    const crypto: Crypto
    var nonces: map<string, int>
    var order: seq<Entry>
    ghost var accepted: seq<Entry>
    ghost var dropped: nat
    ghost var clock: int

    /** The map and the list agree, without duplicates, and are what the history calls for. */
    ghost predicate Valid()
      reads this
    {
      && CacheOf(accepted, dropped, order, clock)
      && Ordered(accepted, clock)
      && Consistent(nonces, order)
    }

    constructor (c: Crypto, now: int)
      ensures Valid() && crypto == c && accepted == [] && clock == now
    {
      crypto := c;
      nonces, order := map[], [];
      accepted, dropped, clock := [], 0, now;
    }

    method Verify(r: Request, now: int) returns (failure: Option<Failure>)
      requires Valid() && clock <= now
      modifies this
      ensures Valid() && clock == now
      ensures failure.None? <==> Accepts(crypto, old(accepted), r, now)
      ensures failure == Some(Replayed) <==> Authentic(crypto, r, now) && Remembered(old(accepted), r.nonce, now)
      ensures failure == Some(BadSignature) <==>
                Formed(crypto, r) && InWindow(crypto, r, now) && !Signed(crypto, r)
      ensures failure == Some(Expired) <==> Formed(crypto, r) && !InWindow(crypto, r, now)
      ensures failure == Some(BadNonce) <==>
                Parsed(crypto, r) && !exists raw :: crypto.decode(r.nonce) == Some(raw) && |raw| == 16
      ensures failure == Some(Malformed) <==> !Parsed(crypto, r)
      ensures accepted == if failure.None? then old(accepted) + [Entry(r.nonce, now)] else old(accepted)
    {
      ClockMoves(accepted, dropped, order, clock, now);
      hide CacheOf, Ordered, Consistent, Remembered;
      var issued := crypto.parse(r.timestamp);
      if issued.None? || r.nonce == "" || r.signature == "" {
        clock := now;
        return Some(Malformed);
      }
      var nonceRaw := crypto.decode(r.nonce);
      if nonceRaw.None? || |nonceRaw.value| != 16 {
        clock := now;
        return Some(BadNonce);
      }
      if issued.value * SECOND < now - MAX_SKEW || issued.value * SECOND > now + MAX_SKEW {
        clock := now;
        return Some(Expired);
      }
      var provided := crypto.decode(r.signature);
      if provided.None? || provided.value != crypto.sign(r.timestamp, r.nonce, r.body) {
        clock := now;
        return Some(BadSignature);
      }
      var ok := Remember(r.nonce, now);
      failure := if ok then None else Some(Replayed);
    }

    method Remember(nonce: string, now: int) returns (ok: bool)
      requires Valid() && clock <= now
      modifies this
      ensures Valid() && clock == now
      ensures ok <==> !Remembered(old(accepted), nonce, now)
      ensures accepted == if ok then old(accepted) + [Entry(nonce, now)] else old(accepted)
    {
      Purge(now);
      ghost var start: nat := dropped;
      assert |order| <= MAX_NONCES;
      RememberedIffCached(accepted, dropped, order, nonces, nonce, now);
      if nonce in nonces {
        return false;
      }
      hide Consistent, Remembered, CacheOf, Ordered;
      ghost var was := order;
      ghost var first: nat := 0;
      assert was[0..] == was;
      while |order| >= MAX_NONCES
        invariant accepted == old(accepted) && clock == now && dropped == start
        invariant first <= |was| && order == was[first..]
        invariant first == 0 || (first == 1 && |was| == MAX_NONCES)
        invariant Consistent(nonces, order) && nonce !in nonces
      {
        DropFirst(nonces, order);
        var oldest := order[0];
        order := order[1..];
        nonces := nonces - {oldest.value};
        first := first + 1;
      }
      Append(nonces, order, nonce, now);
      AppendedCache(accepted, dropped, was, first, Entry(nonce, now));
      dropped := start + first;
      nonces := nonces[nonce := now];
      order := order + [Entry(nonce, now)];
      accepted := accepted + [Entry(nonce, now)];
      ok := true;
    }

    /** Drop what is older than the time limit; the list is ordered, so that is its front. */
    method Purge(now: int)
      requires Valid() && clock <= now
      modifies `nonces, `order, `dropped, `clock
      ensures Valid() && clock == now
      ensures forall i :: 0 <= i < |order| ==> now - order[i].at <= TTL
    {
      OrderedSuffix(accepted, dropped, clock);
      hide CacheOf, Ordered, Consistent, Sorted;
      ghost var first: nat;
      ghost var was := order;
      nonces, order, first := Fresh(nonces, order, now - TTL);
      PurgedCache(accepted, dropped, was, clock, first, now);
      dropped := dropped + first;
      clock := now;
    }

    /** Keep the entries that are not older than the cutoff. */
    static method Fresh(nonces: map<string, int>, order: seq<Entry>, cutoff: int)
      returns (nonces': map<string, int>, keep: seq<Entry>, ghost first: nat)
      requires Consistent(nonces, order) && Sorted(order)
      ensures first <= |order| && keep == order[first..] && Consistent(nonces', keep)
      ensures forall i :: 0 <= i < first ==> order[i].at < cutoff
      ensures forall i :: 0 <= i < |keep| ==> keep[i].at >= cutoff
    {
      hide Consistent, Sorted;
      nonces', keep, first := nonces, [], 0;
      assert order[0..] == order;
      for n := 0 to |order|
        invariant first <= n && keep == order[first..n]
        invariant forall i :: 0 <= i < first ==> order[i].at < cutoff
        invariant forall i :: first <= i < n ==> order[i].at >= cutoff
        invariant Consistent(nonces', order[first..])
      {
        if order[n].at < cutoff {
          StaleIsFirst(order, first, n, cutoff);
          DropFirst(nonces', order[first..]);
          assert order[first..][1..] == order[first + 1..];
          nonces' := nonces' - {order[n].value};
          first := first + 1;
        } else {
          keep := keep + [order[n]];
        }
      }
    }
  }

  lemma {:induction false} ClockMoves(accepted: seq<Entry>, m: nat, order: seq<Entry>, clock: int, now: int)
    requires CacheOf(accepted, m, order, clock) && Ordered(accepted, clock) && clock <= now
    ensures CacheOf(accepted, m, order, now) && Ordered(accepted, now)
  {
  }

  lemma {:induction false} OrderedSuffix(accepted: seq<Entry>, m: nat, clock: int)
    requires m <= |accepted| && Ordered(accepted, clock)
    ensures Sorted(accepted[m..])
  {
  }

  ghost predicate Sorted(order: seq<Entry>) {
    forall i, j :: 0 <= i <= j < |order| ==> order[i].at <= order[j].at
  }

  lemma {:induction false} StaleIsFirst(order: seq<Entry>, first: nat, n: nat, cutoff: int)
    requires Sorted(order) && first <= n < |order| && order[n].at < cutoff
    requires forall i :: first <= i < n ==> order[i].at >= cutoff
    ensures first == n
  {
    assert order[first].at <= order[n].at;
  }

  lemma {:induction false} PurgedCache(accepted: seq<Entry>, m: nat, order: seq<Entry>, clock: int, first: nat,
                                       now: int)
    requires CacheOf(accepted, m, order, clock) && clock <= now && Ordered(accepted, clock)
    requires first <= |order| && forall i :: 0 <= i < first ==> order[i].at < now - TTL
    ensures CacheOf(accepted, m + first, order[first..], now) && Ordered(accepted, now)
  {
    forall i | 0 <= i < m + first ensures now - accepted[i].at > TTL || |accepted| - i > MAX_NONCES {
      if i >= m {
        assert order[i - m] == accepted[i];
      }
    }
  }

  lemma {:induction false} AppendedCache(accepted: seq<Entry>, m: nat, order: seq<Entry>, first: nat, e: Entry)
    requires CacheOf(accepted, m, order, e.at) && Ordered(accepted, e.at)
    requires first == (if |order| >= MAX_NONCES then 1 else 0)
    ensures CacheOf(accepted + [e], m + first, order[first..] + [e], e.at) && Ordered(accepted + [e], e.at)
  {
  }

  lemma {:induction false} RememberedIffCached(accepted: seq<Entry>, m: nat, order: seq<Entry>,
                                               nonces: map<string, int>, nonce: string, now: int)
    requires Consistent(nonces, order) && CacheOf(accepted, m, order, now)
    requires forall i :: 0 <= i < |order| ==> now - order[i].at <= TTL
    ensures Remembered(accepted, nonce, now) <==> nonce in nonces
  {
    if nonce in nonces {
      var i :| 0 <= i < |order| && order[i].value == nonce;
      assert accepted[m + i] == order[i];
    }
    if Remembered(accepted, nonce, now) {
      var i :| 0 <= i < |accepted| && accepted[i].value == nonce && now - accepted[i].at <= TTL
               && |accepted| - i <= MAX_NONCES;
      assert order[i - m].value == nonce;
    }
  }

  // ---------- Whole runs ----------

  datatype Arrival = Arrival(request: Request, now: int)

  ghost predicate Timed(run: seq<Arrival>) {
    forall i, j :: 0 <= i <= j < |run| ==> run[i].now <= run[j].now
  }

  /** The acceptances a run leads to. */
  ghost function History(c: Crypto, run: seq<Arrival>): seq<Entry> {
    if run == [] then []
    else
      var last := run[|run| - 1];
      var before := History(c, run[..|run| - 1]);
      if Accepts(c, before, last.request, last.now) then before + [Entry(last.request.nonce, last.now)] else before
  }

  ghost predicate AcceptedAt(c: Crypto, run: seq<Arrival>, i: int) {
    0 <= i < |run| && Accepts(c, History(c, run[..i]), run[i].request, run[i].now)
  }

  lemma {:induction false} HistoryGrows(c: Crypto, run: seq<Arrival>, i: nat)
    requires i <= |run|
    ensures History(c, run[..i]) <= History(c, run)
    decreases |run| - i
  {
    if i == |run| {
      assert run[..i] == run;
    } else {
      assert run[..i + 1][..i] == run[..i];
      HistoryGrows(c, run, i + 1);
    }
  }

  /** If one signed timestamp and nonce are accepted twice, then the two acceptances are at most 60 seconds
      apart and at least 1024 other requests were accepted between them. */
  lemma {:induction false} ReplayNeedsEviction(c: Crypto, run: seq<Arrival>, i: nat, j: nat)
    requires Timed(run) && i < j && AcceptedAt(c, run, i) && AcceptedAt(c, run, j)
    requires run[i].request.nonce == run[j].request.nonce
    requires run[i].request.timestamp == run[j].request.timestamp
    ensures run[j].now - run[i].now <= 2 * MAX_SKEW
    ensures |History(c, run[..j])| - |History(c, run[..i + 1])| >= 1024
  {
    var before := History(c, run[..i]);
    assert run[..i + 1][..i] == run[..i];
    assert History(c, run[..i + 1]) == before + [Entry(run[i].request.nonce, run[i].now)];
    assert run[..j][..i + 1] == run[..i + 1];
    HistoryGrows(c, run[..j], i + 1);
    assert History(c, run[..j])[|before|] == Entry(run[i].request.nonce, run[i].now);
  }

  /** The condition is exact: repeating an accepted request inside its window succeeds if and only if at least
      1024 requests were accepted since its nonce was last accepted, in this request or in another. */
  lemma {:induction false} ReplayAcceptedIff(c: Crypto, run: seq<Arrival>, i: nat, j: nat)
    requires Timed(run) && i < j < |run| && AcceptedAt(c, run, i)
    requires run[j].request == run[i].request && Authentic(c, run[j].request, run[j].now)
    requires forall k :: |History(c, run[..i])| < k < |History(c, run[..j])| ==>
               History(c, run[..j])[k].value != run[i].request.nonce
    ensures AcceptedAt(c, run, j) <==> |History(c, run[..j])| - |History(c, run[..i + 1])| >= 1024
  {
    NonceReusedIff(c, run, i, j);
    AuthenticIff(c, run[i].request, run[i].now);
    AuthenticIff(c, run[j].request, run[j].now);
    hide History, Remembered, Authentic, Timed, Formed, Signed;
    assert run[j].now - run[i].now <= 60 * SECOND;
  }

  /** A nonce that was accepted is refused for two minutes, in whatever request, unless 1024 acceptances follow. */
  lemma {:induction false} NonceReusedIff(c: Crypto, run: seq<Arrival>, i: nat, j: nat)
    requires Timed(run) && i < j < |run| && AcceptedAt(c, run, i)
    requires run[j].request.nonce == run[i].request.nonce && Authentic(c, run[j].request, run[j].now)
    requires forall k :: |History(c, run[..i])| < k < |History(c, run[..j])| ==>
               History(c, run[..j])[k].value != run[i].request.nonce
    ensures AcceptedAt(c, run, j) <==>
            run[j].now - run[i].now > 120 * SECOND ||
            |History(c, run[..j])| - |History(c, run[..i + 1])| >= 1024
  {
    var before, later := History(c, run[..i]), History(c, run[..j]);
    assert run[..i + 1][..i] == run[..i];
    assert History(c, run[..i + 1]) == before + [Entry(run[i].request.nonce, run[i].now)];
    assert run[..j][..i + 1] == run[..i + 1];
    HistoryGrows(c, run[..j], i + 1);
    HistoryIsOrdered(c, run[..j]);
    assert later[|before|] == Entry(run[i].request.nonce, run[i].now);
    hide History, Authentic, Timed;
    OlderAreForgotten(later, |before|, run[i].request.nonce, run[j].now);
  }

  lemma {:induction false} HistoryIsOrdered(c: Crypto, run: seq<Arrival>)
    requires Timed(run)
    ensures Sorted(History(c, run))
    ensures forall k :: 0 <= k < |History(c, run)| ==> History(c, run)[k].at <= run[|run| - 1].now
  {
    hide Accepts;
    if run != [] {
      HistoryIsOrdered(c, run[..|run| - 1]);
    }
  }

  /** Only the newest acceptance of a nonce decides whether it is remembered. */
  lemma {:induction false} OlderAreForgotten(accepted: seq<Entry>, i: nat, nonce: string, now: int)
    requires i < |accepted| && accepted[i].value == nonce && Sorted(accepted)
    requires forall k :: i < k < |accepted| ==> accepted[k].value != nonce
    ensures Remembered(accepted, nonce, now) <==> now - accepted[i].at <= 120 * SECOND && |accepted| - i <= 1024
  {
  }

  /** Nothing is accepted in any run unless it is well formed, in its window and signed over its timestamp, nonce and
      body. */
  lemma {:induction false} OnlySignedRequests(c: Crypto, run: seq<Arrival>, i: nat)
    requires AcceptedAt(c, run, i)
    ensures var r := run[i].request; Formed(c, r) && InWindow(c, r, run[i].now) && Signed(c, r)
  {
    AuthenticIff(c, run[i].request, run[i].now);
    hide Authentic, Formed, InWindow, Signed, History;
  }

  /** In a run with at most 1024 acceptances no signed request is accepted twice. */
  lemma {:induction false} NoReplayInShortRuns(c: Crypto, run: seq<Arrival>, i: nat, j: nat)
    requires Timed(run) && |History(c, run)| <= 1024
    requires i < j && AcceptedAt(c, run, i) && AcceptedAt(c, run, j)
    ensures run[i].request.nonce != run[j].request.nonce || run[i].request.timestamp != run[j].request.timestamp
  {
    HistoryGrows(c, run, j);
    assert run[..j + 1][..j] == run[..j] && run[..i + 1][..i] == run[..i];
    assert |History(c, run[..i + 1])| >= 1;
    if run[i].request.nonce == run[j].request.nonce && run[i].request.timestamp == run[j].request.timestamp {
      ReplayNeedsEviction(c, run, i, j);
    }
  }

  // ---------- A replay ----------

  /** Authentic requests with different nonces. */
  ghost predicate Flood(c: Crypto, run: seq<Arrival>) {
    && (forall i :: 0 <= i < |run| ==> Authentic(c, run[i].request, run[i].now))
    && (forall i, j :: 0 <= i < j < |run| ==> run[i].request.nonce != run[j].request.nonce)
  }

  function EntryOf(a: Arrival): Entry {
    Entry(a.request.nonce, a.now)
  }

  /** All of them are accepted. */
  lemma {:induction false} FloodHistory(c: Crypto, run: seq<Arrival>)
    requires Flood(c, run)
    ensures |History(c, run)| == |run|
    ensures forall i :: 0 <= i < |run| ==> History(c, run)[i] == EntryOf(run[i])
  {
    hide Authentic;
    if run != [] {
      var n := |run| - 1;
      var h := History(c, run[..n]);
      FloodHistory(c, run[..n]);
      assert forall i :: 0 <= i < n ==> h[i].value == run[i].request.nonce != run[n].request.nonce;
      assert !Remembered(h, run[n].request.nonce, run[n].now);
    }
  }

  /** It does happen, with any signatures and nonces: after 1025 authentic requests with different nonces the first
      one is accepted again for as long as it is in its window. */
  lemma {:induction false} ReplayAfterFlood(c: Crypto, flood: seq<Arrival>, again: int)
    requires Timed(flood) && Flood(c, flood) && |flood| > 1024
    requires flood[|flood| - 1].now <= again && Authentic(c, flood[0].request, again)
    ensures var run := flood + [Arrival(flood[0].request, again)];
            Timed(run) && AcceptedAt(c, run, 0) && AcceptedAt(c, run, |flood|)
  {
    var j := |flood|;
    var run := flood + [Arrival(flood[0].request, again)];
    FloodHistory(c, flood);
    assert run[..j] == flood && run[..0] == [] && run[..1] == [flood[0]] && [flood[0]][..0] == [];
    assert History(c, []) == [];
    assert Accepts(c, [], flood[0].request, flood[0].now);
    assert History(c, [flood[0]]) == [EntryOf(flood[0])];
    hide History, Remembered, Authentic;
    assert AcceptedAt(c, run, 0);
    ReplayAcceptedIff(c, run, 0, j);
  }
}
