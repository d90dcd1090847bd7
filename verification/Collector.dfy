/** The collector of cmd/controller/main.go: one pass of collectRewards over the store, with the local scan,
its validation, the confirmation of anomalies by external nodes and the retry backoff. */
module Collector {
  import opened Base
  import opened Scan
  import opened Ledger
  import opened LedgerRuns
  import CatchUp

  /** Everything a pass reads from outside: the clock, the finalized height and the scan answered by the host
      agent, the one-block scans answered by each external node, and the outcomes of the database calls. */
  datatype PassInput = PassInput(now: int, local: Option<int>, loadOk: bool, answer: Option<RewardScan>,
                                 externals: seq<map<int, RewardScan>>, io: TxIo, stats: bool, effect: bool)

  const SCAN_INTERVAL: int := 15 * SECOND

  function Pow2(n: nat): nat {
    if n == 0 then 1 else 2 * Pow2(n - 1)
  }

  function RewardScanRetryBackoff(failures: int): int {
    var n := if failures < 1 then 1 else failures;
    Min(SCAN_INTERVAL * Pow2(Min(n - 1, 5)), 5 * MINUTE)
  }

  /** The wait starts at fifteen seconds and doubles with every failure, up to five minutes. */
  lemma {:induction false} BackoffDoubles(failures: int)
    ensures failures <= 1 ==> RewardScanRetryBackoff(failures) == 15 * SECOND
    ensures failures >= 1 ==>
              RewardScanRetryBackoff(failures + 1) == Min(2 * RewardScanRetryBackoff(failures), 300 * SECOND)
  {
    assert Pow2(0) == 1 && Pow2(1) == 2 && Pow2(2) == 4 && Pow2(3) == 8 && Pow2(4) == 16 && Pow2(5) == 32;
  }

  predicate Anomalous(o: Observation) {
    o.verification == Insufficient || o.verification == PotEmpty
  }

  /** An external node saw the same: same block hash, amounts and verdict. */
  predicate Agrees(external: map<int, RewardScan>, o: Observation) {
    && o.block in external
    && |external[o.block].observations| == 1
    && var x := external[o.block].observations[0];
       x.hash == o.hash && x.expected == o.expected && x.credited == o.credited && x.verification == o.verification
  }

  function Matches(externals: seq<map<int, RewardScan>>, o: Observation): nat {
    if externals == [] then 0
    else
      var n := |externals| - 1;
      Matches(externals[..n], o) + (if Agrees(externals[n], o) then 1 else 0)
  }

  /** The external nodes that answered exactly one observation of the block, with the same hash, amounts and verdict. */
  function Witnesses(externals: seq<map<int, RewardScan>>, o: Observation): set<int> {
    set i | 0 <= i < |externals| && o.block in externals[i] && |externals[i][o.block].observations| == 1
            && var x := externals[i][o.block].observations[0];
               (x.hash, x.expected, x.credited, x.verification) == (o.hash, o.expected, o.credited, o.verification)
  }

  lemma {:induction false} MatchesWitnesses(externals: seq<map<int, RewardScan>>, o: Observation)
    ensures Matches(externals, o) == |Witnesses(externals, o)|
  {
    if externals != [] {
      var n := |externals| - 1;
      MatchesWitnesses(externals[..n], o);
      var rest := Witnesses(externals[..n], o);
      assert forall i :: 0 <= i < n ==> externals[..n][i] == externals[i];
      assert Witnesses(externals, o) == rest + if Agrees(externals[n], o) then {n} else {};
    }
  }

  function ConfirmAll(s: seq<Observation>, externals: seq<map<int, RewardScan>>): (r: seq<Observation>)
    ensures |r| == |s|
  {
    if s == [] then []
    else
      var o := s[|s| - 1];
      ConfirmAll(s[..|s| - 1], externals) +
      [if Anomalous(o) then o.(sources := o.sources + Matches(externals, o)) else o]
  }

  /** The confirmations of a scan by block. */
  function Confirmations(s: seq<Observation>, externals: seq<map<int, RewardScan>>): map<int, nat> {
    if s == [] then map[]
    else Confirmations(s[..|s| - 1], externals)[s[|s| - 1].block := Matches(externals, s[|s| - 1])]
  }

  lemma {:induction false} ConfirmationAt(s: seq<Observation>, externals: seq<map<int, RewardScan>>, i: nat)
    requires DistinctBlocks(s) && i < |s|
    ensures s[i].block in Confirmations(s, externals)
    ensures Confirmations(s, externals)[s[i].block] == Matches(externals, s[i])
    ensures ConfirmAll(s, externals)[i] ==
            if Anomalous(s[i]) then s[i].(sources := s[i].sources + Matches(externals, s[i])) else s[i]
  {
    var n := |s| - 1;
    if i < n {
      assert s[i].block != s[n].block;
      ConfirmationAt(s[..n], externals, i);
    }
  }

  lemma {:induction false} ConfirmAllIsConfirmed(s: seq<Observation>, externals: seq<map<int, RewardScan>>)
    requires DistinctBlocks(s)
    ensures AllConfirmed(s, Confirmations(s, externals)) == ConfirmAll(s, externals)
  {
    ConfirmedBlocks(s, Confirmations(s, externals));
    forall i | 0 <= i < |s|
      ensures AllConfirmed(s, Confirmations(s, externals))[i] == ConfirmAll(s, externals)[i]
    {
      ConfirmationAt(s, externals, i);
    }
  }

  // ---------- Specification of a pass ----------

  ghost function OutcomeOf(previous: Overview, input: PassInput, notBefore: Option<int>): Outcome
    requires input.local.Some?
  {
    var from, end := previous.lastScanned + 1, RewardScanEnd(previous.lastScanned, input.local.value);
    if notBefore.Some? && input.now < notBefore.value then NotDue
    else if input.answer.None? || !ValidLocal(input.answer.value, from, end) then ScanFailed
    else Scanned(Confirmations(input.answer.value.observations, input.externals), input.io)
  }

  ghost function PassOutcome(db: Database, input: PassInput, notBefore: Option<int>): Outcome {
    if input.local.None? then NotDue else OutcomeOf(Previous(db, input.local), input, notBefore)
  }

  /** The observations the node answered with. */
  function Answered(input: PassInput): seq<Observation> {
    if input.answer.None? then [] else input.answer.value.observations
  }

  /** What a pass does to the tables, whatever was answered. */
  ghost function PassOn(db: Database, input: PassInput, notBefore: Option<int>): Database {
    if !input.loadOk then db
    else
      var (after, next) := WorkOn(db, Previous(db, input.local), input.local, PassOutcome(db, input, notBefore),
                                  Answered(input));
      if input.effect then Saved(after, WithStats(after, next, input.stats)) else after
  }

  /** What a pass does if the node told the truth. */
  ghost function Pass(c: Chain, db: Database, input: PassInput, notBefore: Option<int>): Database {
    if !input.loadOk then db
    else
      var (after, next) := Work(c, db, Previous(db, input.local), input.local, PassOutcome(db, input, notBefore));
      if input.effect then Saved(after, WithStats(after, next, input.stats)) else after
  }

  /** A scan answer that passes validation is the truth about its range. */
  ghost predicate AnswerTrue(c: Chain, db: Database, input: PassInput) {
    input.local.Some? && input.answer.Some? ==>
      var p := Previous(db, input.local).lastScanned;
      ValidLocal(input.answer.value, p + 1, RewardScanEnd(p, input.local.value)) ==>
        Exact(c, "local", p + 1, RewardScanEnd(p, input.local.value), input.answer.value)
  }

  /** If what passed the validation is the truth, the pass records the truth. */
  lemma {:induction false} TruthRecorded(c: Chain, db: Database, input: PassInput, notBefore: Option<int>)
    requires AnswerTrue(c, db, input)
    ensures PassOn(db, input, notBefore) == Pass(c, db, input, notBefore)
  {
    hide ValidLocal, Apply, AllConfirmed, Due, WithStats, RewardScanEnd, Confirmations;
  }

  /** The first pass over an empty database stores the finalized height as its cursor, or zero if it is not known, and
      scans nothing; a pass over a cursor that is not positive does the same. */
  lemma {:induction false} FirstPass(db: Database, input: PassInput, notBefore: Option<int>)
    requires input.loadOk && input.effect
    requires db.monitor == None || db.monitor.value.payload.lastScanned == 0
    ensures var after := PassOn(db, input, notBefore);
            var height := if input.local == None then 0 else input.local.value;
            && after.rows == db.rows && after.audits == db.audits && after.monitor != None
            && after.monitor.value.column == height == after.monitor.value.payload.lastScanned
            && (input.local != None ==> after.monitor.value.payload.finalized == height)
            && (db.monitor == None && input.local == None ==> after.monitor.value.payload.finalized == 0)
            && (input.stats ==> after.monitor.value.payload.count == |db.rows|
                                && after.monitor.value.payload.total == Total(db.rows))
            && (!input.stats && db.monitor == None ==>
                  after.monitor.value.payload.count == 0 == after.monitor.value.payload.total)
  {
    hide PassOutcome, Answered;
  }

  /** A pass whose load or save fails does not touch what it would have loaded or saved, and any other pass stores an
      overview with both cursors alike, the finalized height it knows and the totals it counted. */
  lemma {:induction false} PassSaves(db: Database, input: PassInput, notBefore: Option<int>)
    ensures var after := PassOn(db, input, notBefore);
            && (!input.loadOk ==> after == db)
            && (input.loadOk && input.effect ==>
                  && after.monitor != None
                  && var overview := after.monitor.value.payload;
                     && after.monitor.value.column == overview.lastScanned
                     && (input.local != None ==> overview.finalized == input.local.value)
                     && (input.stats ==> overview.count == |after.rows| && overview.total == Total(after.rows)))
  {
    hide PassOutcome, Apply, RewardScanEnd;
  }

  /** A pass is the three steps of the protocol, taken without interruption by the holder of the mutex. */
  lemma {:induction false} PassIsRun(c: Chain, s: System, w: int, input: PassInput, notBefore: Option<int>)
    requires CatchUp.Free(s, w)
    ensures Exec(c, true, s, [Begin(w, input.local, input.loadOk), Event.Scan(w, PassOutcome(s.db, input, notBefore)),
                              Save(w, input.stats, input.effect)]).db
            == Pass(c, s.db, input, notBefore)
  {
    var begin := Begin(w, input.local, input.loadOk);
    var scan := Event.Scan(w, PassOutcome(s.db, input, notBefore));
    CatchUp.ExecThree(c, true, s, begin, scan, Save(w, input.stats, input.effect));
    hide Exec, PassOutcome, Work, WithStats;
    var s1 := Next(c, true, s, begin);
    if input.loadOk {
      assert PhaseOf(s1, w) == Loaded(Previous(s.db, input.local), input.local);
      var (after, next) := Work(c, s.db, Previous(s.db, input.local), input.local, PassOutcome(s.db, input, notBefore));
      assert PhaseOf(Next(c, true, s1, scan), w) == Saving(next);
    }
  }

  // ---------- When the collector asks again ----------

  /** The tables, the instant before which no scan is asked for, and the failures counted. */
  datatype Standing = Standing(db: Database, notBefore: Option<int>, failures: nat)

  /** The pass asks for a scan. */
  predicate Asks(s: Standing, input: PassInput) {
    && input.loadOk && ScanIsDue(Previous(s.db, input.local), input.local)
    && (s.notBefore.None? || input.now >= s.notBefore.value)
  }

  /** It does so exactly if the overview was loaded, the finalized height is known and above a positive stored cursor,
      and the wait is over. */
  lemma {:induction false} AsksIff(s: Standing, input: PassInput)
    ensures Asks(s, input) <==>
            && input.loadOk && input.local != None && s.db.monitor != None
            && 0 < s.db.monitor.value.payload.lastScanned < input.local.value
            && !(s.notBefore != None && input.now < s.notBefore.value)
  {
  }

  /** The overview the scan part of a pass leaves. */
  ghost function ScannedTo(s: Standing, input: PassInput): Overview {
    WorkOn(s.db, Previous(s.db, input.local), input.local, PassOutcome(s.db, input, s.notBefore), Answered(input)).1
  }

  /** The pass asks for a scan, and its chunk is committed and confirmed. */
  ghost predicate Advances(s: Standing, input: PassInput) {
    Asks(s, input) && ScannedTo(s, input).lastScanned != Previous(s.db, input.local).lastScanned
  }

  ghost function AfterPass(s: Standing, input: PassInput): Standing {
    var db := PassOn(s.db, input, s.notBefore);
    if !Asks(s, input) then s.(db := db)
    else if Advances(s, input) then Standing(db, Some(input.now + SCAN_INTERVAL), 0)
    else Standing(db, Some(input.now + RewardScanRetryBackoff(s.failures + 1)), s.failures + 1)
  }

  ghost function AfterPasses(s: Standing, run: seq<PassInput>): Standing {
    if run == [] then s else AfterPass(AfterPasses(s, run[..|run| - 1]), run[|run| - 1])
  }

  ghost predicate AsksAt(s: Standing, run: seq<PassInput>, i: int) {
    0 <= i < |run| && Asks(AfterPasses(s, run[..i]), run[i])
  }

  ghost predicate AdvancesAt(s: Standing, run: seq<PassInput>, i: int) {
    0 <= i < |run| && Advances(AfterPasses(s, run[..i]), run[i])
  }

  lemma {:induction false} AsksBefore(s: Standing, run: seq<PassInput>, m: nat, i: int)
    requires i < m <= |run|
    ensures AsksAt(s, run[..m], i) <==> AsksAt(s, run, i)
    ensures AdvancesAt(s, run[..m], i) <==> AdvancesAt(s, run, i)
  {
    hide Asks, Advances;
    if i >= 0 {
      assert run[..m][..i] == run[..i];
    }
  }

  /** The failures counted are the scans asked for since the last one that was committed and confirmed. */
  lemma {:induction false} FailuresSinceSuccess(s: Standing, run: seq<PassInput>, n: nat)
    requires n <= |run| && (n > 0 ==> AdvancesAt(s, run, n - 1))
    requires forall i :: n <= i < |run| ==> !AdvancesAt(s, run, i)
    ensures AfterPasses(s, run).failures ==
            (if n == 0 then s.failures else 0) + |set i | n <= i < |run| && AsksAt(s, run, i)|
    decreases |run|
  {
    hide AsksAt, AdvancesAt, AfterPasses;
    if n == |run| {
      assert (set i | n <= i < |run| && AsksAt(s, run, i)) == {};
      if n > 0 {
        SuccessResets(s, run);
      } else {
        NoPasses(s);
      }
    } else {
      var m := |run| - 1;
      forall i | i < m ensures AsksAt(s, run[..m], i) == AsksAt(s, run, i) &&
                               AdvancesAt(s, run[..m], i) == AdvancesAt(s, run, i)
      {
        AsksBefore(s, run, m, i);
      }
      FailuresSinceSuccess(s, run[..m], n);
      NoSuccessCounts(s, run);
      OneMoreAsked(s, run, n);
    }
  }

  lemma {:induction false} NoPasses(s: Standing)
    ensures AfterPasses(s, []) == s
  {
  }

  lemma {:induction false} OneMoreAsked(s: Standing, run: seq<PassInput>, n: nat)
    requires n < |run| && forall i :: i < |run| - 1 ==> AsksAt(s, run[..|run| - 1], i) == AsksAt(s, run, i)
    ensures var m := |run| - 1;
            |set i | n <= i < |run| && AsksAt(s, run, i)| ==
            |set i | n <= i < m && AsksAt(s, run[..m], i)| + if AsksAt(s, run, m) then 1 else 0
  {
    hide AsksAt;
    var m := |run| - 1;
    var before := set i | n <= i < m && AsksAt(s, run[..m], i);
    assert (set i | n <= i < |run| && AsksAt(s, run, i)) == before + if AsksAt(s, run, m) then {m} else {};
  }

  lemma {:induction false} SuccessResets(s: Standing, run: seq<PassInput>)
    requires run != [] && AdvancesAt(s, run, |run| - 1)
    ensures AfterPasses(s, run).failures == 0
    ensures AfterPasses(s, run).notBefore == Some(run[|run| - 1].now + 15 * SECOND)
  {
    hide Asks, ScannedTo, PassOn;
  }

  lemma {:induction false} NoSuccessCounts(s: Standing, run: seq<PassInput>)
    requires run != [] && !AdvancesAt(s, run, |run| - 1)
    ensures var before, after := AfterPasses(s, run[..|run| - 1]), AfterPasses(s, run);
            && after.failures == before.failures + (if AsksAt(s, run, |run| - 1) then 1 else 0)
            && after.notBefore == if AsksAt(s, run, |run| - 1)
                                  then Some(run[|run| - 1].now + RewardScanRetryBackoff(after.failures))
                                  else before.notBefore
  {
    hide Asks, ScannedTo, PassOn, RewardScanRetryBackoff;
  }

  /** Between a scan that was asked for and the next one lies the interval if it was committed and confirmed, and
      otherwise the wait for as many failures as were counted. */
  lemma {:induction false} AsksAreSpaced(s: Standing, run: seq<PassInput>, i: nat, j: nat)
    requires i < j && AsksAt(s, run, i) && AsksAt(s, run, j) && forall k :: i < k < j ==> !AsksAt(s, run, k)
    ensures run[j].now - run[i].now >=
            (if AdvancesAt(s, run, i) then 15 * SECOND
             else RewardScanRetryBackoff(AfterPasses(s, run[..i + 1]).failures))
  {
    hide RewardScanRetryBackoff, ScannedTo, PassOn;
    NotBeforeStays(s, run, i, j);
    hide AfterPasses;
    assert AfterPasses(s, run[..j]).notBefore.Some?;
  }

  lemma {:induction false} NotBeforeStays(s: Standing, run: seq<PassInput>, i: nat, j: nat)
    requires i < j <= |run| && AsksAt(s, run, i) && forall k :: i < k < j ==> !AsksAt(s, run, k)
    ensures AfterPasses(s, run[..j]).notBefore ==
            Some(run[i].now + if AdvancesAt(s, run, i) then 15 * SECOND
                              else RewardScanRetryBackoff(AfterPasses(s, run[..i + 1]).failures))
    decreases j
  {
    hide RewardScanRetryBackoff, AsksAt, AdvancesAt, AfterPasses;
    AsksBefore(s, run, j, j - 1);
    AdvancesAsks(s, run, j - 1);
    assert run[..j][..j - 1] == run[..j - 1];
    if AdvancesAt(s, run, j - 1) {
      SuccessResets(s, run[..j]);
    } else {
      NoSuccessCounts(s, run[..j]);
    }
    if j > i + 1 {
      NotBeforeStays(s, run, i, j - 1);
    }
  }

  lemma {:induction false} AdvancesAsks(s: Standing, run: seq<PassInput>, i: int)
    ensures AdvancesAt(s, run, i) ==> AsksAt(s, run, i)
  {
    hide Asks, ScannedTo, AfterPasses;
  }

  // ---------- The collector ----------

  class Collector {
    const store: Store
    var rewardScanNext: Option<int>
    var rewardScanFailures: nat

    constructor (s: Store)
      ensures store == s && rewardScanNext == None && rewardScanFailures == 0
    {
      store, rewardScanNext, rewardScanFailures := s, None, 0;
    }

    static method ConfirmRewardAnomaly(o: Observation, externals: seq<map<int, RewardScan>>) returns (r: Observation)
      ensures r == o.(sources := o.sources + Matches(externals, o))
      ensures r.sources == o.sources + |Witnesses(externals, o)|
    {
      MatchesWitnesses(externals, o);
      hide Witnesses;
      r := o;
      var i := 0;
      while i < |externals|
        invariant 0 <= i <= |externals|
        invariant r == o.(sources := o.sources + Matches(externals[..i], o))
      {
        assert externals[..i + 1][..i] == externals[..i];
        if o.block in externals[i] && |externals[i][o.block].observations| == 1 {
          var x := externals[i][o.block].observations[0];
          if x.hash == o.hash && x.expected == o.expected && x.credited == o.credited
             && x.verification == o.verification {
            r := r.(sources := r.sources + 1);
          }
        }
        i := i + 1;
      }
      assert externals[..i] == externals;
    }

    static method ConfirmAnomalies(s: seq<Observation>, externals: seq<map<int, RewardScan>>)
      returns (r: seq<Observation>)
      ensures r == ConfirmAll(s, externals)
    {
      r := [];
      var i := 0;
      while i < |s|
        invariant 0 <= i <= |s| && r == ConfirmAll(s[..i], externals)
      {
        assert s[..i + 1][..i] == s[..i];
        var o := s[i];
        if o.verification == Insufficient || o.verification == PotEmpty {
          o := ConfirmRewardAnomaly(o, externals);
        }
        r := r + [o];
        i := i + 1;
      }
      assert s[..i] == s;
    }

    method FailRewardScan(now: int)
      modifies `rewardScanNext, `rewardScanFailures
      ensures rewardScanFailures == old(rewardScanFailures) + 1
      ensures rewardScanNext == Some(now + RewardScanRetryBackoff(rewardScanFailures))
    {
      rewardScanFailures := rewardScanFailures + 1;
      rewardScanNext := Some(now + RewardScanRetryBackoff(rewardScanFailures));
    }

    /** At most one chunk, committed together with its cursor. */
    method ScanLocalRewardHistory(input: PassInput, previous: Overview) returns (updated: Overview)
      requires ScanIsDue(previous, input.local)
      modifies this, store
      ensures (store.View(), updated) ==
              WorkOn(old(store.View()), previous, input.local, OutcomeOf(previous, input, old(rewardScanNext)),
                     Answered(input))
      ensures var due := old(rewardScanNext).None? || input.now >= old(rewardScanNext).value;
              && (!due ==> updated == previous && rewardScanNext == old(rewardScanNext)
                           && rewardScanFailures == old(rewardScanFailures))
              && (due && updated.lastScanned == previous.lastScanned ==>
                    && rewardScanFailures == old(rewardScanFailures) + 1
                    && rewardScanNext == Some(input.now + RewardScanRetryBackoff(rewardScanFailures)))
              && (due && updated.lastScanned != previous.lastScanned ==>
                    && updated.lastScanned == RewardScanEnd(previous.lastScanned, input.local.value)
                    && rewardScanFailures == 0 && rewardScanNext == Some(input.now + 15 * SECOND))
    {
      ChunkIsLegal(previous.lastScanned, input.local.value);
      hide RewardScanEnd, RewardScanRetryBackoff, Apply, AllConfirmed, Confirmations, ConfirmAll, ValidLocal, WorkOn;
      WorkOnMeans(old(store.View()), previous, input.local, OutcomeOf(previous, input, rewardScanNext),
                  Answered(input));
      if rewardScanNext.Some? && input.now < rewardScanNext.value { return previous; }
      var from, end := previous.lastScanned + 1, RewardScanEnd(previous.lastScanned, input.local.value);
      if input.answer.None? {
        FailRewardScan(input.now);
        return previous;
      }
      var scan := input.answer.value;
      var valid := ValidateLocalRewardScan(scan, from, end);
      if !valid {
        FailRewardScan(input.now);
        return previous;
      }
      var observations := ConfirmAnomalies(scan.observations, input.externals);
      ValidIsDistinct(scan, from, end);
      ConfirmAllIsConfirmed(scan.observations, input.externals);
      var next := previous.(lastScanned := end);
      var error := store.ApplyRewardScan(previous.lastScanned, next, observations, input.io);
      if error.Some? {
        FailRewardScan(input.now);
        return previous;
      }
      rewardScanFailures := 0;
      rewardScanNext := Some(input.now + SCAN_INTERVAL);
      updated := next;
    }

    /** One pass: load, scan if a chunk is due, refresh the totals and save. */
    method CollectRewards(input: PassInput)
      modifies this, store
      ensures store.View() == PassOn(old(store.View()), input, old(rewardScanNext))
      ensures Standing(store.View(), rewardScanNext, rewardScanFailures) ==
              AfterPass(old(Standing(store.View(), rewardScanNext, rewardScanFailures)), input)
    {
      hide WorkOn, RewardScanEnd, OutcomeOf, RewardScanRetryBackoff;
      if !input.loadOk { return; }
      var height := if input.local.Some? then input.local.value else 0;
      var loaded := store.LoadRewardOverview();
      var previous := if loaded.Some? then loaded.value else Overview(height, 0, 0, 0);
      if input.local.Some? { previous := previous.(finalized := height); }
      assert previous == Previous(store.View(), input.local);
      if input.local.Some? && previous.lastScanned > 0 && input.local.value > previous.lastScanned {
        previous := ScanLocalRewardHistory(input, previous);
      } else {
        NoScan(store.View(), previous, input.local, PassOutcome(store.View(), input, rewardScanNext), Answered(input));
        if input.local.Some? && previous.lastScanned == 0 {
          previous := previous.(lastScanned := input.local.value);
        }
      }
      if input.stats {
        var last;
        previous, last := store.RewardStats(previous);
      }
      if input.effect { store.SaveRewardOverview(previous); }
    }

    /** A pass that asks a node for its scan.  If the node is truthful, the pass records the truth. */
    method CollectFromNode(rpc: Rpc, input: PassInput, ghost c: Chain) returns (used: PassInput)
      modifies this, store
      ensures used == input.(answer := used.answer)
      ensures Truthful(rpc, c) ==>
                && AnswerTrue(c, old(store.View()), used)
                && store.View() == Pass(c, old(store.View()), used, old(rewardScanNext))
      ensures NodeAnswers(rpc, c, old(store.View()), input) ==> used.answer.Some?
    {
      hide RewardScanEnd, ValidLocal, Exact, Truthful, Scannable, WorkOn, Pass, PassOn;
      var loaded := store.LoadRewardOverview();
      used := input.(answer := None);
      if input.local.Some? {
        var cursor := if loaded.Some? then loaded.value.lastScanned else input.local.value;
        var answer := Scan.Scan(rpc, "local", cursor + 1, RewardScanEnd(cursor, input.local.value), c);
        used := input.(answer := answer);
      }
      ghost var db, notBefore := store.View(), rewardScanNext;
      CollectRewards(used);
      if Truthful(rpc, c) {
        TruthRecorded(c, db, used, notBefore);
      }
    }
  }

  /** The node can answer the scan a pass asks for. */
  ghost predicate NodeAnswers(rpc: Rpc, c: Chain, db: Database, input: PassInput) {
    && input.local.Some?
    && var cursor := Previous(db, input.local).lastScanned;
       Scannable(rpc, c, cursor + 1, RewardScanEnd(cursor, input.local.value))
  }

  lemma {:induction false} ValidIsDistinct(scan: RewardScan, from: int, end: int)
    requires ValidLocal(scan, from, end)
    ensures DistinctBlocks(scan.observations)
  {
  }

  lemma {:induction false} WorkOnMeans(db: Database, previous: Overview, local: Option<int>, outcome: Outcome,
                                       answer: seq<Observation>)
    requires ScanIsDue(previous, local)
    ensures !outcome.Scanned? ==> WorkOn(db, previous, local, outcome, answer) == (db, previous)
    ensures outcome.Scanned? ==>
              var next := previous.(lastScanned := RewardScanEnd(previous.lastScanned, local.value));
              var r := Apply(db, previous.lastScanned, next, AllConfirmed(answer, outcome.extra), outcome.io);
              WorkOn(db, previous, local, outcome, answer) == (r.0, if r.1 then next else previous)
  {
    hide Apply, RewardScanEnd, AllConfirmed;
  }

  lemma {:induction false} NoScan(db: Database, previous: Overview, local: Option<int>, outcome: Outcome,
                                  answer: seq<Observation>)
    requires !ScanIsDue(previous, local)
    ensures WorkOn(db, previous, local, outcome, answer) ==
            (db, if local.Some? && previous.lastScanned == 0 then previous.(lastScanned := local.value) else previous)
  {
  }
}
