/** When scanned and audited intervals tile the chain, so that the cursor never goes back and the ledger depends
only on the chain, the gaps and the cursor (cmd/controller/main.go, internal/store/store.go). */
module LedgerTiling {
  import opened Base
  import opened Scan
  import opened Ledger
  import opened LedgerRuns

  // ---------- Tilings ----------

  /** The segments follow each other without overlap from a to v. */
  predicate Tiles(log: seq<Segment>, a: int, v: int) {
    if log == [] then v == a
    else
      var last := log[|log| - 1];
      last.from <= last.to == v && Tiles(log[..|log| - 1], a, last.from - 1)
  }

  ghost predicate InSegment(g: Segment, b: int) {
    g.from <= b <= g.to
  }

  ghost predicate InCovered(log: seq<Segment>, b: int) {
    exists i :: 0 <= i < |log| && log[i].Covered? && InSegment(log[i], b)
  }

  ghost predicate InGap(log: seq<Segment>, b: int) {
    exists i :: 0 <= i < |log| && log[i].Gap? && InSegment(log[i], b)
  }

  /** Every block between the ends is in exactly one segment. */
  lemma {:induction false} TilesPartition(log: seq<Segment>, a: int, v: int, b: int) returns (i: nat)
    requires Tiles(log, a, v) && a < b <= v
    ensures i < |log| && InSegment(log[i], b)
    ensures forall j :: 0 <= j < |log| && InSegment(log[j], b) ==> j == i
  {
    var n := |log| - 1;
    TilesBounded(log[..n], a, log[n].from - 1);
    assert forall j :: 0 <= j < n ==> log[..n][j] == log[j];
    if b >= log[n].from {
      i := n;
    } else {
      i := TilesPartition(log[..n], a, log[n].from - 1, b);
    }
  }

  lemma {:induction false} TilesBounded(log: seq<Segment>, a: int, v: int)
    requires Tiles(log, a, v)
    ensures a <= v
    ensures forall i :: 0 <= i < |log| ==> a < log[i].from && log[i].to <= v
  {
    if log != [] {
      var n := |log| - 1;
      TilesBounded(log[..n], a, log[n].from - 1);
      assert forall i :: 0 <= i < n ==> log[..n][i] == log[i];
    }
  }

  /** The intervals of the gaps, in order. */
  function Gaps(log: seq<Segment>): seq<(int, int)> {
    if log == [] then []
    else
      var last := log[|log| - 1];
      Gaps(log[..|log| - 1]) + (if last.Gap? then [(last.from, last.to)] else [])
  }

  function Audited(audits: seq<Audit>): seq<(int, int)> {
    if audits == [] then []
    else
      var last := audits[|audits| - 1];
      Audited(audits[..|audits| - 1]) + [(last.from, last.through)]
  }

  // ---------- Who knows where the cursor stands ----------

  function PhaseCursor(p: Phase): int
    requires !p.Idle?
  {
    match p
    case Loaded(previous, local) => previous.lastScanned
    case Saving(next) => next.lastScanned
  }

  /** A collector that nobody has overtaken knows where the cursor stands. */
  ghost predicate Informed(s: System) {
    forall w :: w in s.workers && !s.workers[w].Idle? && w !in s.behind ==> PhaseCursor(s.workers[w]) == Cursor(s.db)
  }

  lemma {:induction false} ScanInforms(c: Chain, a: int, s: System, w: int, outcome: Outcome)
    requires WellFormed(c) && SystemInv(c, a, s) && Informed(s) && PhaseOf(s, w).Loaded?
    ensures Informed(Worked(c, s, w, outcome)) && Cursor(s.db) <= Cursor(Worked(c, s, w, outcome).db)
  {
    assert forall v :: v in Busy(s) <==> v in s.workers && !s.workers[v].Idle?;
    hide SystemInv, WellFormed, Worked, RewardScanEnd, DbInv, Grows, InRange, Busy;
    WorkedEffect(c, a, s, w, outcome);
  }

  lemma {:induction false} NextInforms(c: Chain, a: int, locked: bool, s: System, e: Event)
    requires WellFormed(c) && SystemInv(c, a, s) && Informed(s)
    ensures Informed(Next(c, locked, s, e))
    ensures !e.Save? ==> Cursor(s.db) <= Cursor(Next(c, locked, s, e).db)
  {
    match e
    case Begin(_, local, loadOk) =>
    case Scan(w, outcome) =>
      if PhaseOf(s, w).Loaded? {
        ScanInforms(c, a, s, w, outcome);
      }
    case Save(w, stats, effect) => SaveInforms(c, locked, s, e);
    case Ack(expected, finalized, actor, reason, mutex, io) => AckInforms(c, a, locked, s, e);
    case Crash(_) =>
  }

  lemma {:induction false} SaveInforms(c: Chain, locked: bool, s: System, e: Event)
    requires Informed(s) && e.Save?
    ensures Informed(Next(c, locked, s, e))
  {
    assert forall v :: v in Busy(s) <==> v in s.workers && !s.workers[v].Idle?;
    hide Busy;
  }

  lemma {:induction false} AckInforms(c: Chain, a: int, locked: bool, s: System, e: Event)
    requires SystemInv(c, a, s) && Informed(s) && e.Ack?
    ensures Informed(Next(c, locked, s, e)) && Cursor(s.db) <= Cursor(Next(c, locked, s, e).db)
  {
    var baseline := e.finalized - RETAINED_WINDOW;
    RebaseInv(c, a, s.db, e.expected, baseline, e.finalized, e.actor, e.reason);
    assert forall v :: v in Busy(s) <==> v in s.workers && !s.workers[v].Idle?;
    hide Rebased, DbInv, SystemInv, Busy;
  }

  lemma {:induction false} ExecInforms(c: Chain, a: int, locked: bool, start: System, run: seq<Event>)
    requires WellFormed(c) && JustActivated(start, a)
    ensures Informed(Exec(c, locked, start, run))
  {
    if run == [] {
      assert forall w :: w in start.workers ==> w in Busy(start) || start.workers[w].Idle?;
    } else {
      ExecInforms(c, a, locked, start, run[..|run| - 1]);
      ExecInv(c, a, locked, start, run[..|run| - 1]);
      NextInforms(c, a, locked, Exec(c, locked, start, run[..|run| - 1]), run[|run| - 1]);
      hide Next, Informed, SystemInv;
    }
  }

  // ---------- Saves that write back another cursor ----------

  /** The missing compare-and-set: a save that takes effect although the cursor it writes is not the stored one. */
  ghost predicate StaleSave(s: System, e: Event) {
    e.Save? && e.effect && PhaseOf(s, e.w).Saving? && PhaseOf(s, e.w).next.lastScanned != Cursor(s.db)
  }

  ghost predicate NoStaleSave(c: Chain, locked: bool, start: System, run: seq<Event>) {
    forall n :: 0 <= n < |run| ==> !StaleSave(Exec(c, locked, start, run[..n]), run[n])
  }

  /** Somebody overtook the collector, or its own commit was not answered, before it saves. */
  ghost predicate OvertakenSave(s: System, e: Event) {
    e.Save? && e.effect && PhaseOf(s, e.w).Saving? && e.w in s.behind
  }

  lemma {:induction false} NoStaleBefore(c: Chain, locked: bool, start: System, run: seq<Event>, n: nat)
    requires NoStaleSave(c, locked, start, run) && n <= |run|
    ensures NoStaleSave(c, locked, start, run[..n])
    ensures n < |run| ==> !StaleSave(Exec(c, locked, start, run[..n]), run[n])
  {
    hide StaleSave, Exec;
    forall k | 0 <= k < n ensures !StaleSave(Exec(c, locked, start, run[..n][..k]), run[..n][k]) {
      assert run[..n][..k] == run[..k] && run[..n][k] == run[k];
    }
  }

  /** Only a save that was overtaken is stale, whatever the number of collectors. */
  lemma {:induction false} StaleIsOvertaken(c: Chain, a: int, locked: bool, start: System, run: seq<Event>, e: Event)
    requires WellFormed(c) && JustActivated(start, a) && StaleSave(Exec(c, locked, start, run), e)
    ensures OvertakenSave(Exec(c, locked, start, run), e)
  {
    ExecInforms(c, a, locked, start, run);
    hide Exec, WellFormed, JustActivated;
  }

  // ---------- The tiling ----------

  /** Exactly the authored blocks of covered segments have rows. */
  ghost predicate RowsCovered(c: Chain, log: seq<Segment>, rows: map<int, Row>) {
    forall b :: b in rows <==> c.authored(b) && InCovered(log, b)
  }

  ghost predicate TilingInv(c: Chain, a: int, s: System) {
    && Tiles(s.log, a, Cursor(s.db))
    && Gaps(s.log) == Audited(s.db.audits)
    && RowsCovered(c, s.log, s.db.rows)
  }

  lemma {:induction false} CoverMore(c: Chain, log: seq<Segment>, rows: map<int, Row>, from: int, end: int,
                                     after: map<int, Row>)
    requires RowsCovered(c, log, rows)
    requires forall b :: b in after <==> b in rows || InRange(c, from, end, b)
    ensures RowsCovered(c, log + [Covered(from, end)], after)
  {
    var more := log + [Covered(from, end)];
    forall b ensures b in after <==> c.authored(b) && InCovered(more, b) {
      if InCovered(log, b) {
        var i :| 0 <= i < |log| && log[i].Covered? && InSegment(log[i], b);
        assert more[i] == log[i];
      }
      if from <= b <= end {
        assert more[|log|] == Covered(from, end) && InSegment(more[|log|], b);
      }
    }
  }

  lemma {:induction false} SkipMore(c: Chain, log: seq<Segment>, rows: map<int, Row>, from: int, end: int)
    requires RowsCovered(c, log, rows)
    ensures RowsCovered(c, log + [Gap(from, end)], rows)
  {
    var more := log + [Gap(from, end)];
    forall b ensures InCovered(more, b) <==> InCovered(log, b) {
      if InCovered(log, b) {
        var i :| 0 <= i < |log| && log[i].Covered? && InSegment(log[i], b);
        assert more[i] == log[i];
      }
    }
  }

  lemma {:induction false} ScanTiles(c: Chain, a: int, s: System, w: int, outcome: Outcome)
    requires WellFormed(c) && SystemInv(c, a, s) && TilingInv(c, a, s) && PhaseOf(s, w).Loaded?
    ensures var next := Worked(c, s, w, outcome);
            TilingInv(c, a, next) && Cursor(s.db) <= Cursor(next.db)
  {
    hide RowsCovered, WellFormed, SystemInv, Worked, ScanEffect, RewardScanEnd, Tiles, Gaps, Audited, Busy;
    var p := PhaseOf(s, w);
    WorkedEffect(c, a, s, w, outcome);
    var next := Worked(c, s, w, outcome);
    if next.db != s.db {
      var end := RewardScanEnd(p.previous.lastScanned, p.local.value);
      EffectMoves(c, a, s.db, p.previous.lastScanned + 1, end, next.db);
      ScanExtends(c, a, s.db, s.log, end, next.db);
    }
  }

  lemma {:induction false} EffectMoves(c: Chain, a: int, db: Database, from: int, end: int, after: Database)
    requires ScanEffect(c, a, db, from, end, after)
    ensures Cursor(db) == from - 1 && Cursor(after) == end
  {
  }

  lemma {:induction false} ScanExtends(c: Chain, a: int, db: Database, log: seq<Segment>, end: int, after: Database)
    requires Tiles(log, a, Cursor(db)) && Gaps(log) == Audited(db.audits) && RowsCovered(c, log, db.rows)
    requires ScanEffect(c, a, db, Cursor(db) + 1, end, after) && Cursor(db) < end
    ensures var more := log + [Covered(Cursor(db) + 1, end)];
            && Tiles(more, a, Cursor(after)) && Gaps(more) == Audited(after.audits)
            && RowsCovered(c, more, after.rows) && Cursor(after) == end
  {
    CoverMore(c, log, db.rows, Cursor(db) + 1, end, after.rows);
    assert (log + [Covered(Cursor(db) + 1, end)])[..|log|] == log;
    hide RowsCovered, DbInv;
  }

  lemma {:induction false} AckTiles(c: Chain, a: int, locked: bool, s: System, e: Event)
    requires SystemInv(c, a, s) && TilingInv(c, a, s) && e.Ack?
    ensures var next := Next(c, locked, s, e);
            TilingInv(c, a, next) && Cursor(s.db) <= Cursor(next.db)
  {
    var baseline := e.finalized - RETAINED_WINDOW;
    RebaseInv(c, a, s.db, e.expected, baseline, e.finalized, e.actor, e.reason);
    var after := Acknowledge(s.db, e.expected, baseline, e.finalized, e.actor, e.reason, e.io).0;
    assert after == s.db || Rebased(s.db, e.expected, baseline, e.finalized, e.actor, e.reason) == Some(after);
    assert Rebased(s.db, e.expected, baseline, e.finalized, e.actor, e.reason).Some? ==>
      Rebased(s.db, e.expected, baseline, e.finalized, e.actor, e.reason).value.audits[..|s.db.audits|] == s.db.audits;
    hide Rebased, Acknowledge, DbInv;
    SkipMore(c, s.log, s.db.rows, e.expected + 1, baseline);
    assert (s.log + [Gap(e.expected + 1, baseline)])[..|s.log|] == s.log;
    hide RowsCovered;
  }

  /** Every step but a stale save extends the tiling, and does not lower the cursor. */
  lemma {:induction false} NextTiles(c: Chain, a: int, locked: bool, s: System, e: Event)
    requires WellFormed(c) && SystemInv(c, a, s) && TilingInv(c, a, s) && !StaleSave(s, e)
    ensures var next := Next(c, locked, s, e);
            TilingInv(c, a, next) && Cursor(s.db) <= Cursor(next.db)
  {
    hide WellFormed, SystemInv, Tiles, Gaps, Audited, RowsCovered, Busy;
    match e
    case Begin(w, local, loadOk) =>
    case Scan(w, outcome) =>
      if PhaseOf(s, w).Loaded? {
        ScanTiles(c, a, s, w, outcome);
      }
    case Save(w, stats, effect) =>
    case Ack(expected, finalized, actor, reason, mutex, io) => AckTiles(c, a, locked, s, e);
    case Crash(w) =>
  }

  lemma {:induction false} ExecTiles(c: Chain, a: int, locked: bool, start: System, run: seq<Event>)
    requires WellFormed(c) && JustActivated(start, a) && NoStaleSave(c, locked, start, run)
    ensures TilingInv(c, a, Exec(c, locked, start, run))
  {
    if run != [] {
      var m := |run| - 1;
      NoStaleBefore(c, locked, start, run, m);
      ExecTiles(c, a, locked, start, run[..m]);
      ExecInv(c, a, locked, start, run[..m]);
      NextTiles(c, a, locked, Exec(c, locked, start, run[..m]), run[m]);
      hide Next, TilingInv, StaleSave, SystemInv;
    }
  }

  /** A stale save leaves the log and moves the cursor away from its end. */
  lemma {:induction false} StaleBreaks(c: Chain, a: int, locked: bool, s: System, e: Event)
    requires StaleSave(s, e) && Tiles(s.log, a, Cursor(s.db))
    ensures var next := Next(c, locked, s, e); !Tiles(next.log, a, Cursor(next.db))
  {
  }

  /** Exactly when scanned and audited intervals tile the chain throughout a run, with any number of collectors,
      with or without the mutex, whatever crashes, is not answered or is acknowledged in between: when no save
      writes back a cursor that is not the stored one. */
  lemma {:induction false} TilesThroughoutIff(c: Chain, a: int, locked: bool, start: System, run: seq<Event>)
    requires WellFormed(c) && JustActivated(start, a)
    ensures NoStaleSave(c, locked, start, run) <==>
            forall n :: 0 <= n <= |run| ==> TilingInv(c, a, Exec(c, locked, start, run[..n]))
  {
    hide TilingInv, Exec, StaleSave;
    if NoStaleSave(c, locked, start, run) {
      forall n | 0 <= n <= |run| ensures TilingInv(c, a, Exec(c, locked, start, run[..n])) {
        NoStaleBefore(c, locked, start, run, n);
        ExecTiles(c, a, locked, start, run[..n]);
      }
    } else {
      var n: nat :| n < |run| && StaleSave(Exec(c, locked, start, run[..n]), run[n]);
      if TilingInv(c, a, Exec(c, locked, start, run[..n])) {
        StaleStep(c, a, locked, start, run, n);
      }
    }
  }

  lemma {:induction false} StaleStep(c: Chain, a: int, locked: bool, start: System, run: seq<Event>, n: nat)
    requires n < |run| && StaleSave(Exec(c, locked, start, run[..n]), run[n])
    requires TilingInv(c, a, Exec(c, locked, start, run[..n]))
    ensures !TilingInv(c, a, Exec(c, locked, start, run[..n + 1]))
  {
    assert run[..n + 1][..n] == run[..n];
    StaleBreaks(c, a, locked, Exec(c, locked, start, run[..n]), run[n]);
    hide Next, StaleSave, Tiles;
  }

  // ---------- The mutex ----------

  /** Every scan commit of the run is answered, and no acknowledgement comes from the command line. */
  ghost predicate Exclusive(run: seq<Event>) {
    forall i :: 0 <= i < |run| ==> ExclusiveStep(run[i])
  }

  predicate ExclusiveStep(e: Event) {
    && (e.Scan? && e.outcome.Scanned? ==> !e.outcome.io.AnswerLost?)
    && (e.Ack? ==> e.mutex)
  }

  /** Only the holder of the mutex is busy, and nobody has overtaken it. */
  ghost predicate Alone(s: System) {
    forall w :: w in s.workers && !s.workers[w].Idle? ==> s.holder == Some(w) && w !in s.behind
  }

  lemma {:induction false} NextAlone(c: Chain, a: int, s: System, e: Event)
    requires WellFormed(c) && SystemInv(c, a, s) && Alone(s) && ExclusiveStep(e)
    ensures Alone(Next(c, true, s, e))
  {
    hide WellFormed, SystemInv, Worked, ScanEffect, RewardScanEnd, Acknowledge;
    if e.Scan? && PhaseOf(s, e.w).Loaded? {
      WorkedEffect(c, a, s, e.w, e.outcome);
    }
  }

  lemma {:induction false} ExecAlone(c: Chain, a: int, start: System, run: seq<Event>)
    requires WellFormed(c) && JustActivated(start, a) && Exclusive(run)
    ensures Alone(Exec(c, true, start, run))
  {
    if run == [] {
      assert forall w :: w in start.workers ==> w in Busy(start) || start.workers[w].Idle?;
    } else {
      var m := |run| - 1;
      ExecAlone(c, a, start, run[..m]);
      ExecInv(c, a, true, start, run[..m]);
      NextAlone(c, a, Exec(c, true, start, run[..m]), run[m]);
      hide Next, Alone, SystemInv;
    }
  }

  /** What the mutex is for: if passes and acknowledgements hold it and commits are answered, no save is stale, so
      that all the results below apply. */
  lemma {:induction false} MutexPreventsStaleSaves(c: Chain, a: int, start: System, run: seq<Event>)
    requires WellFormed(c) && JustActivated(start, a) && Exclusive(run)
    ensures NoStaleSave(c, true, start, run)
  {
    forall n | 0 <= n < |run| ensures !StaleSave(Exec(c, true, start, run[..n]), run[n]) {
      ExecAlone(c, a, start, run[..n]);
      ExecInforms(c, a, true, start, run[..n]);
    }
  }

  // ---------- Main results ----------

  /** Unless a save is stale, scanned intervals and audited gaps partition the blocks from the activation to the
      cursor, the audit log lists exactly the gaps, and exactly the authored blocks of scanned intervals have
      rows. */
  lemma {:induction false} SegmentsPartition(c: Chain, a: int, locked: bool, start: System, run: seq<Event>, b: int)
    returns (i: nat)
    requires WellFormed(c) && JustActivated(start, a) && NoStaleSave(c, locked, start, run)
    requires a < b <= Cursor(Exec(c, locked, start, run).db)
    ensures var s := Exec(c, locked, start, run);
            && i < |s.log| && InSegment(s.log[i], b)
            && (forall j :: 0 <= j < |s.log| && InSegment(s.log[j], b) ==> j == i)
            && Gaps(s.log) == Audited(s.db.audits)
            && (b in s.db.rows <==> c.authored(b) && s.log[i].Covered?)
  {
    ExecTiles(c, a, locked, start, run);
    var s := Exec(c, locked, start, run);
    i := TilesPartition(s.log, a, Cursor(s.db), b);
  }

  /** Unless a save is stale, the cursor never decreases. */
  lemma {:induction false} CursorNeverDecreases(c: Chain, a: int, locked: bool, start: System, run: seq<Event>, n: nat)
    requires WellFormed(c) && JustActivated(start, a) && NoStaleSave(c, locked, start, run) && n <= |run|
    ensures Cursor(Exec(c, locked, start, run[..n]).db) <= Cursor(Exec(c, locked, start, run).db)
  {
    hide Next, SystemInv, TilingInv, WellFormed, JustActivated, StaleSave, NoStaleSave;
    if n == |run| {
      assert run[..n] == run;
    } else {
      var m := |run| - 1;
      assert run[..m][..n] == run[..n];
      NoStaleBefore(c, locked, start, run, m);
      CursorNeverDecreases(c, a, locked, start, run[..m], n);
      ExecTiles(c, a, locked, start, run[..m]);
      ExecInv(c, a, locked, start, run[..m]);
      NextTiles(c, a, locked, Exec(c, locked, start, run[..m]), run[m]);
    }
  }

  /** What the wallet earned in the covered blocks up to v. */
  ghost function Earned(c: Chain, log: seq<Segment>, a: int, v: int): int
    decreases Max(v - a, 0)
  {
    if v <= a then 0
    else Earned(c, log, a, v - 1) + (if c.authored(v) && InCovered(log, v) then Truth(c, v).credited else 0)
  }

  lemma {:induction false} TotalIsEarned(c: Chain, log: seq<Segment>, a: int, v: int, rows: map<int, Row>)
    requires forall b :: b in rows <==> a < b <= v && c.authored(b) && InCovered(log, b)
    requires forall b :: b in rows ==> rows[b].credited == Truth(c, b).credited
    ensures Total(rows) == Earned(c, log, a, v)
    decreases Max(v - a, 0)
  {
    hide InCovered, Truth;
    if v > a {
      if v in rows {
        TotalWithout(rows, v);
        TotalIsEarned(c, log, a, v - 1, rows - {v});
      } else {
        TotalIsEarned(c, log, a, v - 1, rows);
      }
    }
  }

  /** Unless a save is stale, the credited total is what the chain paid for the covered blocks: no reward lost, none
      counted twice. */
  lemma {:induction false} TotalIsConserved(c: Chain, a: int, locked: bool, start: System, run: seq<Event>)
    requires WellFormed(c) && JustActivated(start, a) && NoStaleSave(c, locked, start, run)
    ensures var s := Exec(c, locked, start, run);
            Total(s.db.rows) == Earned(c, s.log, a, Cursor(s.db))
  {
    ExecTiles(c, a, locked, start, run);
    ExecInv(c, a, locked, start, run);
    var s := Exec(c, locked, start, run);
    TilesBounded(s.log, a, Cursor(s.db));
    forall b | b in s.db.rows ensures s.db.rows[b].credited == Truth(c, b).credited {
      assert SameFacts(s.db.rows[b], Truth(c, b));
    }
    TotalIsEarned(c, s.log, a, Cursor(s.db), s.db.rows);
  }

  lemma {:induction false} SameCreditsSameTotal(x: map<int, Row>, y: map<int, Row>)
    requires x.Keys == y.Keys && forall b :: b in x ==> x[b].credited == y[b].credited
    ensures Total(x) == Total(y)
    decreases |x|
  {
    if x.Keys != {} {
      var b := AnyOf(x.Keys);
      TotalWithout(x, b);
      TotalWithout(y, b);
      SameCreditsSameTotal(x - {b}, y - {b});
    } else {
      assert forall b :: b !in y;
    }
  }

  /** Schedule independence: two runs without stale saves over the same chain that reach the same cursor with the
      same gaps have the same ledger, up to the number of confirming sources, and the same credited total. */
  lemma {:induction false} ScheduleIndependence(c: Chain, a: int, locked1: bool, start1: System, run1: seq<Event>,
                                                locked2: bool, start2: System, run2: seq<Event>)
    requires WellFormed(c) && JustActivated(start1, a) && JustActivated(start2, a)
    requires NoStaleSave(c, locked1, start1, run1) && NoStaleSave(c, locked2, start2, run2)
    requires Cursor(Exec(c, locked1, start1, run1).db) == Cursor(Exec(c, locked2, start2, run2).db)
    requires forall b :: InGap(Exec(c, locked1, start1, run1).log, b) <==> InGap(Exec(c, locked2, start2, run2).log, b)
    ensures var x, y := Exec(c, locked1, start1, run1).db.rows, Exec(c, locked2, start2, run2).db.rows;
            && x.Keys == y.Keys
            && (forall b :: b in x ==> x[b].(sources := 1) == y[b].(sources := 1))
            && Total(x) == Total(y)
  {
    var s, t := Exec(c, locked1, start1, run1), Exec(c, locked2, start2, run2);
    forall b ensures b in s.db.rows <==> b in t.db.rows {
      RowIff(c, a, locked1, start1, run1, b);
      RowIff(c, a, locked2, start2, run2, b);
    }
    forall b | b in s.db.rows ensures s.db.rows[b].(sources := 1) == t.db.rows[b].(sources := 1) {
      LedgerIsExact(c, a, locked1, start1, run1, b);
      LedgerIsExact(c, a, locked2, start2, run2, b);
    }
    hide Exec, InGap;
    assert s.db.rows.Keys == t.db.rows.Keys;
    forall b | b in s.db.rows ensures s.db.rows[b].credited == t.db.rows[b].credited {
      assert s.db.rows[b].(sources := 1) == t.db.rows[b].(sources := 1);
    }
    SameCreditsSameTotal(s.db.rows, t.db.rows);
  }

  lemma {:induction false} RowIff(c: Chain, a: int, locked: bool, start: System, run: seq<Event>, b: int)
    requires WellFormed(c) && JustActivated(start, a) && NoStaleSave(c, locked, start, run)
    ensures var s := Exec(c, locked, start, run);
            b in s.db.rows <==> a < b <= Cursor(s.db) && c.authored(b) && !InGap(s.log, b)
  {
    ExecTiles(c, a, locked, start, run);
    var s := Exec(c, locked, start, run);
    TilesBounded(s.log, a, Cursor(s.db));
    if a < b <= Cursor(s.db) {
      var i := TilesPartition(s.log, a, Cursor(s.db), b);
    }
  }
}
