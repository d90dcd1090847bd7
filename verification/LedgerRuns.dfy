/** Reward collection as a protocol (collectRewards and scanLocalRewardHistory of cmd/controller/main.go over
the store): any number of collectors and operator acknowledgements, with or without the mutex. */
module LedgerRuns {
  import opened Base
  import opened Text
  import opened Scan
  import opened Ledger

  // ---------- One collection pass ----------

  const CHUNK := 16
  const MAX_CHUNK := 128

  /** The last block of the next chunk. */
  function RewardScanEnd(cursor: int, finalized: int): int {
    var lag := finalized - cursor;
    var chunk := if lag > RETAINED_WINDOW then Min(lag, MAX_CHUNK) else CHUNK;
    Min(cursor + chunk, finalized)
  }

  /** A lag of more than 64 blocks is scanned 128 at a time, a smaller one 16 at a time. */
  lemma {:induction false} ChunkMeans(cursor: int, finalized: int)
    ensures RewardScanEnd(cursor, finalized) - cursor ==
            if finalized - cursor > 128 then 128
            else if finalized - cursor > 64 then finalized - cursor
            else if finalized - cursor > 16 then 16
            else finalized - cursor
  {
  }

  /** Where a collector is between loading the overview and saving it again. */
  datatype Phase = Idle | Loaded(previous: Overview, local: Option<int>) | Saving(next: Overview)

  /** What becomes of the scan of a pass: not due yet, failed, or answered and brought to the store.
      `extra` counts the external nodes that confirmed an anomalous observation. */
  datatype Outcome = NotDue | ScanFailed | Scanned(extra: map<int, nat>, io: TxIo)

  function Confirmed(o: Observation, extra: map<int, nat>): Observation {
    if (o.verification == Insufficient || o.verification == PotEmpty) && o.block in extra
    then o.(sources := o.sources + extra[o.block]) else o
  }

  function AllConfirmed(s: seq<Observation>, extra: map<int, nat>): (r: seq<Observation>)
    ensures |r| == |s|
  {
    if s == [] then [] else AllConfirmed(s[..|s| - 1], extra) + [Confirmed(s[|s| - 1], extra)]
  }

  /** The overview a pass starts from; before anything is saved the cursor is the finalized height. */
  function Previous(db: Database, local: Option<int>): Overview {
    var height := if local.Some? then local.value else 0;
    var saved := if db.monitor.Some? then db.monitor.value.payload else Overview(height, 0, 0, 0);
    if local.Some? then saved.(finalized := height) else saved
  }

  predicate ScanIsDue(previous: Overview, local: Option<int>) {
    local.Some? && previous.lastScanned > 0 && local.value > previous.lastScanned
  }

  /** The scan part of a pass, given what the node answered: the new tables, and the overview to save. */
  function WorkOn(db: Database, previous: Overview, local: Option<int>, outcome: Outcome, answer: seq<Observation>)
    : (Database, Overview)
  {
    if ScanIsDue(previous, local) then
      if !outcome.Scanned? then (db, previous)
      else
        var next := previous.(lastScanned := RewardScanEnd(previous.lastScanned, local.value));
        var (after, ok) := Apply(db, previous.lastScanned, next, AllConfirmed(answer, outcome.extra), outcome.io);
        (after, if ok then next else previous)
    else if local.Some? && previous.lastScanned == 0 then (db, previous.(lastScanned := local.value))
    else (db, previous)
  }

  /** The answer of a truthful node. */
  function TrueAnswer(c: Chain, previous: Overview, local: Option<int>): seq<Observation> {
    if local.None? then []
    else Due(c, previous.lastScanned + 1, RewardScanEnd(previous.lastScanned, local.value))
  }

  function Work(c: Chain, db: Database, previous: Overview, local: Option<int>, outcome: Outcome)
    : (Database, Overview)
  {
    WorkOn(db, previous, local, outcome, TrueAnswer(c, previous, local))
  }

  ghost function WithStats(db: Database, overview: Overview, stats: bool): Overview {
    if stats then overview.(count := |db.rows|, total := Total(db.rows)) else overview
  }

  function Cursor(db: Database): int {
    if db.monitor.Some? then db.monitor.value.column else 0
  }

  // ---------- The system ----------

  /** A committed step of the cursor. */
  datatype Segment = Covered(from: int, to: int) | Gap(from: int, to: int)

  /** `log` lists the committed steps.  `behind` holds the collectors whose idea of the cursor is out of date:
      somebody else moved it since they loaded it, or their own commit was not answered. */
  datatype System = System(db: Database, workers: map<int, Phase>, holder: Option<int>, log: seq<Segment>,
                           behind: set<int>)

  datatype Event =
    | Begin(w: int, local: Option<int>, loadOk: bool)
    | Scan(w: int, outcome: Outcome)
    | Save(w: int, stats: bool, effect: bool)
    | Ack(expected: int, finalized: int, actor: string, reason: string, mutex: bool, io: TxIo)
    | Crash(w: int)

  function PhaseOf(s: System, w: int): Phase {
    if w in s.workers then s.workers[w] else Idle
  }

  function Busy(s: System): set<int> {
    set w | w in s.workers && !s.workers[w].Idle?
  }

  function Released(s: System, w: int): Option<int> {
    if s.holder == Some(w) then None else s.holder
  }

  /** With `locked`, passes hold one mutex, that of a single controller process; without it every collector is a
      process of its own.  An acknowledgement from the queue takes the mutex, one from the command line does not. */
  ghost function Next(c: Chain, locked: bool, s: System, e: Event): System {
    match e
    case Begin(w, local, loadOk) =>
      if PhaseOf(s, w) != Idle || (locked && s.holder.Some?) || !loadOk then s
      else s.(workers := s.workers[w := Loaded(Previous(s.db, local), local)],
              holder := if locked then Some(w) else None, behind := s.behind - {w})
    case Scan(w, outcome) => if PhaseOf(s, w).Loaded? then Worked(c, s, w, outcome) else s
    case Save(w, stats, effect) =>
      if !PhaseOf(s, w).Saving? then s
      else
        var after := if effect then Saved(s.db, WithStats(s.db, PhaseOf(s, w).next, stats)) else s.db;
        s.(db := after, workers := s.workers[w := Idle], holder := Released(s, w),
           behind := s.behind + (if Cursor(after) != Cursor(s.db) then Busy(s) - {w} else {}))
    case Ack(expected, finalized, actor, reason, mutex, io) =>
      if (locked && mutex && s.holder.Some?) || finalized - expected <= RETAINED_WINDOW then s
      else
        var baseline := finalized - RETAINED_WINDOW;
        var after := Acknowledge(s.db, expected, baseline, finalized, actor, reason, io).0;
        if after == s.db then s
        else s.(db := after, log := s.log + [Gap(expected + 1, baseline)], behind := s.behind + Busy(s))
    case Crash(w) => s.(workers := s.workers[w := Idle], holder := Released(s, w))
  }

  ghost function Worked(c: Chain, s: System, w: int, outcome: Outcome): System
    requires PhaseOf(s, w).Loaded?
  {
    var p := PhaseOf(s, w);
    var (after, next) := Work(c, s.db, p.previous, p.local, outcome);
    var moved := s.(db := after, workers := s.workers[w := Saving(next)]);
    if after == s.db then moved
    else
      var end := RewardScanEnd(p.previous.lastScanned, p.local.value);
      moved.(log := s.log + [Covered(p.previous.lastScanned + 1, end)],
             behind := s.behind + Busy(s) - (if outcome.io.AnswerLost? then {} else {w}))
  }

  ghost function Exec(c: Chain, locked: bool, start: System, run: seq<Event>): System {
    if run == [] then start
    else Next(c, locked, Exec(c, locked, start, run[..|run| - 1]), run[|run| - 1])
  }

  /** A database without rows, and one whose first cursor has just been saved. */
  function Fresh(): System {
    System(Database(None, map[], []), map[], None, [], {})
  }

  ghost predicate JustActivated(s: System, a: int) {
    && a > 0
    && s.db.monitor.Some? && s.db.monitor.value.column == a == s.db.monitor.value.payload.lastScanned
    && s.db.rows == map[] && s.db.audits == [] && s.log == []
    && Busy(s) == {} && s.holder == None
  }

  // ---------- What holds in every run ----------

  /** A row with the facts of its block; only the number of sources is not a fact of the chain. */
  predicate SameFacts(row: Row, truth: Observation) {
    row.(sources := truth.sources) == AsRow(truth)
  }

  ghost predicate RowsTrue(c: Chain, a: int, rows: map<int, Row>) {
    forall b :: b in rows ==> b > a && c.authored(b) && SameFacts(rows[b], Truth(c, b))
  }

  ghost predicate Skipped(audits: seq<Audit>, b: int) {
    exists i :: 0 <= i < |audits| && audits[i].from <= b <= audits[i].through
  }

  /** A cursor may stand at v: every authored block up to v has a row or lies in an audited gap. */
  ghost predicate Justified(c: Chain, a: int, db: Database, v: int) {
    a <= v && forall b :: a < b <= v && c.authored(b) ==> b in db.rows || Skipped(db.audits, b)
  }

  ghost predicate DbInv(c: Chain, a: int, db: Database) {
    && RowsTrue(c, a, db.rows)
    && db.monitor.Some?
    && db.monitor.value.column == db.monitor.value.payload.lastScanned
    && Justified(c, a, db, db.monitor.value.column)
  }

  ghost predicate PhaseInv(c: Chain, a: int, db: Database, p: Phase) {
    match p
    case Idle => true
    case Loaded(previous, local) => Justified(c, a, db, previous.lastScanned)
    case Saving(next) => Justified(c, a, db, next.lastScanned)
  }

  ghost predicate SystemInv(c: Chain, a: int, s: System) {
    && a > 0
    && DbInv(c, a, s.db)
    && forall w :: w in s.workers ==> PhaseInv(c, a, s.db, s.workers[w])
  }

  /** Rows are never lost and never lose a confirming source. */
  ghost predicate Keeps(rows: map<int, Row>, after: map<int, Row>) {
    forall b :: b in rows ==> b in after && rows[b].sources <= after[b].sources
  }

  /** Rows and audits only accumulate. */
  ghost predicate Grows(before: Database, after: Database) {
    Keeps(before.rows, after.rows) && before.audits <= after.audits
  }

  lemma {:induction false} JustifiedGrows(c: Chain, a: int, before: Database, after: Database, v: int)
    requires Grows(before, after) && Justified(c, a, before, v)
    ensures Justified(c, a, after, v)
  {
    forall b | a < b <= v && c.authored(b) ensures b in after.rows || Skipped(after.audits, b) {
      if b !in before.rows {
        var i :| 0 <= i < |before.audits| && before.audits[i].from <= b <= before.audits[i].through;
        assert after.audits[i] == before.audits[i];
      }
    }
  }

  lemma {:induction false} PhasesGrow(c: Chain, a: int, s: System, db: Database)
    requires SystemInv(c, a, s) && Grows(s.db, db)
    ensures forall w :: w in s.workers ==> PhaseInv(c, a, db, s.workers[w])
  {
    hide Justified, Grows;
    forall w | w in s.workers ensures PhaseInv(c, a, db, s.workers[w]) {
      assert PhaseInv(c, a, s.db, s.workers[w]);
      match s.workers[w]
      case Idle =>
      case Loaded(previous, local) => JustifiedGrows(c, a, s.db, db, previous.lastScanned);
      case Saving(next) => JustifiedGrows(c, a, s.db, db, next.lastScanned);
    }
  }

  // ---------- Confirmations ----------

  /** The sources a block has once it was scanned: the node itself and, if less was credited than expected or
      nothing was expected, every external node that confirmed that. */
  ghost function SourcesSeen(c: Chain, b: int, extra: map<int, nat>): int {
    var anomaly := Truth(c, b).expected == 0 || Truth(c, b).credited < Truth(c, b).expected;
    1 + if anomaly && b in extra then extra[b] else 0
  }

  lemma {:induction false} ConfirmedSees(c: Chain, b: int, extra: map<int, nat>)
    ensures Confirmed(Truth(c, b), extra).block == b
    ensures Confirmed(Truth(c, b), extra).sources == SourcesSeen(c, b, extra)
  {
    TruthMeasures(c, b);
  }

  lemma {:induction false} TrueRowsOneToOne(c: Chain, a: int, rows: map<int, Row>)
    requires WellFormed(c) && RowsTrue(c, a, rows)
    ensures OneToOne(rows, [])
  {
    forall b, hash | Pairs(rows, [], b, hash) ensures hash == c.hash(b) {
      assert SameFacts(rows[b], Truth(c, b));
    }
  }

  /** Recording a scanned range gives each of its blocks the most sources seen so far. */
  lemma {:induction false} DueSources(c: Chain, a: int, rows: map<int, Row>, from: int, end: int, extra: map<int, nat>,
                                      b: int)
    requires WellFormed(c) && RowsTrue(c, a, rows) && a < from <= b <= end && c.authored(b)
    ensures var r := UpsertAll(rows, AllConfirmed(Due(c, from, end), extra));
            && r.Some? && b in r.value
            && r.value[b].sources == Max(if b in rows then rows[b].sources else 0, SourcesSeen(c, b, extra))
  {
    hide OneToOne, WellFormed, SourcesSeen, Upsert, Confirmed, Truth, Adds;
    var s := AllConfirmed(Due(c, from, end), extra);
    UpsertDue(c, a, rows, from, end, extra);
    assert b in UpsertAll(rows, s).value by {
      AddsDue(c, a, rows, from, end, UpsertAll(rows, s).value, b);
    }
    SomeSource(c, b, extra);
    TrueRowsOneToOne(c, a, rows);
    UpsertsAccumulate(rows, s);
    var k := DueAlike(c, from, end, extra, b);
    assert s[k].block == b;
    hide UpsertAll, AllConfirmed, Due, RowsTrue, Accumulates, Pairs;
    AlikeSources(rows, s, b, UpsertAll(rows, s).value[b], SourcesSeen(c, b, extra));
  }

  lemma {:induction false} AlikeSources(rows: map<int, Row>, s: seq<Observation>, b: int, row: Row, n: int)
    requires Accumulates(rows, s, b, row) && n > 0
    requires exists i :: 0 <= i < |s| && s[i].block == b
    requires forall i :: 0 <= i < |s| && s[i].block == b ==> s[i].sources == n
    ensures row.sources == Max(if b in rows then rows[b].sources else 0, n)
  {
  }

  lemma {:induction false} SomeSource(c: Chain, b: int, extra: map<int, nat>)
    ensures SourcesSeen(c, b, extra) > 0
  {
  }

  lemma {:induction false} AddsDue(c: Chain, a: int, rows: map<int, Row>, from: int, end: int, after: map<int, Row>,
                                   b: int)
    requires Adds(c, a, rows, from, end, after) && from <= b <= end && c.authored(b)
    ensures b in after
  {
    assert InRange(c, from, end, b);
  }

  /** All observations of one block in a confirmed scan have the same sources, and there is one. */
  lemma {:induction false} DueAlike(c: Chain, from: int, end: int, extra: map<int, nat>, b: int) returns (k: nat)
    requires from <= b <= end && c.authored(b)
    ensures var s := AllConfirmed(Due(c, from, end), extra);
            && k < |s| && s[k].block == b
            && forall i :: 0 <= i < |s| && s[i].block == b ==> s[i].sources == SourcesSeen(c, b, extra)
  {
    var due := Due(c, from, end);
    var s := AllConfirmed(due, extra);
    DueIsExact(c, from, end);
    ConfirmedBlocks(due, extra);
    ConfirmedSees(c, b, extra);
    TruthMeasures(c, b);
    k :| k < |due| && due[k] == Truth(c, b);
    hide Due, AllConfirmed;
    forall i | 0 <= i < |s| && s[i].block == b ensures s[i].sources == SourcesSeen(c, b, extra) {
      assert due[i] == Truth(c, due[i].block) && s[i] == Confirmed(due[i], extra);
    }
  }

  // ---------- A scan transaction is exact ----------

  /** Recording the truth about an authored block never conflicts, and adds exactly that block. */
  lemma {:induction false} UpsertTrue(c: Chain, a: int, rows: map<int, Row>, b: int, extra: map<int, nat>)
    requires WellFormed(c) && RowsTrue(c, a, rows) && a < b && c.authored(b)
    ensures var r := Upsert(rows, Confirmed(Truth(c, b), extra));
            r.Some? && RowsTrue(c, a, r.value) && r.value.Keys == rows.Keys + {b} && Keeps(rows, r.value)
  {
  }

  /** The blocks authored in a range. */
  ghost predicate InRange(c: Chain, from: int, upto: int, b: int) {
    from <= b <= upto && c.authored(b)
  }

  lemma {:induction false} ConfirmedDue(c: Chain, from: int, end: int, extra: map<int, nat>)
    requires from <= end
    ensures AllConfirmed(Due(c, from, end), extra) ==
            AllConfirmed(Due(c, from, end - 1), extra) +
            (if c.authored(end) then [Confirmed(Truth(c, end), extra)] else [])
  {
    if c.authored(end) {
      assert Due(c, from, end)[..|Due(c, from, end)| - 1] == Due(c, from, end - 1);
    } else {
      assert Due(c, from, end) == Due(c, from, end - 1);
    }
  }

  lemma {:induction false} UpsertOneMore(rows: map<int, Row>, s: seq<Observation>, o: Observation)
    requires UpsertAll(rows, s).Some?
    ensures UpsertAll(rows, s + [o]) == Upsert(UpsertAll(rows, s).value, o)
  {
    assert (s + [o])[..|s|] == s;
  }

  /** `after` adds to `rows` exactly the blocks authored in a range. */
  ghost predicate Adds(c: Chain, a: int, rows: map<int, Row>, from: int, end: int, after: map<int, Row>) {
    && RowsTrue(c, a, after) && Keeps(rows, after)
    && forall b :: b in after <==> b in rows || InRange(c, from, end, b)
  }

  lemma {:induction false} AddsOneMore(c: Chain, a: int, rows: map<int, Row>, from: int, end: int,
                                       mid: map<int, Row>, extra: map<int, nat>)
    requires WellFormed(c) && a < from <= end && Adds(c, a, rows, from, end - 1, mid)
    ensures c.authored(end) ==>
              var r := Upsert(mid, Confirmed(Truth(c, end), extra));
              r.Some? && Adds(c, a, rows, from, end, r.value)
    ensures !c.authored(end) ==> Adds(c, a, rows, from, end, mid)
  {
    if c.authored(end) {
      UpsertTrue(c, a, mid, end, extra);
    }
    hide RowsTrue, WellFormed, Upsert, Confirmed, Truth;
  }

  lemma {:induction false} UpsertDue(c: Chain, a: int, rows: map<int, Row>, from: int, end: int, extra: map<int, nat>)
    requires WellFormed(c) && RowsTrue(c, a, rows) && a < from
    ensures var r := UpsertAll(rows, AllConfirmed(Due(c, from, end), extra));
            r.Some? && Adds(c, a, rows, from, end, r.value)
    decreases 1 + (end - from)
  {
    if from <= end {
      UpsertDue(c, a, rows, from, end - 1, extra);
      ConfirmedDue(c, from, end, extra);
      hide Adds, RowsTrue, WellFormed, Confirmed, Truth, AllConfirmed, Due, UpsertAll;
      var before := AllConfirmed(Due(c, from, end - 1), extra);
      AddsOneMore(c, a, rows, from, end, UpsertAll(rows, before).value, extra);
      if c.authored(end) {
        UpsertOneMore(rows, before, Confirmed(Truth(c, end), extra));
      } else {
        assert before + [] == before;
      }
    }
  }

  lemma {:induction false} DueWithin(c: Chain, from: int, end: int, extra: map<int, nat>)
    ensures AllWithin(AllConfirmed(Due(c, from, end), extra), from - 1, end)
  {
    DueIsExact(c, from, end);
    ConfirmedBlocks(Due(c, from, end), extra);
  }

  lemma {:induction false} ConfirmedBlocks(s: seq<Observation>, extra: map<int, nat>)
    ensures forall i :: 0 <= i < |s| ==> AllConfirmed(s, extra)[i] == Confirmed(s[i], extra)
  {
    if s != [] {
      ConfirmedBlocks(s[..|s| - 1], extra);
    }
  }

  /** A chunk is within the limits of the agent, the scanner and the store. */
  lemma {:induction false} ChunkIsLegal(cursor: int, finalized: int)
    requires 0 < cursor < finalized
    ensures var end := RewardScanEnd(cursor, finalized);
            LegalRange(cursor + 1, end) && ValidTransition(cursor, end) && end <= finalized
  {
  }

  /** What a scan transaction may do to the database: nothing, or record exactly its range. */
  ghost predicate ScanEffect(c: Chain, a: int, db: Database, from: int, end: int, after: Database) {
    && DbInv(c, a, after) && Grows(db, after) && after.audits == db.audits
    && Cursor(db) == from - 1 && Cursor(after) == end
    && forall b :: b in after.rows <==> b in db.rows || InRange(c, from, end, b)
  }

  lemma {:induction false} RangeJustified(c: Chain, a: int, db: Database, p: int, end: int, rows: map<int, Row>)
    requires Justified(c, a, db, p) && p < end
    requires forall b :: b in rows <==> b in db.rows || InRange(c, p + 1, end, b)
    ensures Justified(c, a, db.(rows := rows), end)
  {
    forall b | a < b <= end && c.authored(b) ensures b in rows || Skipped(db.audits, b) {
      if b <= p {
        assert b in db.rows || Skipped(db.audits, b);
      } else {
        assert InRange(c, p + 1, end, b);
      }
    }
  }

  lemma {:induction false} AppliedDue(c: Chain, a: int, db: Database, next: Overview, p: int, extra: map<int, nat>)
    requires WellFormed(c) && DbInv(c, a, db) && a <= p && ValidTransition(p, next.lastScanned)
    ensures var r := Applied(db, p, next, AllConfirmed(Due(c, p + 1, next.lastScanned), extra));
            && (r.Some? <==> Cursor(db) == p)
            && (r.Some? ==> ScanEffect(c, a, db, p + 1, next.lastScanned, r.value))
  {
    hide AllConfirmed, Due, UpsertAll, RowsTrue, WellFormed, AllWithin, InRange, Keeps;
    var end := next.lastScanned;
    DueWithin(c, p + 1, end, extra);
    UpsertDue(c, a, db.rows, p + 1, end, extra);
    if Cursor(db) == p {
      var rows := UpsertAll(db.rows, AllConfirmed(Due(c, p + 1, end), extra)).value;
      RangeJustified(c, a, db, p, end, rows);
      JustifiedIgnoresMonitor(c, a, db.(rows := rows), Some(Monitor(end, next)), end);
      hide Justified;
    }
  }

  lemma {:induction false} JustifiedIgnoresMonitor(c: Chain, a: int, db: Database, monitor: Option<Monitor>, v: int)
    requires Justified(c, a, db, v)
    ensures Justified(c, a, db.(monitor := monitor), v)
  {
  }

  lemma {:induction false} ApplyDue(c: Chain, a: int, db: Database, next: Overview, p: int, extra: map<int, nat>,
                                    io: TxIo)
    requires WellFormed(c) && DbInv(c, a, db) && a <= p && ValidTransition(p, next.lastScanned)
    ensures var (after, ok) := Apply(db, p, next, AllConfirmed(Due(c, p + 1, next.lastScanned), extra), io);
            && (after == db || ScanEffect(c, a, db, p + 1, next.lastScanned, after))
            && (ok <==> after != db && !io.AnswerLost?)
            && (Cursor(db) == p && !io.Breaks? ==> after != db)
  {
    AppliedDue(c, a, db, next, p, extra);
    hide AllConfirmed, Due, Applied, DbInv, Grows, InRange;
  }

  lemma {:induction false} AtLeastActivation(c: Chain, a: int, db: Database, v: int)
    requires Justified(c, a, db, v)
    ensures a <= v
  {
  }

  /** The scan part of a pass from a positive cursor. */
  lemma {:induction false} WorkMeans(c: Chain, db: Database, previous: Overview, local: Option<int>, outcome: Outcome)
    requires previous.lastScanned > 0
    ensures !(ScanIsDue(previous, local) && outcome.Scanned?) ==>
              Work(c, db, previous, local, outcome) == (db, previous)
    ensures ScanIsDue(previous, local) && outcome.Scanned? ==>
              var next := previous.(lastScanned := RewardScanEnd(previous.lastScanned, local.value));
              var r := Apply(db, previous.lastScanned, next,
                             AllConfirmed(Due(c, previous.lastScanned + 1, next.lastScanned), outcome.extra),
                             outcome.io);
              Work(c, db, previous, local, outcome) == (r.0, if r.1 then next else previous)
  {
    hide Apply, RewardScanEnd, Due, AllConfirmed;
  }

  /** The scan part of a pass that starts from a justified cursor. */
  lemma {:induction false} WorkEffect(c: Chain, a: int, db: Database, previous: Overview, local: Option<int>,
                                      outcome: Outcome)
    requires WellFormed(c) && a > 0 && DbInv(c, a, db) && Justified(c, a, db, previous.lastScanned)
    ensures var (after, next) := Work(c, db, previous, local, outcome);
            && (after == db ==> next == previous)
            && (after != db ==>
                  && ScanIsDue(previous, local) && outcome.Scanned?
                  && ScanEffect(c, a, db, previous.lastScanned + 1,
                                RewardScanEnd(previous.lastScanned, local.value), after)
                  && next == (if outcome.io.AnswerLost? then previous
                              else previous.(lastScanned := RewardScanEnd(previous.lastScanned, local.value))))
  {
    hide AllConfirmed, Due, ScanEffect, DbInv, Justified, Apply, RewardScanEnd, WellFormed, Work;
    AtLeastActivation(c, a, db, previous.lastScanned);
    WorkMeans(c, db, previous, local, outcome);
    if ScanIsDue(previous, local) && outcome.Scanned? {
      var end := RewardScanEnd(previous.lastScanned, local.value);
      ChunkIsLegal(previous.lastScanned, local.value);
      ApplyDue(c, a, db, previous.(lastScanned := end), previous.lastScanned, outcome.extra, outcome.io);
    }
  }

  /** A scan step of the system: nothing but the phase changes, or exactly one chunk is committed. */
  lemma {:induction false} WorkedEffect(c: Chain, a: int, s: System, w: int, outcome: Outcome)
    requires WellFormed(c) && SystemInv(c, a, s) && PhaseOf(s, w).Loaded?
    ensures var p := PhaseOf(s, w);
            var next := Worked(c, s, w, outcome);
            && w in next.workers && next.workers[w].Saving? && next.workers == s.workers[w := next.workers[w]]
            && next.holder == s.holder
            && (next.db == s.db ==>
                  next.log == s.log && next.behind == s.behind && next.workers[w].next == p.previous)
            && (next.db != s.db ==>
                  && outcome.Scanned? && p.local.Some?
                  && var from, end := p.previous.lastScanned + 1, RewardScanEnd(p.previous.lastScanned, p.local.value);
                     && ScanEffect(c, a, s.db, from, end, next.db) && from <= end
                     && next.log == s.log + [Covered(from, end)]
                     && next.behind == s.behind + Busy(s) - (if outcome.io.AnswerLost? then {} else {w})
                     && next.workers[w].next.lastScanned == if outcome.io.AnswerLost? then from - 1 else end)
  {
    hide DbInv, Justified, ScanEffect, Busy, WellFormed, Work, RewardScanEnd;
    var p := PhaseOf(s, w);
    assert PhaseInv(c, a, s.db, s.workers[w]);
    WorkEffect(c, a, s.db, p.previous, p.local, outcome);
    if ScanIsDue(p.previous, p.local) {
      ChunkIsLegal(p.previous.lastScanned, p.local.value);
    }
  }

  /** A chunk that is committed leaves each of its blocks with the most sources seen so far, and no other row is
      touched. */
  lemma {:induction false} CommitCountsSources(c: Chain, a: int, s: System, w: int, outcome: Outcome, b: int)
    requires WellFormed(c) && SystemInv(c, a, s) && PhaseOf(s, w).Loaded? && Worked(c, s, w, outcome).db != s.db
    ensures var p := PhaseOf(s, w);
            var from, end := p.previous.lastScanned + 1, RewardScanEnd(p.previous.lastScanned, p.local.value);
            var before, after := s.db.rows, Worked(c, s, w, outcome).db.rows;
            && (from <= b <= end && c.authored(b) ==>
                  && b in after
                  && after[b].sources == Max(if b in before then before[b].sources else 0,
                                             SourcesSeen(c, b, outcome.extra)))
            && (b in before && !(from <= b <= end) ==> b in after && after[b] == before[b])
  {
    hide DbInv, Justified, ScanEffect, Busy, WellFormed, Work, SourcesSeen, Due, AllConfirmed;
    WorkedEffect(c, a, s, w, outcome);
    var p := PhaseOf(s, w);
    assert PhaseInv(c, a, s.db, s.workers[w]);
    AtLeastActivation(c, a, s.db, p.previous.lastScanned);
    WorkMeans(c, s.db, p.previous, p.local, outcome);
    var from, end := p.previous.lastScanned + 1, RewardScanEnd(p.previous.lastScanned, p.local.value);
    hide RewardScanEnd;
    var x := AllConfirmed(Due(c, from, end), outcome.extra);
    assert UpsertAll(s.db.rows, x) == Some(Worked(c, s, w, outcome).db.rows);
    hide Apply, Applied, UpsertAll;
    RowsOf(c, a, s.db);
    if from <= b <= end && c.authored(b) {
      DueSources(c, a, s.db.rows, from, end, outcome.extra, b);
    }
    if b in s.db.rows && !(from <= b <= end) {
      DueWithin(c, from, end, outcome.extra);
      UntouchedBlock(s.db.rows, x, b);
    }
  }

  lemma {:induction false} RowsOf(c: Chain, a: int, db: Database)
    requires DbInv(c, a, db)
    ensures RowsTrue(c, a, db.rows)
  {
  }

  lemma {:induction false} UntouchedBlock(rows: map<int, Row>, s: seq<Observation>, b: int)
    requires UpsertAll(rows, s).Some? && b in rows && forall i :: 0 <= i < |s| ==> s[i].block != b
    ensures b in UpsertAll(rows, s).value && UpsertAll(rows, s).value[b] == rows[b]
  {
    if s != [] {
      UntouchedBlock(rows, s[..|s| - 1], b);
    }
  }

  lemma {:induction false} WorkInv(c: Chain, a: int, db: Database, previous: Overview, local: Option<int>,
                                   outcome: Outcome)
    requires WellFormed(c) && a > 0 && DbInv(c, a, db) && Justified(c, a, db, previous.lastScanned)
    ensures var (after, next) := Work(c, db, previous, local, outcome);
            DbInv(c, a, after) && Grows(db, after) && Justified(c, a, after, next.lastScanned)
  {
    WorkEffect(c, a, db, previous, local, outcome);
    var (after, next) := Work(c, db, previous, local, outcome);
    hide Work;
    if after != db {
      JustifiedGrows(c, a, db, after, previous.lastScanned);
    }
  }

  lemma {:induction false} RebaseInv(c: Chain, a: int, db: Database, expected: int, baseline: int, finalized: int,
                                     actor: string, reason: string)
    requires DbInv(c, a, db)
    ensures var r := Rebased(db, expected, baseline, finalized, actor, reason);
            r.Some? ==>
              && DbInv(c, a, r.value) && Grows(db, r.value) && r.value.rows == db.rows
              && Cursor(db) == expected && Cursor(r.value) == baseline > expected
              && |r.value.audits| == |db.audits| + 1
              && r.value.audits[|db.audits|].from == expected + 1
              && r.value.audits[|db.audits|].through == baseline
  {
    var r := Rebased(db, expected, baseline, finalized, actor, reason);
    if r.Some? {
      var after := r.value;
      hide Trim;
      JustifiedGrows(c, a, db, after, expected);
      forall b | a < b <= baseline && c.authored(b) ensures b in after.rows || Skipped(after.audits, b) {
        if b > expected {
          assert after.audits[|db.audits|].from <= b <= after.audits[|db.audits|].through;
        }
      }
    }
  }

  // ---------- Every step, every run ----------

  lemma {:induction false} NextInv(c: Chain, a: int, locked: bool, s: System, e: Event)
    requires WellFormed(c) && SystemInv(c, a, s)
    ensures SystemInv(c, a, Next(c, locked, s, e)) && Grows(s.db, Next(c, locked, s, e).db)
  {
    match e
    case Begin(w, local, loadOk) =>
    case Scan(w, outcome) => ScanInv(c, a, s, w, outcome);
    case Save(w, stats, effect) =>
    case Ack(expected, finalized, actor, reason, mutex, io) => AckInv(c, a, locked, s, e);
    case Crash(w) =>
  }

  lemma {:induction false} ScanInv(c: Chain, a: int, s: System, w: int, outcome: Outcome)
    requires WellFormed(c) && SystemInv(c, a, s)
    ensures PhaseOf(s, w).Loaded? ==>
              SystemInv(c, a, Worked(c, s, w, outcome)) && Grows(s.db, Worked(c, s, w, outcome).db)
  {
    if PhaseOf(s, w).Loaded? {
      var p := PhaseOf(s, w);
      assert PhaseInv(c, a, s.db, s.workers[w]);
      WorkInv(c, a, s.db, p.previous, p.local, outcome);
      PhasesGrow(c, a, s, Work(c, s.db, p.previous, p.local, outcome).0);
      hide Work, DbInv, Justified, Grows;
    }
  }

  lemma {:induction false} AckInv(c: Chain, a: int, locked: bool, s: System, e: Event)
    requires SystemInv(c, a, s) && e.Ack?
    ensures SystemInv(c, a, Next(c, locked, s, e)) && Grows(s.db, Next(c, locked, s, e).db)
  {
    var baseline := e.finalized - RETAINED_WINDOW;
    RebaseInv(c, a, s.db, e.expected, baseline, e.finalized, e.actor, e.reason);
    var after := Acknowledge(s.db, e.expected, baseline, e.finalized, e.actor, e.reason, e.io).0;
    assert after == s.db ||
           Rebased(s.db, e.expected, baseline, e.finalized, e.actor, e.reason) == Some(after);
    hide Rebased, Acknowledge;
    PhasesGrow(c, a, s, after);
    hide DbInv, Justified, Grows;
  }

  lemma {:induction false} ExecInv(c: Chain, a: int, locked: bool, start: System, run: seq<Event>)
    requires WellFormed(c) && JustActivated(start, a)
    ensures SystemInv(c, a, Exec(c, locked, start, run))
  {
    if run == [] {
      assert forall w :: w in start.workers ==> w in Busy(start) || start.workers[w].Idle?;
    } else {
      ExecInv(c, a, locked, start, run[..|run| - 1]);
      NextInv(c, a, locked, Exec(c, locked, start, run[..|run| - 1]), run[|run| - 1]);
    }
  }

  /** Exactness over every run of any number of collectors and acknowledgements, with or without the mutex,
      whatever fails, crashes or commits without an answer: a block between the activation and the cursor
      and outside every audited gap has a row if and only if the wallet authored it, and every row carries
      the facts of its block. */
  lemma {:induction false} LedgerIsExact(c: Chain, a: int, locked: bool, start: System, run: seq<Event>, b: int)
    requires WellFormed(c) && JustActivated(start, a)
    ensures var db := Exec(c, locked, start, run).db;
            && a <= Cursor(db)
            && (a < b <= Cursor(db) && !Skipped(db.audits, b) ==> (b in db.rows <==> c.authored(b)))
            && (b in db.rows ==> a < b && c.authored(b) && SameFacts(db.rows[b], Truth(c, b)))
  {
    ExecInv(c, a, locked, start, run);
  }

  /** In every run a row holds the amounts of its block measured against the parent, and its verdict compares them. */
  lemma {:induction false} RowsMeasure(c: Chain, a: int, locked: bool, start: System, run: seq<Event>, b: int)
    requires WellFormed(c) && JustActivated(start, a) && b in Exec(c, locked, start, run).db.rows
    ensures var row := Exec(c, locked, start, run).db.rows[b];
            && row.hash == c.hash(b)
            && Measures(Observation(b, row.hash, row.expected, row.credited, row.walletBefore, row.walletAfter,
                                    row.pot, row.verification, row.sources),
                        c.wallet(b - 1), c.wallet(b), c.pot(b - 1))
  {
    LedgerIsExact(c, a, locked, start, run, b);
    TruthMeasures(c, b);
    hide Exec, Measures, Truth;
    assert SameFacts(Exec(c, locked, start, run).db.rows[b], Truth(c, b));
    MeasuresIgnoresSources(c, b);
  }

  lemma {:induction false} MeasuresIgnoresSources(c: Chain, b: int)
    ensures forall n: int :: Measures(Truth(c, b).(sources := n), c.wallet(b - 1), c.wallet(b), c.pot(b - 1))
  {
    TruthMeasures(c, b);
  }

  /** Along every run rows are never removed and never lose a confirming source, and the audit log grows. */
  lemma {:induction false} NothingIsLost(c: Chain, a: int, locked: bool, start: System, run: seq<Event>, n: nat)
    requires WellFormed(c) && JustActivated(start, a) && n <= |run|
    ensures Grows(Exec(c, locked, start, run[..n]).db, Exec(c, locked, start, run).db)
    decreases |run|
  {
    if n == |run| {
      assert run[..n] == run;
    } else {
      var m := |run| - 1;
      assert run[..m][..n] == run[..n];
      NothingIsLost(c, a, locked, start, run[..m], n);
      ExecInv(c, a, locked, start, run[..m]);
      NextInv(c, a, locked, Exec(c, locked, start, run[..m]), run[m]);
    }
  }

  /** Recording an observation again changes nothing more: a chunk that is scanned twice is counted once. */
  lemma {:induction false} UpsertIsIdempotent(rows: map<int, Row>, o: Observation)
    requires Upsert(rows, o).Some?
    ensures Upsert(Upsert(rows, o).value, o) == Upsert(rows, o)
  {
    var once := Upsert(rows, o).value;
    assert Merged(once[o.block], o) == once[o.block];
    assert once[o.block := once[o.block]] == once;
  }

  /** Two runs over the same chain agree on every block both have passed outside their gaps, whatever the
      chunks, retries and failures were. */
  lemma {:induction false} RunsAgreeOutsideGaps(c: Chain, a: int, locked1: bool, start1: System, run1: seq<Event>,
                                                locked2: bool, start2: System, run2: seq<Event>, b: int)
    requires WellFormed(c) && JustActivated(start1, a) && JustActivated(start2, a)
    requires var db1, db2 := Exec(c, locked1, start1, run1).db, Exec(c, locked2, start2, run2).db;
             && b <= Cursor(db1) && !Skipped(db1.audits, b)
             && b <= Cursor(db2) && !Skipped(db2.audits, b)
    ensures var db1, db2 := Exec(c, locked1, start1, run1).db, Exec(c, locked2, start2, run2).db;
            && (b in db1.rows <==> b in db2.rows)
            && (b in db1.rows ==> db1.rows[b].(sources := 1) == db2.rows[b].(sources := 1))
  {
    LedgerIsExact(c, a, locked1, start1, run1, b);
    LedgerIsExact(c, a, locked2, start2, run2, b);
  }
}
