/** The reward tables and their transactions (internal/store/store.go).

A transaction works on a copy of the tables that replaces them at commit, so an error on the way rolls back.
The commit itself may take effect although its answer is lost.
*/
module Ledger {
  import opened Base
  import opened Text
  import opened Scan

  const RETAINED_WINDOW := 64
  const MAX_TRANSITION := 128

  datatype Row = Row(hash: string, expected: int, credited: int, walletBefore: int, walletAfter: int, pot: int,
                     verification: Verification, sources: int)

  /** The part of the saved overview that matters here. */
  datatype Overview = Overview(lastScanned: int, finalized: int, count: nat, total: int)

  /** The one row of the monitor table: the cursor is stored twice, as a column and inside the payload. */
  datatype Monitor = Monitor(column: int, payload: Overview)

  datatype Audit = Audit(from: int, through: int, resume: int, finalized: int, actor: string, reason: string)

  datatype Database = Database(monitor: Option<Monitor>, rows: map<int, Row>, audits: seq<Audit>)

  /** A transaction runs to the end, breaks at one of its statements, or commits without an answer. */
  datatype TxIo = Healthy | Breaks(at: nat) | AnswerLost

  datatype StoreError = InvalidRequest | CursorConflict | HashConflict | Unavailable

  // ---------- Specification ----------

  function AsRow(o: Observation): Row {
    Row(o.hash, o.expected, o.credited, o.walletBefore, o.walletAfter, o.pot, o.verification, o.sources)
  }

  /** A repeated observation keeps the amounts; its verdict counts if it has at least as many sources. */
  function Merged(row: Row, o: Observation): Row {
    row.(sources := Max(row.sources, o.sources),
         verification := if o.sources >= row.sources then o.verification else row.verification)
  }

  predicate HashUsed(rows: map<int, Row>, hash: string) {
    exists b | b in rows :: rows[b].hash == hash
  }

  function Upsert(rows: map<int, Row>, o: Observation): Option<map<int, Row>> {
    if o.block in rows then
      if rows[o.block].hash == o.hash then Some(rows[o.block := Merged(rows[o.block], o)]) else None
    else if HashUsed(rows, o.hash) then None
    else Some(rows[o.block := AsRow(o)])
  }

  function UpsertAll(rows: map<int, Row>, observations: seq<Observation>): Option<map<int, Row>> {
    if observations == [] then Some(rows)
    else
      var n := |observations| - 1;
      var before := UpsertAll(rows, observations[..n]);
      if before.None? then None else Upsert(before.value, observations[n])
  }

  // ---------- What a sequence of upserts means ----------

  /** Row `after` of block b stands for its row before, if it had one, and its observations in s: the amounts are
      the first ever recorded, the sources the most ever seen, and the verdict is the newest among those with the
      most sources. */
  ghost predicate Accumulates(rows: map<int, Row>, s: seq<Observation>, b: int, after: Row) {
    && (b in rows ==> after.(sources := 0, verification := Unknown) == rows[b].(sources := 0, verification := Unknown)
                      && rows[b].sources <= after.sources)
    && (b !in rows ==>
          exists i :: FirstOf(s, b, i) && after.(sources := 0, verification := Unknown)
                                          == AsRow(s[i]).(sources := 0, verification := Unknown))
    && (forall i :: 0 <= i < |s| && s[i].block == b ==> s[i].hash == after.hash && s[i].sources <= after.sources)
    && ((b in rows && after.sources == rows[b].sources && after.verification == rows[b].verification
         && forall i :: 0 <= i < |s| && s[i].block == b ==> s[i].sources < after.sources) ||
        exists i :: LastAt(s, b, after.sources, i) && after.verification == s[i].verification)
  }

  /** i is the first observation of block b. */
  ghost predicate FirstOf(s: seq<Observation>, b: int, i: int) {
    0 <= i < |s| && s[i].block == b && forall k :: 0 <= k < i ==> s[k].block != b
  }

  /** i is the last observation of block b with n sources. */
  ghost predicate LastAt(s: seq<Observation>, b: int, n: int, i: int) {
    0 <= i < |s| && s[i].block == b && s[i].sources == n
    && forall k :: i < k < |s| && s[k].block == b ==> s[k].sources != n
  }

  lemma {:induction false} FirstExtends(s: seq<Observation>, o: Observation, b: int, i: int)
    requires FirstOf(s, b, i)
    ensures FirstOf(s + [o], b, i)
  {
  }

  /** One more observation of the block. */
  lemma {:induction false} MergeAccumulates(rows: map<int, Row>, s: seq<Observation>, o: Observation, row: Row)
    requires Accumulates(rows, s, o.block, row) && row.hash == o.hash
    ensures Accumulates(rows, s + [o], o.block, Merged(row, o))
  {
    var more, b := s + [o], o.block;
    assert more[|s|] == o && forall i :: 0 <= i < |s| ==> more[i] == s[i];
    if b !in rows {
      var i :| FirstOf(s, b, i) &&
               row.(sources := 0, verification := Unknown) == AsRow(s[i]).(sources := 0, verification := Unknown);
      FirstExtends(s, o, b, i);
    }
    if o.sources >= row.sources {
      assert LastAt(more, b, o.sources, |s|);
    } else if i :| LastAt(s, b, row.sources, i) && row.verification == s[i].verification {
      assert LastAt(more, b, row.sources, i);
    }
  }

  /** The first observation of a block. */
  lemma {:induction false} NewAccumulates(rows: map<int, Row>, s: seq<Observation>, o: Observation)
    requires o.block !in rows && forall i :: 0 <= i < |s| ==> s[i].block != o.block
    ensures Accumulates(rows, s + [o], o.block, AsRow(o))
  {
    var more := s + [o];
    assert more[|s|] == o && forall i :: 0 <= i < |s| ==> more[i] == s[i];
    assert FirstOf(more, o.block, |s|) && LastAt(more, o.block, o.sources, |s|);
  }

  /** An observation of another block. */
  lemma {:induction false} OtherAccumulates(rows: map<int, Row>, s: seq<Observation>, o: Observation, b: int, row: Row)
    requires Accumulates(rows, s, b, row) && o.block != b
    ensures Accumulates(rows, s + [o], b, row)
  {
    var more := s + [o];
    assert more[|s|] == o && forall i :: 0 <= i < |s| ==> more[i] == s[i];
    if b !in rows {
      var i :| FirstOf(s, b, i) &&
               row.(sources := 0, verification := Unknown) == AsRow(s[i]).(sources := 0, verification := Unknown);
      FirstExtends(s, o, b, i);
    }
    if i :| LastAt(s, b, row.sources, i) && row.verification == s[i].verification {
      assert LastAt(more, b, row.sources, i);
    }
  }

  /** Before any observation every row stands for itself. */
  lemma {:induction false} NoneAccumulates(rows: map<int, Row>, b: int)
    requires b in rows
    ensures Accumulates(rows, [], b, rows[b])
  {
  }

  /** What a block and a hash have to do with each other, on record or observed. */
  ghost predicate Pairs(rows: map<int, Row>, s: seq<Observation>, b: int, hash: string) {
    (b in rows && rows[b].hash == hash) || exists i :: 0 <= i < |s| && s[i].block == b && s[i].hash == hash
  }

  /** No block has two hashes, and no hash two blocks. */
  ghost predicate OneToOne(rows: map<int, Row>, s: seq<Observation>) {
    forall b, x, hash, other :: Pairs(rows, s, b, hash) && Pairs(rows, s, x, other) ==> (b == x <==> hash == other)
  }

  lemma {:induction false} PairsGrow(rows: map<int, Row>, s: seq<Observation>, o: Observation, b: int, hash: string)
    ensures Pairs(rows, s + [o], b, hash) <==> Pairs(rows, s, b, hash) || (b == o.block && hash == o.hash)
  {
    var more := s + [o];
    assert more[|s|] == o && forall i :: 0 <= i < |s| ==> more[i] == s[i];
    if Pairs(rows, s, b, hash) && !(b in rows && rows[b].hash == hash) {
      var i :| 0 <= i < |s| && s[i].block == b && s[i].hash == hash;
      assert more[i].block == b && more[i].hash == hash;
    }
  }

  lemma {:induction false} OneToOneBefore(rows: map<int, Row>, s: seq<Observation>, o: Observation)
    requires OneToOne(rows, s + [o])
    ensures OneToOne(rows, s)
  {
    forall b, x, hash, other | Pairs(rows, s, b, hash) && Pairs(rows, s, x, other) ensures b == x <==> hash == other {
      PairsGrow(rows, s, o, b, hash);
      PairsGrow(rows, s, o, x, other);
    }
  }

  /** The rows that a sequence of upserts leaves: the blocks and hashes on record are those of the rows before and
      of the observations. */
  ghost predicate Represents(rows: map<int, Row>, s: seq<Observation>, after: map<int, Row>) {
    && (forall b :: b in after ==> Accumulates(rows, s, b, after[b]))
    && (forall b, hash :: Pairs(rows, s, b, hash) <==> b in after && after[b].hash == hash)
  }

  /** An upsert is accepted exactly if it keeps blocks and hashes one to one. */
  lemma {:induction false} UpsertRepresents(rows: map<int, Row>, s: seq<Observation>, o: Observation,
                                            mid: map<int, Row>)
    requires Represents(rows, s, mid) && OneToOne(rows, s)
    ensures Upsert(mid, o).Some? <==> OneToOne(rows, s + [o])
    ensures Upsert(mid, o).Some? ==> Represents(rows, s + [o], Upsert(mid, o).value)
  {
    hide Accumulates, Merged;
    forall b, hash
      ensures Pairs(rows, s + [o], b, hash) <==> Pairs(rows, s, b, hash) || (b == o.block && hash == o.hash)
    {
      PairsGrow(rows, s, o, b, hash);
    }
    hide Pairs;
    AcceptedIff(rows, s, o, mid);
    var r := Upsert(mid, o);
    if r.Some? {
      MergedKeeps(mid, o);
      forall b | b in r.value ensures Accumulates(rows, s + [o], b, r.value[b]) {
        if b != o.block {
          OtherAccumulates(rows, s, o, b, mid[b]);
        } else if b in mid {
          MergeAccumulates(rows, s, o, mid[b]);
        } else {
          Unobserved(rows, s, mid, b);
          NewAccumulates(rows, s, o);
        }
      }
    }
  }

  lemma {:induction false} MergedKeeps(rows: map<int, Row>, o: Observation)
    ensures o.block in rows ==> Merged(rows[o.block], o).hash == rows[o.block].hash
  {
  }

  lemma {:induction false} Unobserved(rows: map<int, Row>, s: seq<Observation>, after: map<int, Row>, b: int)
    requires Represents(rows, s, after) && b !in after
    ensures b !in rows && forall i :: 0 <= i < |s| ==> s[i].block != b
  {
    if b in rows {
      assert Pairs(rows, s, b, rows[b].hash);
    }
    forall i | 0 <= i < |s| ensures s[i].block != b {
      assert Pairs(rows, s, s[i].block, s[i].hash);
    }
  }

  lemma {:induction false} AcceptedIff(rows: map<int, Row>, s: seq<Observation>, o: Observation, mid: map<int, Row>)
    requires Represents(rows, s, mid) && OneToOne(rows, s)
    requires forall b, hash :: Pairs(rows, s + [o], b, hash) <==>
                               Pairs(rows, s, b, hash) || (b == o.block && hash == o.hash)
    ensures Upsert(mid, o).Some? <==> OneToOne(rows, s + [o])
  {
    hide Accumulates, Merged;
    assert Pairs(rows, s + [o], o.block, o.hash);
    if o.block in mid {
      assert Pairs(rows, s + [o], o.block, mid[o.block].hash);
    }
    if b :| b in mid && mid[b].hash == o.hash {
      assert Pairs(rows, s + [o], b, o.hash);
    }
  }

  /** Recording a sequence succeeds if and only if blocks and hashes stay one to one, and then every row stands for
      what was on record and all observations of its block. */
  lemma {:induction false} UpsertsAccumulate(rows: map<int, Row>, s: seq<Observation>)
    requires OneToOne(rows, [])
    ensures UpsertAll(rows, s).Some? <==> OneToOne(rows, s)
    ensures UpsertAll(rows, s).Some? ==> Represents(rows, s, UpsertAll(rows, s).value)
  {
    hide Upsert, OneToOne;
    if s == [] {
      forall b | b in rows ensures Accumulates(rows, [], b, rows[b]) {
        NoneAccumulates(rows, b);
      }
      hide Accumulates;
      assert s == [];
    } else {
      var n := |s| - 1;
      assert s[..n] + [s[n]] == s;
      hide Represents;
      UpsertsAccumulate(rows, s[..n]);
      if UpsertAll(rows, s[..n]).Some? {
        UpsertRepresents(rows, s[..n], s[n], UpsertAll(rows, s[..n]).value);
      }
      if OneToOne(rows, s) {
        OneToOneBefore(rows, s[..n], s[n]);
      }
    }
  }

  predicate ValidTransition(expected: int, next: int) {
    0 < expected < next && next - expected <= MAX_TRANSITION
  }

  predicate Within(o: Observation, expected: int, next: int) {
    expected < o.block <= next
  }

  predicate AllWithin(observations: seq<Observation>, expected: int, next: int) {
    forall i :: 0 <= i < |observations| ==> Within(observations[i], expected, next)
  }

  /** Statements of a scan transaction: begin, lock, the upserts, the cursor update and the commit. */
  predicate Finishes(io: TxIo, statements: nat) {
    io.Breaks? ==> io.at >= statements
  }

  /** The tables after a scan commits, if the scan is acceptable. */
  function Applied(db: Database, expected: int, overview: Overview, observations: seq<Observation>): Option<Database> {
    if !ValidTransition(expected, overview.lastScanned) || !AllWithin(observations, expected, overview.lastScanned)
       || db.monitor.None? || db.monitor.value.column != expected then None
    else
      var rows := UpsertAll(db.rows, observations);
      if rows.None? then None
      else Some(db.(rows := rows.value, monitor := Some(Monitor(overview.lastScanned, overview))))
  }

  function Apply(db: Database, expected: int, overview: Overview, observations: seq<Observation>, io: TxIo)
    : (Database, bool)
  {
    var next := Applied(db, expected, overview, observations);
    if next.None? || !Finishes(io, |observations| + 4) then (db, false) else (next.value, !io.AnswerLost?)
  }

  /** The tables after an operator-approved rebase commits, if it is acceptable. */
  function Rebased(db: Database, expected: int, baseline: int, finalized: int, actor: string, reason: string)
    : Option<Database>
  {
    if expected <= 0 || baseline <= expected || finalized - baseline != RETAINED_WINDOW
       || Trim(actor) == "" || Trim(reason) == ""
       || db.monitor.None? || db.monitor.value.column != expected
       || db.monitor.value.payload.lastScanned != expected then None
    else
      var payload := db.monitor.value.payload.(lastScanned := baseline, finalized := finalized);
      Some(Database(Some(Monitor(baseline, payload)), db.rows,
                    db.audits + [Audit(expected + 1, baseline, baseline + 1, finalized,
                                       Trim(actor), Trim(reason))]))
  }

  /** Statements of a rebase: begin, lock, audit row, cursor update and commit. */
  function Acknowledge(db: Database, expected: int, baseline: int, finalized: int, actor: string, reason: string,
                       io: TxIo): (Database, bool)
  {
    var next := Rebased(db, expected, baseline, finalized, actor, reason);
    if next.None? || !Finishes(io, 5) then (db, false) else (next.value, !io.AnswerLost?)
  }

  function Saved(db: Database, overview: Overview): Database {
    db.(monitor := Some(Monitor(overview.lastScanned, overview)))
  }

  /** The credited sum of all rows. */
  ghost function Total(rows: map<int, Row>): int
    decreases |rows|
  {
    if exists b :: b in rows then
      var b :| b in rows;
      rows[b].credited + Total(rows - {b})
    else 0
  }

  lemma {:induction false} TotalWithout(rows: map<int, Row>, b: int)
    requires b in rows
    ensures Total(rows) == rows[b].credited + Total(rows - {b})
    decreases |rows|
  {
    var k :| k in rows && Total(rows) == rows[k].credited + Total(rows - {k});
    if k != b {
      TotalWithout(rows - {k}, b);
      TotalWithout(rows - {b}, k);
      assert rows - {k} - {b} == rows - {b} - {k};
    }
  }

  /** A scan is accepted exactly if it moves a positive stored cursor forward by at most 128, all its observations lie
      in between and blocks and hashes stay one to one; then the rows stand for all that was observed, both copies of the
      cursor are the new one, and the audits are as before. */
  lemma {:induction false} AppliedIff(db: Database, expected: int, next: Overview, observations: seq<Observation>)
    requires OneToOne(db.rows, [])
    ensures var r := Applied(db, expected, next, observations);
            && (r.Some? <==>
                  && 0 < expected < next.lastScanned <= expected + 128
                  && db.monitor != None && db.monitor.value.column == expected
                  && OneToOne(db.rows, observations)
                  && forall i :: 0 <= i < |observations| ==> expected < observations[i].block <= next.lastScanned)
            && (r.Some? ==>
                  && Represents(db.rows, observations, r.value.rows)
                  && r.value.monitor == Some(Monitor(next.lastScanned, next)) && r.value.audits == db.audits)
  {
    hide OneToOne, Represents, UpsertAll;
    UpsertsAccumulate(db.rows, observations);
  }

  /** A transaction that breaks before its last statement changes nothing, and one whose answer is lost changes
      everything without saying so. */
  lemma {:induction false} ApplyMeans(db: Database, expected: int, next: Overview, observations: seq<Observation>,
                                      io: TxIo)
    ensures var (after, ok) := Apply(db, expected, next, observations, io);
            var r := Applied(db, expected, next, observations);
            && after == (if r.None? || (io.Breaks? && io.at < |observations| + 4) then db else r.value)
            && (ok <==> r.Some? && io != AnswerLost && (io.Breaks? ==> io.at >= |observations| + 4))
  {
    hide Applied;
  }

  // ---------- The store ----------

  class Store {
    var monitor: Option<Monitor>
    var rows: map<int, Row>
    var audits: seq<Audit>

    ghost function View(): Database
      reads this
    {
      Database(monitor, rows, audits)
    }

    constructor ()
      ensures View() == Database(None, map[], [])
    {
      monitor, rows, audits := None, map[], [];
    }

    method LoadRewardOverview() returns (r: Option<Overview>)
      ensures r == if monitor.None? then None else Some(monitor.value.payload)
    {
      r := if monitor.None? then None else Some(monitor.value.payload);
    }

    method SaveRewardOverview(overview: Overview)
      modifies this
      ensures View() == Saved(old(View()), overview)
    {
      monitor := Some(Monitor(overview.lastScanned, overview));
    }

    /** Count and sum over all rows, written into the overview, and the amount of the newest row. */
    method RewardStats(overview: Overview) returns (r: Overview, last: int)
      ensures r == overview.(count := |rows|, total := Total(rows))
      ensures rows == map[] ==> last == 0
      ensures forall b :: b in rows && (forall k :: k in rows ==> k <= b) ==> last == rows[b].credited
    {
      var count: nat, total := 0, 0;
      var pending := rows.Keys;
      var newest: Option<int> := None;
      last := 0;
      ghost var left := rows;
      assert NewestOf(rows, pending, newest, last);
      NewestMeans(rows);
      hide NewestOf;
      while pending != {}
        invariant left.Keys == pending && pending <= rows.Keys && (forall b :: b in left ==> left[b] == rows[b])
        invariant count + |left| == |rows| && total + Total(left) == Total(rows)
        invariant NewestOf(rows, pending, newest, last)
        decreases pending
      {
        ghost var some := AnyOf(pending);
        var b :| b in pending;
        TotalWithout(left, b);
        assert left == (left - {b})[b := left[b]];
        NewestStep(rows, pending, newest, last, b);
        count, total := count + 1, total + rows[b].credited;
        if newest.None? || b > newest.value { newest, last := Some(b), rows[b].credited; }
        left := left - {b};
        pending := pending - {b};
      }
      r := overview.(count := count, total := total);
    }

    /** The upsert statement on a working copy. */
    static method UpsertRewardObservation(working: map<int, Row>, o: Observation) returns (r: Option<map<int, Row>>)
      ensures r == Upsert(working, o)
    {
      if o.block in working {
        var row := working[o.block];
        if row.hash != o.hash { return None; }
        var verification := row.verification;
        if o.sources >= row.sources { verification := o.verification; }
        return Some(working[o.block := row.(sources := Max(row.sources, o.sources), verification := verification)]);
      }
      if HashUsed(working, o.hash) { return None; }
      r := Some(working[o.block := AsRow(o)]);
    }

    method ApplyRewardScan(expected: int, overview: Overview, observations: seq<Observation>, io: TxIo)
      returns (r: Option<StoreError>)
      modifies this
      ensures (View(), r.None?) == Apply(old(View()), expected, overview, observations, io)
      ensures var next := overview.lastScanned;
              r == Some(InvalidRequest) <==>
              || expected <= 0 || next <= expected || next - expected > 128
              || exists i :: 0 <= i < |observations| && !(expected < observations[i].block <= next)
      ensures r == Some(CursorConflict) <==>
                r != Some(InvalidRequest) && io !in {Breaks(0), Breaks(1)} && old(monitor) != None
                && old(monitor).value.column != expected
      ensures r == Some(HashConflict) ==> UpsertAll(old(rows), observations) == None
      ensures r == Some(Unavailable) ==> io != Healthy || old(monitor) == None
    {
      if expected <= 0 || overview.lastScanned <= expected { return Some(InvalidRequest); }
      if overview.lastScanned - expected > MAX_TRANSITION { return Some(InvalidRequest); }
      var i := 0;
      while i < |observations|
        invariant 0 <= i <= |observations|
        invariant forall k :: 0 <= k < i ==> Within(observations[k], expected, overview.lastScanned)
      {
        var o := observations[i];
        if o.block <= expected || o.block > overview.lastScanned {
          assert !Within(observations[i], expected, overview.lastScanned);
          return Some(InvalidRequest);
        }
        i := i + 1;
      }
      hide UpsertAll, AllWithin;
      if io == Breaks(0) || io == Breaks(1) || monitor.None? { return Some(Unavailable); }
      if monitor.value.column != expected { return Some(CursorConflict); }
      var working := UpsertInto(rows, observations, io);
      if working.Err? { return Some(working.error); }
      if io.Breaks? && io.at < |observations| + 4 { return Some(Unavailable); }
      rows := working.value;
      monitor := Some(Monitor(overview.lastScanned, overview));
      if io.AnswerLost? { return Some(Unavailable); }
      r := None;
    }

    /** The upserts of a transaction, in order, on a working copy. */
    static method UpsertInto(rows: map<int, Row>, observations: seq<Observation>, io: TxIo)
      returns (r: Result<map<int, Row>, StoreError>)
      ensures r.Ok? ==> UpsertAll(rows, observations) == Some(r.value)
      ensures r.Err? ==> r.error in {HashConflict, Unavailable}
      ensures r == Err(HashConflict) ==> UpsertAll(rows, observations).None?
      ensures r == Err(Unavailable) ==> !Finishes(io, |observations| + 2)
    {
      var working := rows;
      var i := 0;
      while i < |observations|
        invariant 0 <= i <= |observations| && UpsertAll(rows, observations[..i]) == Some(working)
      {
        if io == Breaks(i + 2) { return Err(Unavailable); }
        var next := UpsertRewardObservation(working, observations[i]);
        assert observations[..i + 1][..i] == observations[..i];
        if next.None? {
          ConflictStays(rows, observations, i + 1);
          return Err(HashConflict);
        }
        working := next.value;
        i := i + 1;
      }
      assert observations[..i] == observations;
      r := Ok(working);
    }

    method AcknowledgePrunedRewardGap(expected: int, baseline: int, finalized: int, actor: string, reason: string,
                                      io: TxIo) returns (r: Option<StoreError>)
      modifies this
      ensures (View(), r.None?) == Acknowledge(old(View()), expected, baseline, finalized, actor, reason, io)
      ensures r == Some(InvalidRequest) <==>
                expected <= 0 || baseline <= expected || finalized - baseline != 64 || Trim(actor) == ""
                || Trim(reason) == ""
      ensures r == Some(CursorConflict) <==>
                r != Some(InvalidRequest) && io !in {Breaks(0), Breaks(1)} && old(monitor) != None &&
                !(old(monitor).value.column == old(monitor).value.payload.lastScanned == expected)
      ensures r == Some(Unavailable) ==> io != Healthy || old(monitor) == None
    {
      if expected <= 0 || baseline <= expected || finalized - baseline != RETAINED_WINDOW {
        return Some(InvalidRequest);
      }
      if Trim(actor) == "" || Trim(reason) == "" { return Some(InvalidRequest); }
      if io == Breaks(0) || io == Breaks(1) || monitor.None? { return Some(Unavailable); }
      var overview := monitor.value.payload;
      if monitor.value.column != expected || overview.lastScanned != expected { return Some(CursorConflict); }
      overview := overview.(lastScanned := baseline, finalized := finalized);
      if io.Breaks? && io.at < 5 { return Some(Unavailable); }
      audits := audits + [Audit(expected + 1, baseline, baseline + 1, finalized, Trim(actor), Trim(reason))];
      monitor := Some(Monitor(baseline, overview));
      if io.AnswerLost? { return Some(Unavailable); }
      r := None;
    }
  }

  /** The newest row outside `pending` and its amount. */
  ghost predicate NewestOf(rows: map<int, Row>, pending: set<int>, newest: Option<int>, last: int) {
    && (newest.None? ==> pending == rows.Keys && last == 0)
    && (newest.Some? ==> newest.value in rows && last == rows[newest.value].credited)
    && (forall b :: b in rows && b !in pending ==> newest.Some? && b <= newest.value)
  }

  lemma {:induction false} NewestStep(rows: map<int, Row>, pending: set<int>, newest: Option<int>, last: int, b: int)
    requires NewestOf(rows, pending, newest, last) && b in pending && b in rows
    ensures if newest.None? || b > newest.value then NewestOf(rows, pending - {b}, Some(b), rows[b].credited)
            else NewestOf(rows, pending - {b}, newest, last)
  {
  }

  lemma {:induction false} NewestMeans(rows: map<int, Row>)
    ensures forall newest: Option<int>, last: int {:trigger NewestOf(rows, {}, newest, last)} ::
              NewestOf(rows, {}, newest, last) ==>
                && (rows == map[] ==> last == 0)
                && forall b :: b in rows && (forall k :: k in rows ==> k <= b) ==> last == rows[b].credited
  {
  }

  lemma {:induction false} AnyOf(s: set<int>) returns (b: int)
    requires s != {}
    ensures b in s
  {
    assert (forall x: int :: x !in s) ==> s == {};
    b :| b in s;
  }

  lemma {:induction false} ConflictStays(rows: map<int, Row>, observations: seq<Observation>, n: nat)
    requires n <= |observations| && UpsertAll(rows, observations[..n]).None?
    ensures UpsertAll(rows, observations).None?
    decreases |observations|
  {
    if n == |observations| {
      assert observations[..n] == observations;
    } else {
      var m := |observations| - 1;
      assert observations[..m][..n] == observations[..n];
      ConflictStays(rows, observations[..m], n);
    }
  }
}
