/** When the reward cursor goes backwards, and how monitoring starts (cmd/controller/main.go,
internal/store/store.go). */
module LedgerHazards {
  import opened Base
  import opened Text
  import opened Scan
  import opened Ledger
  import opened LedgerRuns
  import opened LedgerTiling

  // ---------- One collector, acknowledgements at any time ----------

  ghost predicate OneCollector(run: seq<Event>, w: int) {
    forall i :: 0 <= i < |run| && !run[i].Ack? ==> run[i].w == w
  }

  /** The collector never runs ahead of the cursor, and lags it exactly when it is behind. */
  ghost predicate BehindInv(s: System, w: int) {
    && Busy(s) <= {w}
    && (!PhaseOf(s, w).Idle? ==>
          && PhaseCursor(PhaseOf(s, w)) <= Cursor(s.db)
          && (PhaseCursor(PhaseOf(s, w)) == Cursor(s.db) <==> w !in s.behind))
  }

  lemma {:induction false} OthersIdle(s: System, w: int)
    requires Busy(s) <= {w}
    ensures forall v :: v in s.workers && v != w ==> s.workers[v].Idle?
    ensures PhaseOf(s, w).Idle? <==> w !in Busy(s)
  {
    forall v | v in s.workers && !s.workers[v].Idle? ensures v == w {
      assert v in Busy(s);
    }
  }

  lemma {:induction false} ScanBehind(c: Chain, a: int, s: System, w: int, outcome: Outcome)
    requires WellFormed(c) && SystemInv(c, a, s) && BehindInv(s, w) && PhaseOf(s, w).Loaded?
    ensures BehindInv(Worked(c, s, w, outcome), w) && Cursor(s.db) <= Cursor(Worked(c, s, w, outcome).db)
  {
    hide SystemInv, WellFormed, Worked, RewardScanEnd, DbInv, Grows, InRange;
    OthersIdle(s, w);
    WorkedEffect(c, a, s, w, outcome);
  }

  lemma {:induction false} AckBehind(c: Chain, a: int, locked: bool, s: System, e: Event, w: int)
    requires SystemInv(c, a, s) && BehindInv(s, w) && e.Ack?
    ensures BehindInv(Next(c, locked, s, e), w) && Cursor(s.db) <= Cursor(Next(c, locked, s, e).db)
  {
    var baseline := e.finalized - RETAINED_WINDOW;
    RebaseInv(c, a, s.db, e.expected, baseline, e.finalized, e.actor, e.reason);
    OthersIdle(s, w);
    assert forall v :: v in Busy(s) <==> v in s.workers && !s.workers[v].Idle?;
    hide Rebased, DbInv, SystemInv;
  }

  lemma {:induction false} NextBehind(c: Chain, a: int, locked: bool, s: System, e: Event, w: int)
    requires WellFormed(c) && SystemInv(c, a, s) && BehindInv(s, w) && (e.Ack? || e.w == w)
    ensures BehindInv(Next(c, locked, s, e), w)
    ensures !e.Save? ==> Cursor(s.db) <= Cursor(Next(c, locked, s, e).db)
  {
    match e
    case Begin(_, local, loadOk) => OthersIdle(s, w);
    case Scan(_, outcome) =>
      if PhaseOf(s, w).Loaded? {
        ScanBehind(c, a, s, w, outcome);
      }
    case Save(_, stats, effect) => OthersIdle(s, w);
    case Ack(expected, finalized, actor, reason, mutex, io) => AckBehind(c, a, locked, s, e, w);
    case Crash(_) => OthersIdle(s, w);
  }

  lemma {:induction false} ExecBehind(c: Chain, a: int, locked: bool, start: System, run: seq<Event>, w: int)
    requires WellFormed(c) && JustActivated(start, a) && OneCollector(run, w)
    ensures BehindInv(Exec(c, locked, start, run), w)
  {
    if run == [] {
      assert PhaseOf(start, w).Idle? || w in Busy(start);
    } else {
      ExecBehind(c, a, locked, start, run[..|run| - 1], w);
      ExecInv(c, a, locked, start, run[..|run| - 1]);
      NextBehind(c, a, locked, Exec(c, locked, start, run[..|run| - 1]), run[|run| - 1], w);
    }
  }

  /** With one collector, and acknowledgements that may come without the mutex, the cursor goes backwards in
      one step exactly when that step saves the overview of a pass that was overtaken: an acknowledgement
      moved the cursor since the pass loaded it, or the commit of the pass was not answered. */
  lemma {:induction false} CursorGoesBackIff(c: Chain, a: int, locked: bool, start: System, run: seq<Event>, w: int,
                                             e: Event)
    requires WellFormed(c) && JustActivated(start, a) && OneCollector(run, w) && (e.Ack? || e.w == w)
    ensures var s := Exec(c, locked, start, run);
            && (Cursor(Next(c, locked, s, e).db) < Cursor(s.db) <==> OvertakenSave(s, e))
            && (OvertakenSave(s, e) <==> StaleSave(s, e))
  {
    ExecBehind(c, a, locked, start, run, w);
    ExecInv(c, a, locked, start, run);
    NextBehind(c, a, locked, Exec(c, locked, start, run), e, w);
    hide Exec, SystemInv, WellFormed;
  }

  /** Some segment ends beyond the cursor, or begins before the end of an earlier one. */
  ghost predicate Spoiled(log: seq<Segment>, v: int) {
    || (exists i :: 0 <= i < |log| && log[i].to > v)
    || (exists i, j :: 0 <= i < j < |log| && log[j].from <= log[i].to)
  }

  lemma {:induction false} SpoiledNeverTiles(log: seq<Segment>, a: int, v: int)
    requires Tiles(log, a, v)
    ensures !Spoiled(log, v)
  {
    TilesBounded(log, a, v);
    if log != [] {
      var n := |log| - 1;
      SpoiledNeverTiles(log[..n], a, log[n].from - 1);
      TilesBounded(log[..n], a, log[n].from - 1);
      assert forall i :: 0 <= i < n ==> log[..n][i] == log[i];
    }
  }

  /** Committing the next segment does not repair a spoiled log. */
  lemma {:induction false} SpoiledGrows(log: seq<Segment>, v: int, last: Segment)
    requires Spoiled(log, v) && last.from == v + 1
    ensures Spoiled(log + [last], last.to)
  {
    var more := log + [last];
    assert more[|log|] == last && forall i :: 0 <= i < |log| ==> more[i] == log[i];
    if i :| 0 <= i < |log| && log[i].to > v {
      assert more[|log|].from <= more[i].to;
    }
  }

  lemma {:induction false} NextSpoiled(c: Chain, a: int, locked: bool, s: System, e: Event, w: int)
    requires WellFormed(c) && SystemInv(c, a, s) && BehindInv(s, w) && (e.Ack? || e.w == w)
    requires Spoiled(s.log, Cursor(s.db))
    ensures var next := Next(c, locked, s, e); Spoiled(next.log, Cursor(next.db))
  {
    hide WellFormed, SystemInv, Spoiled, ScanEffect, RewardScanEnd, Worked, Rebased, DbInv;
    match e
    case Begin(_, local, loadOk) =>
    case Scan(_, outcome) =>
      if PhaseOf(s, w).Loaded? {
        WorkedEffect(c, a, s, w, outcome);
        var p := PhaseOf(s, w).previous.lastScanned;
        if Worked(c, s, w, outcome).db != s.db {
          var end := RewardScanEnd(p, PhaseOf(s, w).local.value);
          EffectMoves(c, a, s.db, p + 1, end, Worked(c, s, w, outcome).db);
          SpoiledGrows(s.log, Cursor(s.db), Covered(p + 1, end));
        }
      }
    case Save(_, stats, effect) => SpoiledBelow(s.log, Cursor(s.db), Cursor(Next(c, locked, s, e).db));
    case Ack(expected, finalized, actor, reason, mutex, io) => AckSpoiled(c, a, locked, s, e);
    case Crash(_) =>
  }

  lemma {:induction false} AckSpoiled(c: Chain, a: int, locked: bool, s: System, e: Event)
    requires SystemInv(c, a, s) && e.Ack? && Spoiled(s.log, Cursor(s.db))
    ensures var next := Next(c, locked, s, e); Spoiled(next.log, Cursor(next.db))
  {
    var baseline := e.finalized - RETAINED_WINDOW;
    RebaseInv(c, a, s.db, e.expected, baseline, e.finalized, e.actor, e.reason);
    hide Rebased, DbInv, SystemInv, Spoiled;
    if Next(c, locked, s, e) != s {
      SpoiledGrows(s.log, Cursor(s.db), Gap(e.expected + 1, baseline));
    }
  }

  lemma {:induction false} SpoiledBelow(log: seq<Segment>, v: int, lower: int)
    requires Spoiled(log, v) && lower <= v
    ensures Spoiled(log, lower)
  {
  }

  /** Where the first stale save leaves the log. */
  lemma {:induction false} StaleSpoils(c: Chain, a: int, locked: bool, s: System, e: Event)
    requires SystemInv(c, a, s) && StaleSave(s, e) && BehindInv(s, e.w) && Tiles(s.log, a, Cursor(s.db))
    ensures var next := Next(c, locked, s, e); Spoiled(next.log, Cursor(next.db))
  {
    assert PhaseInv(c, a, s.db, s.workers[e.w]);
    assert s.log[|s.log| - 1].to == Cursor(s.db);
  }

  lemma {:induction false} ExecSpoiled(c: Chain, a: int, locked: bool, start: System, run: seq<Event>, w: int)
    requires WellFormed(c) && JustActivated(start, a) && OneCollector(run, w) && !NoStaleSave(c, locked, start, run)
    ensures var s := Exec(c, locked, start, run); Spoiled(s.log, Cursor(s.db))
  {
    hide Next, Spoiled, StaleSave, SystemInv, BehindInv, WellFormed, JustActivated, Tiles;
    var m := |run| - 1;
    var s := Exec(c, locked, start, run[..m]);
    ExecBehind(c, a, locked, start, run[..m], w);
    ExecInv(c, a, locked, start, run[..m]);
    assert run[m].Ack? || run[m].w == w;
    if NoStaleSave(c, locked, start, run[..m]) {
      ExecTiles(c, a, locked, start, run[..m]);
      LastIsStale(c, locked, start, run);
      StaleIsSave(s, run[m]);
      StaleSpoils(c, a, locked, s, run[m]);
    } else {
      ExecSpoiled(c, a, locked, start, run[..m], w);
      NextSpoiled(c, a, locked, s, run[m], w);
    }
  }

  lemma {:induction false} StaleIsSave(s: System, e: Event)
    requires StaleSave(s, e)
    ensures e.Save?
  {
  }

  lemma {:induction false} LastIsStale(c: Chain, locked: bool, start: System, run: seq<Event>)
    requires !NoStaleSave(c, locked, start, run) && run != [] && NoStaleSave(c, locked, start, run[..|run| - 1])
    ensures StaleSave(Exec(c, locked, start, run[..|run| - 1]), run[|run| - 1])
  {
    hide StaleSave, Exec;
    var m := |run| - 1;
    assert forall n :: 0 <= n < m ==> run[..m][..n] == run[..n] && run[..m][n] == run[n];
  }

  /** With one collector, scanned and audited intervals tile the chain at the end of a run if and only if no save
      was stale on the way: a gap in the tiling never heals. */
  lemma {:induction false} TilesIff(c: Chain, a: int, locked: bool, start: System, run: seq<Event>, w: int)
    requires WellFormed(c) && JustActivated(start, a) && OneCollector(run, w)
    ensures var s := Exec(c, locked, start, run);
            && (Tiles(s.log, a, Cursor(s.db)) <==> NoStaleSave(c, locked, start, run))
            && (TilingInv(c, a, s) <==> NoStaleSave(c, locked, start, run))
  {
    var s := Exec(c, locked, start, run);
    hide Exec, NoStaleSave, Tiles, WellFormed, JustActivated, OneCollector, Spoiled;
    if NoStaleSave(c, locked, start, run) {
      ExecTiles(c, a, locked, start, run);
    } else {
      ExecSpoiled(c, a, locked, start, run, w);
      if Tiles(s.log, a, Cursor(s.db)) {
        SpoiledNeverTiles(s.log, a, Cursor(s.db));
      }
    }
  }

  // ---------- Any number of collectors ----------

  /** With any number of collectors only one kind of step lowers the cursor: a save by a collector that was
      overtaken since it loaded, by a commit, an acknowledgement or a save of somebody else, or by its own
      commit whose answer it did not get. */
  lemma {:induction false} OnlyOvertakenSavesLower(c: Chain, a: int, locked: bool, start: System, run: seq<Event>,
                                                   e: Event)
    requires WellFormed(c) && JustActivated(start, a)
    requires var s := Exec(c, locked, start, run); Cursor(Next(c, locked, s, e).db) < Cursor(s.db)
    ensures OvertakenSave(Exec(c, locked, start, run), e)
  {
    ExecInforms(c, a, locked, start, run);
    ExecInv(c, a, locked, start, run);
    NextInforms(c, a, locked, Exec(c, locked, start, run), e);
    hide Exec, SystemInv, WellFormed, JustActivated;
  }

  // ---------- Runs in which it happens ----------

  function Activated(a: int): System {
    System(Database(Some(Monitor(a, Overview(a, a, 0, 0))), map[], []), map[], None, [], {})
  }

  lemma {:induction false} ExecOneMore(c: Chain, locked: bool, start: System, run: seq<Event>, e: Event)
    ensures Exec(c, locked, start, run + [e]) == Next(c, locked, Exec(c, locked, start, run), e)
  {
    assert (run + [e])[..|run|] == run;
  }

  function Waiting(a: int, height: int): System {
    Activated(a).(workers := map[1 := Loaded(Overview(a, height, 0, 0), Some(height))])
  }

  /** A command line acknowledgement of the gap from 100 at some height, in a database whose cursor stands there. */
  lemma {:induction false} AckAt(c: Chain, locked: bool, s: System, height: int)
    requires s.db.monitor.Some? && s.db.monitor.value.column == 100 == s.db.monitor.value.payload.lastScanned
    requires height > 164
    ensures var next := Next(c, locked, s, Ack(100, height, "op", "ok", false, Healthy));
            && Cursor(next.db) == height - 64 && next.workers == s.workers
            && next.db.audits == s.db.audits + [Audit(101, height - 64, height - 63, height, "op", "ok")]
  {
    assert Trim("op") == "op" && Trim("ok") == "ok";
    hide Trim;
  }

  lemma {:induction false} PassFails(c: Chain, locked: bool, s: System)
    requires s.workers == Waiting(100, 300).workers && s.db.monitor.Some?
    ensures var next := Next(c, locked, Next(c, locked, s, Event.Scan(1, ScanFailed)), Save(1, false, true));
            next.db == s.db.(monitor := Some(Monitor(100, Overview(100, 300, 0, 0))))
  {
    assert Next(c, locked, s, Event.Scan(1, ScanFailed)).workers[1] == Saving(Overview(100, 300, 0, 0));
  }

  const ACK_300 := Ack(100, 300, "op", "ok", false, Healthy)
  const ACK_400 := Ack(100, 400, "op", "ok", false, Healthy)

  /** The command line acknowledges a gap without the mutex, although passes hold it.  If a pass is under way its
      save undoes the rebase, and a second acknowledgement then records a gap that overlaps the first. */
  lemma {:induction false} AcknowledgedWithoutMutex(c: Chain, locked: bool)
    ensures var begun := [Begin(1, Some(300), true)];
            var rebased := begun + [ACK_300];
            var undone := rebased + [Event.Scan(1, ScanFailed)] + [Save(1, false, true)];
            && Cursor(Exec(c, locked, Activated(100), rebased).db) == 236
            && Cursor(Exec(c, locked, Activated(100), undone).db) == 100
            && Audited(Exec(c, locked, Activated(100), undone + [ACK_400]).db.audits) == [(101, 236), (101, 336)]
  {
    var s0, begin, fails := Activated(100), Begin(1, Some(300), true), Event.Scan(1, ScanFailed);
    var rebased := [begin] + [ACK_300];
    var scanned := rebased + [fails];
    var undone := scanned + [Save(1, false, true)];
    FirstBegins(c, locked);
    ExecOneMore(c, locked, s0, [begin], ACK_300);
    ExecOneMore(c, locked, s0, rebased, fails);
    ExecOneMore(c, locked, s0, scanned, Save(1, false, true));
    ExecOneMore(c, locked, s0, undone, ACK_400);
    hide Exec, Next;
    AckAt(c, locked, Exec(c, locked, s0, [begin]), 300);
    PassFails(c, locked, Exec(c, locked, s0, rebased));
    AckAt(c, locked, Exec(c, locked, s0, undone), 400);
    TwoGaps(Exec(c, locked, s0, undone + [ACK_400]).db.audits);
  }

  lemma {:induction false} FirstBegins(c: Chain, locked: bool)
    ensures var s := Exec(c, locked, Activated(100), [Begin(1, Some(300), true)]);
            s.db == Activated(100).db && s.workers == Waiting(100, 300).workers
  {
    var s0, begin := Activated(100), Begin(1, Some(300), true);
    assert [begin][..0] == [];
    assert Exec(c, locked, s0, []) == s0;
    assert Exec(c, locked, s0, [begin]) == Next(c, locked, s0, begin);
    hide Exec;
    assert Next(c, locked, s0, begin).workers == Waiting(100, 300).workers;
  }

  lemma {:induction false} TwoGaps(audits: seq<Audit>)
    requires |audits| == 2 && audits[0].from == 101 == audits[1].from
    requires audits[0].through == 236 && audits[1].through == 336
    ensures Audited(audits) == [(101, 236), (101, 336)]
  {
    assert audits[..1][..0] == [];
    assert Audited(audits[..1]) == [(101, 236)];
  }

  lemma {:induction false} NothingDue(c: Chain, from: int, end: int)
    requires forall b :: from <= b <= end ==> !c.authored(b)
    ensures Due(c, from, end) == []
    decreases 1 + (end - from)
  {
    if from <= end {
      NothingDue(c, from, end - 1);
    }
  }

  /** Even under the mutex a commit whose answer is lost is undone by the save of the same pass; the next
      pass scans the blocks again. */
  lemma {:induction false} LostAnswerUndone(c: Chain)
    requires forall b :: 101 <= b <= 110 ==> !c.authored(b)
    ensures var begin, scan := Begin(1, Some(110), true), LOST_SCAN;
            && Cursor(Exec(c, true, Activated(100), [begin, scan]).db) == 110
            && Cursor(Exec(c, true, Activated(100), [begin, scan, Save(1, false, true)]).db) == 100
  {
    var begin, scan, save := Begin(1, Some(110), true), LOST_SCAN, Save(1, false, true);
    var s0 := Activated(100);
    assert [begin][..0] == [] && [begin, scan][..1] == [begin] && [begin, scan, save][..2] == [begin, scan];
    assert Exec(c, true, s0, []) == s0;
    assert Exec(c, true, s0, [begin]) == Next(c, true, s0, begin);
    assert Exec(c, true, s0, [begin, scan]) == Next(c, true, Exec(c, true, s0, [begin]), scan);
    assert Exec(c, true, s0, [begin, scan, save]) == Next(c, true, Exec(c, true, s0, [begin, scan]), save);
    hide Exec;
    assert Next(c, true, s0, begin).workers[1] == Loaded(Overview(100, 110, 0, 0), Some(110));
    var s1 := Next(c, true, s0, begin);
    LostScan(c, s1);
    hide Next;
    SavesBack(c, Next(c, true, s1, scan));
  }

  const LOST_SCAN := Event.Scan(1, Scanned(map[], AnswerLost))

  lemma {:induction false} LostScan(c: Chain, s: System)
    requires forall b :: 101 <= b <= 110 ==> !c.authored(b)
    requires s.db == Activated(100).db && 1 in s.workers
    requires s.workers[1] == Loaded(Overview(100, 110, 0, 0), Some(110))
    ensures var next := Next(c, true, s, LOST_SCAN);
            Cursor(next.db) == 110 && 1 in next.workers && next.workers[1] == Saving(Overview(100, 110, 0, 0))
  {
    NothingDue(c, 101, 110);
    hide Due;
    assert RewardScanEnd(100, 110) == 110;
  }

  lemma {:induction false} SavesBack(c: Chain, s: System)
    requires 1 in s.workers && s.workers[1] == Saving(Overview(100, 110, 0, 0))
    ensures Cursor(Next(c, true, s, Save(1, false, true)).db) == 100
  {
  }

  // ---------- Activation ----------

  /** Passes come one after the other: they hold one mutex, or all belong to collector w. */
  ghost predicate Serial(locked: bool, run: seq<Event>, w: int) {
    locked || OneCollector(run, w)
  }

  /** Nothing recorded yet, and no cursor. */
  ghost predicate NotActivated(locked: bool, w: int, s: System) {
    && s.db.rows == map[] && s.db.audits == [] && s.log == []
    && (s.db.monitor.Some? ==> s.db.monitor.value.column == s.db.monitor.value.payload.lastScanned <= 0)
    && (!locked ==> s.holder == None)
    && forall v :: v in Busy(s) ==> StartPhase(s.workers[v]) && (if locked then s.holder == Some(v) else v == w)
  }

  predicate StartPhase(p: Phase) {
    p.Loaded? ==> !ScanIsDue(p.previous, p.local)
  }

  lemma {:induction false} OneBusy(locked: bool, w: int, s: System, v: int)
    requires NotActivated(locked, w, s) && !PhaseOf(s, v).Idle?
    ensures if locked then s.holder == Some(v) else v == w
    ensures forall u :: u in s.workers && u != v ==> s.workers[u].Idle?
  {
    assert v in Busy(s);
    forall u | u in s.workers && u != v ensures s.workers[u].Idle? {
      assert !s.workers[u].Idle? ==> u in Busy(s);
    }
  }

  lemma {:induction false} StartStep(c: Chain, locked: bool, w: int, s: System, e: Event)
    requires NotActivated(locked, w, s) && (locked || e.Ack? || e.w == w)
    ensures var next := Next(c, locked, s, e);
            NotActivated(locked, w, next) || JustActivated(next, Cursor(next.db))
  {
    var next := Next(c, locked, s, e);
    assert forall v :: v in Busy(s) <==> v in s.workers && !s.workers[v].Idle?;
    if e.Save? && PhaseOf(s, e.w).Saving? {
      OneBusy(locked, w, s, e.w);
      assert forall v :: v in next.workers ==> next.workers[v].Idle?;
      assert forall v :: v !in Busy(next);
      assert Busy(next) == {};
    }
  }

  lemma {:induction false} ExecSplit(c: Chain, locked: bool, start: System, run: seq<Event>, n: nat)
    requires n <= |run|
    ensures Exec(c, locked, start, run) == Exec(c, locked, Exec(c, locked, start, run[..n]), run[n..])
    decreases |run|
  {
    hide Next;
    if n == |run| {
      assert run[..n] == run;
    } else {
      var m := |run| - 1;
      ExecSplit(c, locked, start, run[..m], n);
      assert run[..m][..n] == run[..n] && run[n..][..m - n] == run[..m][n..];
    }
  }

  /** If passes are serial, a run from an empty database either has no cursor yet, or has activated once, in its
      n-th step; what followed is a run from that activation, to which all the results above apply. */
  lemma {:induction false} ActivatesOnce(c: Chain, locked: bool, run: seq<Event>, w: int) returns (n: nat)
    requires Serial(locked, run, w)
    ensures n <= |run|
    ensures forall k :: 0 <= k < n ==> NotActivated(locked, w, Exec(c, locked, Fresh(), run[..k]))
    ensures var first := Exec(c, locked, Fresh(), run[..n]);
            && Exec(c, locked, Fresh(), run) == Exec(c, locked, first, run[n..])
            && (JustActivated(first, Cursor(first.db)) || (n == |run| && NotActivated(locked, w, first)))
    decreases |run|
  {
    hide Next, NotActivated, JustActivated, Fresh;
    if run == [] {
      n := 0;
      FreshIsNotActivated(c, locked, w);
    } else {
      var m := |run| - 1;
      n := ActivatesOnce(c, locked, run[..m], w);
      assert forall i :: 0 <= i <= m ==> run[..m][..i] == run[..i];
      if NotActivated(locked, w, Exec(c, locked, Fresh(), run[..n])) {
        NotBoth(locked, w, Exec(c, locked, Fresh(), run[..n]));
        StartStep(c, locked, w, Exec(c, locked, Fresh(), run[..m]), run[m]);
        n := |run|;
      }
      assert run[..|run|] == run;
    }
    hide Exec;
    ExecSplit(c, locked, Fresh(), run, n);
  }

  lemma {:induction false} FreshIsNotActivated(c: Chain, locked: bool, w: int)
    ensures NotActivated(locked, w, Exec(c, locked, Fresh(), []))
  {
  }

  lemma {:induction false} NotBoth(locked: bool, w: int, s: System)
    requires NotActivated(locked, w, s)
    ensures Cursor(s.db) <= 0 && !JustActivated(s, Cursor(s.db))
  {
  }

  /** From block a on, the ledger holds exactly the authored blocks up to the cursor outside audited gaps, and
      nothing but their facts. */
  ghost predicate Exact(c: Chain, a: int, db: Database) {
    && (forall b :: a < b <= Cursor(db) && !Skipped(db.audits, b) ==> (b in db.rows <==> c.authored(b)))
    && (forall b :: b in db.rows ==> a < b && c.authored(b) && SameFacts(db.rows[b], Truth(c, b)))
  }

  /** Exactness for complete runs: if passes are serial, a run from an empty database that has a cursor was activated
      once, by its n-th step, at the height the cursor had then; from that height on the ledger is exact. */
  lemma {:induction false} ExactFromEmpty(c: Chain, locked: bool, run: seq<Event>, w: int) returns (n: nat, a: int)
    requires WellFormed(c) && Serial(locked, run, w) && Cursor(Exec(c, locked, Fresh(), run).db) > 0
    ensures n <= |run| && JustActivated(Exec(c, locked, Fresh(), run[..n]), a)
    ensures forall k :: 0 <= k < n ==> NotActivated(locked, w, Exec(c, locked, Fresh(), run[..k]))
    ensures var db := Exec(c, locked, Fresh(), run).db;
            0 < a <= Cursor(db) && Exact(c, a, db)
  {
    n := ActivatesOnce(c, locked, run, w);
    var first := Exec(c, locked, Fresh(), run[..n]);
    a := Cursor(first.db);
    assert run[..|run|] == run;
    if NotActivated(locked, w, first) {
      NotBoth(locked, w, first);
    }
    hide NotActivated, JustActivated, Exec, Next, Exact;
    ActivatedAt(first, a);
    LedgerIsExact(c, a, locked, first, run[n..], a);
    ExactFrom(c, locked, run, n);
  }

  lemma {:induction false} ActivatedAt(s: System, a: int)
    requires JustActivated(s, a)
    ensures a > 0 && Cursor(s.db) == a
  {
  }

  // ---------- When complete runs are exact ----------

  /** The n-th step gives the database its first cursor. */
  ghost predicate FirstCursor(c: Chain, locked: bool, run: seq<Event>, n: nat) {
    && n <= |run| && Cursor(Exec(c, locked, Fresh(), run[..n]).db) > 0
    && forall k :: 0 <= k < n ==> Cursor(Exec(c, locked, Fresh(), run[..k]).db) <= 0
  }

  /** The ledger at the end of the run is exact from its first cursor on. */
  ghost predicate ExactRun(c: Chain, locked: bool, run: seq<Event>) {
    forall n: nat :: FirstCursor(c, locked, run, n) ==>
      Exact(c, Cursor(Exec(c, locked, Fresh(), run[..n]).db), Exec(c, locked, Fresh(), run).db)
  }

  /** Only collectors of the crew take part, with acknowledgements from anywhere. */
  ghost predicate RunOf(run: seq<Event>, crew: set<int>) {
    forall i :: 0 <= i < |run| && !run[i].Ack? ==> run[i].w in crew
  }

  ghost predicate NothingAuthored(c: Chain) {
    forall b :: b > 1 ==> !c.authored(b)
  }

  /** Collectors in separate processes: whatever fails or crashes, every ledger that starts empty is exact if and
      only if passes share a mutex, there is only one collector, or there is nothing to miss. */
  lemma {:induction false} ExactFromEmptyIff(c: Chain, locked: bool, crew: set<int>)
    requires WellFormed(c)
    ensures (forall run :: RunOf(run, crew) ==> ExactRun(c, locked, run)) <==>
            locked || |crew| <= 1 || NothingAuthored(c)
  {
    hide ExactRun, WellFormed;
    if locked || |crew| <= 1 {
      var w := AnyMember(crew);
      forall run | RunOf(run, crew) ensures ExactRun(c, locked, run) {
        SerialIsExact(c, locked, run, w);
      }
    } else if NothingAuthored(c) {
      forall run | RunOf(run, crew) ensures ExactRun(c, locked, run) {
        EmptyIsExact(c, locked, run);
      }
    } else {
      var b :| b > 1 && c.authored(b);
      var v, w := TwoMembers(crew);
      ActivatedTwice(c, v, w, b - 1, b, b);
      assert RunOf(Race(v, w, b - 1, b), crew);
    }
  }

  lemma {:induction false} AnyMember(crew: set<int>) returns (w: int)
    ensures |crew| <= 1 ==> crew <= {w}
  {
    if crew == {} {
      w := 0;
    } else {
      w := AnyOf(crew);
      assert crew == {w} + (crew - {w});
    }
  }

  lemma {:induction false} TwoMembers(crew: set<int>) returns (v: int, w: int)
    requires |crew| > 1
    ensures v in crew && w in crew && v != w
  {
    v := AnyOf(crew);
    assert |crew - {v}| == |crew| - 1;
    w := AnyOf(crew - {v});
  }

  lemma {:induction false} SerialIsExact(c: Chain, locked: bool, run: seq<Event>, w: int)
    requires WellFormed(c) && Serial(locked, run, w)
    ensures ExactRun(c, locked, run)
  {
    hide Exec, NotActivated, JustActivated, Exact, WellFormed, Serial;
    forall n: nat | FirstCursor(c, locked, run, n)
      ensures Exact(c, Cursor(Exec(c, locked, Fresh(), run[..n]).db), Exec(c, locked, Fresh(), run).db)
    {
      var m := ActivatesOnce(c, locked, run, w);
      var first := Exec(c, locked, Fresh(), run[..m]);
      if m <= n {
        if NotActivated(locked, w, first) {
          NotBoth(locked, w, first);
        } else {
          ActivatedAt(first, Cursor(first.db));
        }
      } else {
        NotBoth(locked, w, Exec(c, locked, Fresh(), run[..n]));
      }
      assert m == n;
      ExactFrom(c, locked, run, n);
    }
  }

  lemma {:induction false} ExactFrom(c: Chain, locked: bool, run: seq<Event>, n: nat)
    requires WellFormed(c) && n <= |run|
    requires var first := Exec(c, locked, Fresh(), run[..n]); JustActivated(first, Cursor(first.db))
    ensures Exact(c, Cursor(Exec(c, locked, Fresh(), run[..n]).db), Exec(c, locked, Fresh(), run).db)
  {
    var first := Exec(c, locked, Fresh(), run[..n]);
    ExecSplit(c, locked, Fresh(), run, n);
    hide Exec, JustActivated;
    forall b
      ensures var db := Exec(c, locked, Fresh(), run).db;
              && (Cursor(first.db) < b <= Cursor(db) && !Skipped(db.audits, b) ==> (b in db.rows <==> c.authored(b)))
              && (b in db.rows ==> Cursor(first.db) < b && c.authored(b) && SameFacts(db.rows[b], Truth(c, b)))
    {
      LedgerIsExact(c, Cursor(first.db), locked, first, run[n..], b);
    }
  }

  lemma {:induction false} NothingFound(c: Chain, locked: bool, s: System, e: Event)
    requires NothingAuthored(c) && s.db.rows == map[]
    ensures Next(c, locked, s, e).db.rows == map[]
  {
    if e.Scan? && PhaseOf(s, e.w).Loaded? {
      var p := PhaseOf(s, e.w);
      if ScanIsDue(p.previous, p.local) {
        NothingDue(c, p.previous.lastScanned + 1, RewardScanEnd(p.previous.lastScanned, p.local.value));
      }
      hide RewardScanEnd, Due;
    }
    hide NothingAuthored;
  }

  lemma {:induction false} EmptyIsExact(c: Chain, locked: bool, run: seq<Event>)
    requires NothingAuthored(c)
    ensures ExactRun(c, locked, run)
  {
    NothingEverFound(c, locked, run);
    hide Exec;
    forall n: nat | FirstCursor(c, locked, run, n)
      ensures Exact(c, Cursor(Exec(c, locked, Fresh(), run[..n]).db), Exec(c, locked, Fresh(), run).db)
    {
    }
  }

  lemma {:induction false} NothingEverFound(c: Chain, locked: bool, run: seq<Event>)
    requires NothingAuthored(c)
    ensures Exec(c, locked, Fresh(), run).db.rows == map[]
  {
    hide Next, NothingAuthored;
    if run != [] {
      NothingEverFound(c, locked, run[..|run| - 1]);
      NothingFound(c, locked, Exec(c, locked, Fresh(), run[..|run| - 1]), run[|run| - 1]);
    }
  }

  // ---------- Two collectors on an empty database ----------

  /** Collectors v and w both find the database empty, at different heights. */
  function Race(v: int, w: int, low: int, high: int): seq<Event> {
    Raced(v, w, low, high) + [Save(v, false, true)] + [Event.Scan(w, NotDue)] + [Save(w, false, true)]
  }

  function Raced(v: int, w: int, low: int, high: int): seq<Event> {
    [Begin(v, Some(low), true)] + [Begin(w, Some(high), true)] + [Event.Scan(v, NotDue)]
  }

  /** Without the mutex two controllers may both activate an empty database: the cursor then jumps from the
      first height to the other, and a reward in between is neither recorded nor audited. */
  lemma {:induction false} ActivatedTwice(c: Chain, v: int, w: int, low: int, high: int, b: int)
    requires v != w && 0 < low < b <= high && c.authored(b)
    ensures var run := Race(v, w, low, high);
            var db := Exec(c, false, Fresh(), run).db;
            && FirstCursor(c, false, run, 4) && Cursor(Exec(c, false, Fresh(), run[..4]).db) == low
            && b <= Cursor(db) && b !in db.rows && !Skipped(db.audits, b)
            && !ExactRun(c, false, run)
  {
    var raced, run := Raced(v, w, low, high), Race(v, w, low, high);
    var one := raced + [Save(v, false, true)];
    var scanned := one + [Event.Scan(w, NotDue)];
    BothRead(c, v, w, low, high);
    ExecOneMore(c, false, Fresh(), raced, Save(v, false, true));
    ExecOneMore(c, false, Fresh(), one, Event.Scan(w, NotDue));
    ExecOneMore(c, false, Fresh(), scanned, Save(w, false, true));
    assert run[..4] == one && run[..3] == raced && run[..2] == raced[..2] && run[..1] == raced[..1];
    hide Exec;
    FirstSaves(c, Exec(c, false, Fresh(), raced), v, w, low, high);
    SecondSaves(c, Exec(c, false, Fresh(), one), w, low, high);
    assert run[..0] == raced[..0];
    assert FirstCursor(c, false, run, 4);
  }

  ghost predicate Ready(s: System, v: int, w: int, low: int, high: int) {
    && s.db == Database(None, map[], [])
    && v in s.workers && s.workers[v] == Saving(Overview(low, low, 0, 0))
    && w in s.workers && s.workers[w] == Loaded(Overview(high, high, 0, 0), Some(high))
  }

  lemma {:induction false} BothRead(c: Chain, v: int, w: int, low: int, high: int)
    requires v != w
    ensures var run := Raced(v, w, low, high);
            && Ready(Exec(c, false, Fresh(), run), v, w, low, high)
            && forall k :: 0 <= k <= 3 ==> Exec(c, false, Fresh(), run[..k]).db == Database(None, map[], [])
  {
    var b1, b2, c1 := Begin(v, Some(low), true), Begin(w, Some(high), true), Event.Scan(v, NotDue);
    var run := Raced(v, w, low, high);
    assert run[..0] == [] && run[..1] == [b1] && run[..2] == [b1] + [b2] && run[..3] == run == [b1] + [b2] + [c1];
    assert Exec(c, false, Fresh(), []) == Fresh() && [] + [b1] == [b1];
    ExecOneMore(c, false, Fresh(), [], b1);
    ExecOneMore(c, false, Fresh(), [b1], b2);
    ExecOneMore(c, false, Fresh(), [b1] + [b2], c1);
    hide Exec;
    var s1 := Next(c, false, Fresh(), b1);
    assert s1.db == Database(None, map[], []) && s1.workers[v] == Loaded(Overview(low, low, 0, 0), Some(low));
    var s2 := Next(c, false, s1, b2);
    assert s2.workers[v] == s1.workers[v] && s2.workers[w] == Loaded(Overview(high, high, 0, 0), Some(high));
  }

  lemma {:induction false} FirstSaves(c: Chain, s: System, v: int, w: int, low: int, high: int)
    requires Ready(s, v, w, low, high) && v != w
    ensures var next := Next(c, false, s, Save(v, false, true));
            && next.db == Database(Some(Monitor(low, Overview(low, low, 0, 0))), map[], [])
            && w in next.workers && next.workers[w] == s.workers[w]
  {
  }

  lemma {:induction false} SecondSaves(c: Chain, s: System, w: int, low: int, high: int)
    requires s.db == Database(Some(Monitor(low, Overview(low, low, 0, 0))), map[], [])
    requires w in s.workers && s.workers[w] == Loaded(Overview(high, high, 0, 0), Some(high))
    ensures var next := Next(c, false, Next(c, false, s, Event.Scan(w, NotDue)), Save(w, false, true));
            next.db == Database(Some(Monitor(high, Overview(high, high, 0, 0))), map[], [])
  {
    assert Next(c, false, s, Event.Scan(w, NotDue)).workers[w] == Saving(Overview(high, high, 0, 0));
  }
}
