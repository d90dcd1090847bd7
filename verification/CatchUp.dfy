/** How many passes it takes to catch up with the finalized chain (rewardScanEnd of cmd/controller/main.go). */
module CatchUp {
  import opened Base
  import opened Scan
  import opened Ledger
  import opened LedgerRuns

  /** The successful passes needed to reach a fixed finalized height. */
  function Passes(cursor: int, finalized: int): nat
    requires 0 < cursor <= finalized
    decreases finalized - cursor
  {
    if cursor == finalized then 0
    else
      ChunkIsLegal(cursor, finalized);
      1 + Passes(RewardScanEnd(cursor, finalized), finalized)
  }

  /** Full chunks while the lag is large, one pass for a lag above the retained window, else chunks of 16. */
  function Cost(q: nat, r: int): int {
    q + if r == 0 then 0 else if r > RETAINED_WINDOW then 1 else (r + CHUNK - 1) / CHUNK
  }

  /** The exact number of passes for a lag of 128 q + r. */
  lemma {:induction false} PassesExact(cursor: int, finalized: int, q: nat, r: int)
    requires 0 < cursor <= finalized && finalized - cursor == MAX_CHUNK * q + r && 0 <= r < MAX_CHUNK
    ensures Passes(cursor, finalized) == Cost(q, r)
    decreases finalized - cursor
  {
    if cursor < finalized {
      var end := RewardScanEnd(cursor, finalized);
      ChunkIsLegal(cursor, finalized);
      if q > 0 {
        assert end == cursor + MAX_CHUNK;
        PassesExact(end, finalized, q - 1, r);
      } else if r > RETAINED_WINDOW {
        assert end == finalized;
      } else {
        PassesExact(end, finalized, 0, finalized - end);
      }
    }
  }

  // ---------- In the system ----------

  /** One undisturbed pass of a collector. */
  function OnePass(w: int, finalized: int, extra: map<int, nat>): seq<Event> {
    [Begin(w, Some(finalized), true), Event.Scan(w, Scanned(extra, Healthy)), Save(w, true, true)]
  }

  ghost predicate Free(s: System, w: int) {
    s.holder == None && PhaseOf(s, w).Idle?
  }

  lemma {:induction false} ExecThree(c: Chain, locked: bool, s: System, x: Event, y: Event, z: Event)
    ensures Exec(c, locked, s, [x, y, z]) == Next(c, locked, Next(c, locked, Next(c, locked, s, x), y), z)
  {
    assert [x, y, z][..2] == [x, y] && [x, y][..1] == [x] && [x][..0] == [];
    assert Exec(c, locked, s, []) == s;
    assert Exec(c, locked, s, [x]) == Next(c, locked, s, x);
    assert Exec(c, locked, s, [x, y]) == Next(c, locked, Next(c, locked, s, x), y);
  }

  lemma {:induction false} BeginLoads(c: Chain, a: int, s: System, w: int, finalized: int)
    requires SystemInv(c, a, s) && Free(s, w)
    ensures var s1 := Next(c, true, s, Begin(w, Some(finalized), true));
            && s1.db == s.db && s1.holder == Some(w) && PhaseOf(s1, w).Loaded?
            && PhaseOf(s1, w).previous.lastScanned == Cursor(s.db) && PhaseOf(s1, w).local == Some(finalized)
  {
    hide Justified;
  }

  lemma {:induction false} ScanMoves(c: Chain, a: int, s: System, w: int, finalized: int, extra: map<int, nat>)
    requires WellFormed(c) && SystemInv(c, a, s) && PhaseOf(s, w).Loaded?
    requires PhaseOf(s, w).previous.lastScanned == Cursor(s.db) && PhaseOf(s, w).local == Some(finalized)
    requires Cursor(s.db) < finalized
    ensures var s2 := Next(c, true, s, Event.Scan(w, Scanned(extra, Healthy)));
            && s2.holder == s.holder && PhaseOf(s2, w).Saving?
            && PhaseOf(s2, w).next.lastScanned == RewardScanEnd(Cursor(s.db), finalized)
  {
    AtLeastCursor(c, a, s);
    hide RewardScanEnd, DbInv, SystemInv, WellFormed, Work, Busy;
    WorkMoves(c, a, s.db, PhaseOf(s, w).previous, finalized, extra);
  }

  lemma {:induction false} WorkMoves(c: Chain, a: int, db: Database, previous: Overview, finalized: int,
                                     extra: map<int, nat>)
    requires WellFormed(c) && DbInv(c, a, db) && 0 < a <= Cursor(db) == previous.lastScanned < finalized
    ensures Work(c, db, previous, Some(finalized), Scanned(extra, Healthy)).1.lastScanned ==
            RewardScanEnd(previous.lastScanned, finalized)
  {
    hide RewardScanEnd, Apply, AllConfirmed, Due, ScanEffect, DbInv, WellFormed, Work;
    var end := RewardScanEnd(previous.lastScanned, finalized);
    ChunkIsLegal(previous.lastScanned, finalized);
    ApplyDue(c, a, db, previous.(lastScanned := end), previous.lastScanned, extra, Healthy);
    WorkMeans(c, db, previous, Some(finalized), Scanned(extra, Healthy));
  }

  lemma {:induction false} AtLeastCursor(c: Chain, a: int, s: System)
    requires SystemInv(c, a, s)
    ensures 0 < a <= Cursor(s.db) && DbInv(c, a, s.db)
  {
  }

  /** A pass of a truthful node under the mutex moves the cursor by exactly one chunk. */
  lemma {:induction false} PassAdvances(c: Chain, a: int, s: System, w: int, finalized: int, extra: map<int, nat>)
    requires WellFormed(c) && SystemInv(c, a, s) && Free(s, w) && Cursor(s.db) < finalized
    ensures var next := Exec(c, true, s, OnePass(w, finalized, extra));
            SystemInv(c, a, next) && Free(next, w) && Cursor(next.db) == RewardScanEnd(Cursor(s.db), finalized)
  {
    var begin, scan := Begin(w, Some(finalized), true), Event.Scan(w, Scanned(extra, Healthy));
    var save := Save(w, true, true);
    ExecThree(c, true, s, begin, scan, save);
    BeginLoads(c, a, s, w, finalized);
    NextInv(c, a, true, s, begin);
    var s1 := Next(c, true, s, begin);
    ScanMoves(c, a, s1, w, finalized, extra);
    NextInv(c, a, true, s1, scan);
    var s2 := Next(c, true, s1, scan);
    NextInv(c, a, true, s2, save);
    SaveStores(c, s2, w);
    hide Next, SystemInv, Exec, RewardScanEnd;
  }

  lemma {:induction false} SaveStores(c: Chain, s: System, w: int)
    requires PhaseOf(s, w).Saving? && s.holder == Some(w)
    ensures var next := Next(c, true, s, Save(w, true, true));
            Free(next, w) && Cursor(next.db) == PhaseOf(s, w).next.lastScanned
  {
  }

  /** n passes, one after the other. */
  ghost function After(c: Chain, s: System, w: int, finalized: int, extra: map<int, nat>, n: nat): System
    decreases n
  {
    if n == 0 then s else After(c, Exec(c, true, s, OnePass(w, finalized, extra)), w, finalized, extra, n - 1)
  }

  /** A collector reaches the finalized height in exactly the given number of passes, and not before. */
  lemma {:induction false} CatchesUp(c: Chain, a: int, s: System, w: int, finalized: int, extra: map<int, nat>, n: nat)
    requires WellFormed(c) && SystemInv(c, a, s) && Free(s, w) && 0 < Cursor(s.db) <= finalized
    requires n <= Passes(Cursor(s.db), finalized)
    ensures var end := After(c, s, w, finalized, extra, n);
            && Cursor(end.db) <= finalized
            && (Cursor(end.db) == finalized <==> n == Passes(Cursor(s.db), finalized))
    decreases n
  {
    if n > 0 {
      PassAdvances(c, a, s, w, finalized, extra);
      ChunkIsLegal(Cursor(s.db), finalized);
      CatchesUp(c, a, Exec(c, true, s, OnePass(w, finalized, extra)), w, finalized, extra, n - 1);
    }
  }
}
