/** What the restart guard answers to a request (cmd/agent/main.go), in terms of the executions and attempts of the
whole run. */
module GuardAnswers {
  import opened Base
  import opened Text
  import opened Guard

  /** The action was executed and succeeded. */
  ghost predicate RanWell(log: seq<Execution>, id: string) {
    exists i :: 0 <= i < |log| && log[i].id == id && log[i].ending == Ended(true)
  }

  /** The file tells which actions succeeded, and whether any has failed. */
  ghost predicate Told(w: World) {
    && (forall id :: id in w.file.processed ==> (w.file.processed[id].status == Succeeded <==> RanWell(w.log, id)))
    && (w.file.lastFailure.Some? <==>
          exists id :: id in w.file.processed && w.file.processed[id].status == Failed)
  }

  /** The same executions, but for the ending of the last one. */
  lemma {:induction false} EndingTells(log: seq<Execution>, e: Ending, id: string)
    requires log != [] && log[|log| - 1].ending == InFlight
    requires forall i :: 0 <= i < |log| - 1 ==> log[i].id != log[|log| - 1].id
    ensures RanWell(SetEnding(log, e), id) <==>
            if id == log[|log| - 1].id then e == Ended(true) else RanWell(log, id)
  {
    var n := |log| - 1;
    var after := SetEnding(log, e);
    assert after[n].ending == e && after[n].id == log[n].id;
    assert forall i :: 0 <= i < n ==> after[i] == log[i];
    if RanWell(log, id) {
      var i :| 0 <= i < |log| && log[i].id == id && log[i].ending == Ended(true);
      assert after[i] == log[i];
    }
  }

  lemma {:induction false} LaunchTells(log: seq<Execution>, x: Execution, id: string)
    requires x.ending == InFlight
    ensures RanWell(log + [x], id) <==> RanWell(log, id)
  {
    if RanWell(log, id) {
      var i :| 0 <= i < |log| && log[i].id == id && log[i].ending == Ended(true);
      assert (log + [x])[i] == log[i];
    }
  }

  lemma {:induction false} LoadTells(g: GuardFile, now: int)
    ensures var r := Loaded(g, now);
            && r.processed.Keys == g.processed.Keys
            && (forall id :: id in g.processed ==>
                  r.processed[id].status == if g.processed[id].status == Running then Failed
                                            else g.processed[id].status)
            && (r.lastFailure.Some? <==> g.lastFailure.Some? || Interrupted(g))
  {
  }

  /** Reading a file after a crash dates the failure and every interrupted action by the reading, and nothing else. */
  lemma {:induction false} LoadDates(g: GuardFile, now: int)
    ensures var r := Loaded(g, now);
            && r.attempts == g.attempts
            && r.lastFailure == (if exists id :: id in g.processed && g.processed[id].status == Running then Some(now)
                                 else g.lastFailure)
            && forall id :: id in g.processed ==>
                 r.processed[id] == if g.processed[id].status == Running then Outcome(Failed, now) else g.processed[id]
  {
  }

  /** What a finished execution leaves on file: its result and instant, and a failure if it failed. */
  lemma {:induction false} CompletedDates(g: GuardFile, id: string, ok: bool, at: int)
    ensures var r := Completed(g, id, ok, at);
            && r.attempts == g.attempts && r.processed.Keys == g.processed.Keys + {id}
            && (forall k :: k in g.processed && k != id ==> r.processed[k] == g.processed[k])
            && r.processed[id].at == at && (r.processed[id].status == Succeeded <==> ok)
            && (r.processed[id].status == Failed <==> !ok)
            && r.lastFailure == (if ok then g.lastFailure else Some(at))
  {
  }

  lemma {:induction false} LoadKeepsTold(w: World, now: int, clock: int)
    requires Told(w)
    ensures Told(w.(file := Loaded(w.file, now), clock := clock))
  {
    hide Loaded;
    LoadTells(w.file, now);
    var r := Loaded(w.file, now);
    hide RanWell;
    if id :| id in w.file.processed && w.file.processed[id].status == Failed {
      assert r.processed[id].status == Failed;
    }
    if id :| id in w.file.processed && w.file.processed[id].status == Running {
      assert r.processed[id].status == Failed;
    }
  }

  lemma {:induction false} AdmitTells(w: World, id: string, t: Clock, stamps: seq<int>)
    requires Told(w) && id !in w.file.processed && !RanWell(w.log, id)
    ensures Told(World(Admitted(w.file, id, t), Ready(id), stamps, w.log, t.stamp))
  {
    hide RanWell, After;
    var g, after := w.file, Admitted(w.file, id, t);
    assert forall k :: k in g.processed ==> k in after.processed && after.processed[k] == g.processed[k];
    assert after.processed[id].status == Running;
  }

  lemma {:induction false} UnknownNeverRan(w: World, id: string)
    requires Inv(w) && id !in w.file.processed
    ensures !RanWell(w.log, id)
  {
  }

  lemma {:induction false} RequestTells(w: World, id: string, t: Clock)
    requires Inv(w) && Told(w) && w.phase.Idle?
    ensures var g := Loaded(w.file, t.load);
            && Told(w.(file := g, clock := t.stamp))
            && (id !in g.processed ==>
                  Told(World(Admitted(g, id, t), Ready(id), w.stamps + [t.stamp], w.log, t.stamp)))
  {
    LoadKeepsTold(w, t.load, t.stamp);
    LoadTells(w.file, t.load);
    if id !in w.file.processed {
      UnknownNeverRan(w, id);
      hide Loaded, RanWell, Inv, Told, Admitted;
      AdmitTells(w.(file := Loaded(w.file, t.load), clock := t.stamp), id, t, w.stamps + [t.stamp]);
    }
  }

  lemma {:induction false} FinishTells(w: World, ok: bool, at: int)
    requires Inv(w) && Told(w) && w.phase.Busy?
    ensures Told(w.(phase := Idle, clock := at, file := Completed(w.file, w.phase.id, ok, at),
                    log := SetEnding(w.log, Ended(ok))))
  {
    var id := w.phase.id;
    var g := Completed(w.file, id, ok, at);
    LastOnly(w);
    forall k | k in g.processed
      ensures g.processed[k].status == Succeeded <==> RanWell(SetEnding(w.log, Ended(ok)), k)
    {
      EndingTells(w.log, Ended(ok), k);
    }
    hide RanWell, Inv, SetEnding;
    if !ok {
      assert g.processed[id].status == Failed;
    }
  }

  lemma {:induction false} LastOnly(w: World)
    requires Inv(w) && w.phase.Busy?
    ensures var n := |w.log| - 1;
            && n >= 0 && w.log[n].id == w.phase.id && w.log[n].ending == InFlight
            && w.phase.id in w.file.processed && w.file.processed[w.phase.id].status == Running
            && forall i :: 0 <= i < n ==> w.log[i].id != w.phase.id
  {
  }

  lemma {:induction false} LogTells(w: World, phase: Phase, clock: int, log: seq<Execution>)
    requires Told(w) && forall id :: id in w.file.processed ==> (RanWell(log, id) <==> RanWell(w.log, id))
    ensures Told(w.(phase := phase, clock := clock, log := log))
  {
    hide RanWell;
  }

  lemma {:induction false} NextTells(w: World, e: Event)
    requires Inv(w) && Told(w)
    ensures Told(Next(w, e))
  {
    match e
    case Request(id, reason, locked, t) =>
      if w.phase.Idle? {
        RequestTells(w, id, t);
      }
      LogTells(w, w.phase, t.stamp, w.log);
      hide Loaded, Inv, RanWell, ValidRequest, Admitted, After, Told;
    case Launch(at) => LaunchStepTells(w, at);
    case Finish(ok, at) =>
      if w.phase.Busy? {
        FinishTells(w, ok, at);
      }
      hide Inv, RanWell, SetEnding, Completed, Told;
    case Crash => CrashTells(w);
  }

  lemma {:induction false} LaunchStepTells(w: World, at: int)
    requires Told(w)
    ensures Told(Next(w, Launch(at)))
  {
    if w.phase.Ready? {
      var x := Execution(w.phase.id, |w.stamps| - 1, at, InFlight);
      forall k ensures RanWell(w.log + [x], k) <==> RanWell(w.log, k) {
        LaunchTells(w.log, x, k);
      }
      hide RanWell, Told;
      LogTells(w, Busy(w.phase.id), at, w.log + [x]);
    }
  }

  lemma {:induction false} CrashTells(w: World)
    requires Inv(w) && Told(w)
    ensures Told(Next(w, Crash))
  {
    if w.phase.Busy? {
      LastOnly(w);
      var id := w.phase.id;
      assert w.file.processed[id].status != Succeeded;
      forall k | k in w.file.processed ensures RanWell(SetEnding(w.log, CutOff), k) <==> RanWell(w.log, k) {
        EndingTells(w.log, CutOff, k);
      }
      hide Inv, RanWell, SetEnding, Told;
      LogTells(w, Idle, w.clock, SetEnding(w.log, CutOff));
    } else {
      hide Inv, RanWell, Told;
      LogTells(w, Idle, w.clock, w.log);
    }
  }

  lemma {:induction false} ExecTells(now: int, run: seq<Event>)
    ensures Told(Exec(Start(now), run))
  {
    hide Next, Told;
    if run == [] {
      StartTells(now);
    } else {
      var w := Exec(Start(now), run[..|run| - 1]);
      ExecTells(now, run[..|run| - 1]);
      InvExec(now, run[..|run| - 1]);
      NextTells(w, run[|run| - 1]);
    }
  }

  lemma {:induction false} StartTells(now: int)
    ensures Told(Start(now))
  {
  }

  // ---------- Answers ----------

  /** In every reachable state an idle agent tells a repeated action its own fate: that it succeeded exactly if its
      execution ended well, and that it failed exactly if it was recorded but its execution failed, was cut off or
      never started. */
  lemma {:induction false} RepeatIsTold(now: int, run: seq<Event>, id: string, reason: string, t: Clock)
    requires Exec(Start(now), run).phase.Idle? && ValidRequest(id, reason)
    ensures var w := Exec(Start(now), run);
            var v := Answer(w.file, id, reason, false, t);
            && (v == Known(Succeeded) <==> RanWell(w.log, id))
            && (v == Known(Failed) <==> id in w.file.processed && !RanWell(w.log, id))
            && v != Known(Running)
            && (forall i :: 0 <= i < |w.log| ==> w.log[i].id in w.file.processed)
  {
    ExecTells(now, run);
    InvExec(now, run);
    var w := Exec(Start(now), run);
    LoadTells(w.file, t.load);
    assert RanWell(w.log, id) ==> id in w.file.processed;
    hide Exec, Loaded, RanWell, ValidRequest, After;
  }

  /** Every execution is told by its ending. */
  lemma {:induction false} ExecutionIsTold(now: int, run: seq<Event>, i: nat, reason: string, t: Clock)
    requires var w := Exec(Start(now), run);
             w.phase.Idle? && i < |w.log| && ValidRequest(w.log[i].id, reason)
    ensures var w := Exec(Start(now), run);
            Answer(w.file, w.log[i].id, reason, false, t) ==
            Known(if w.log[i].ending == Ended(true) then Succeeded else Failed)
  {
    RepeatIsTold(now, run, Exec(Start(now), run).log[i].id, reason, t);
    InvExec(now, run);
    var w := Exec(Start(now), run);
    assert RanWell(w.log, w.log[i].id) <==> w.log[i].ending == Ended(true);
    hide Exec, Answer, RanWell;
  }

  /** Two attempts lie in the last day. */
  ghost predicate TwiceToday(stamps: seq<int>, t: Clock) {
    |stamps| >= 2 && t.cut - stamps[|stamps| - 2] < 86400 * SECOND
  }

  /** The newest attempt lies in the last hour. */
  ghost predicate OnceThisHour(stamps: seq<int>, t: Clock) {
    && |stamps| >= 1 && t.since - stamps[|stamps| - 1] < 3600 * SECOND
    && t.cut - stamps[|stamps| - 1] < 86400 * SECOND
  }

  /** Some recorded action did not succeed. */
  ghost predicate SomethingFailed(w: World) {
    exists id :: id in w.file.processed && !RanWell(w.log, id)
  }

  /** In every reachable state an idle agent answers a new action by the first that applies: two attempts in the last
      day, one in the last hour, an earlier failure; otherwise it goes ahead. */
  lemma {:induction false} NewActionIsTold(now: int, run: seq<Event>, id: string, reason: string, t: Clock)
    requires var w := Exec(Start(now), run); w.phase.Idle? && t.From(w.clock) && id !in w.file.processed
    requires ValidRequest(id, reason)
    ensures var w := Exec(Start(now), run);
            Answer(w.file, id, reason, false, t) ==
            if TwiceToday(w.stamps, t) then DailyLimit
            else if OnceThisHour(w.stamps, t) then Cooldown
            else if SomethingFailed(w) then PreviousFailure
            else Go
  {
    var w := Exec(Start(now), run);
    ExecTells(now, run);
    InvExec(now, run);
    hide Exec;
    RecentTells(w.file.attempts, w.stamps, w.clock, t);
    LoadTells(w.file, t.load);
    LoadedFacts(w.file, t.load);
    FailureIsOnFile(w);
    hide Loaded, RanWell, ValidRequest, After, Inv, Told, Latched, Interrupted, SomethingFailed, TwiceToday,
      OnceThisHour;
  }

  /** What the daily cut leaves tells how many attempts lie in the last day and the last hour. */
  lemma {:induction false} RecentTells(attempts: seq<int>, stamps: seq<int>, clock: int, t: Clock)
    requires Recorded(attempts, stamps, clock) && Spaced(stamps) && t.From(clock)
    ensures var recent := After(attempts, t.cut - DAY);
            && (|recent| >= 2 <==> TwiceToday(stamps, t))
            && (|recent| > 0 && t.since - recent[|recent| - 1] < HOUR <==> OnceThisHour(stamps, t))
  {
    RecentStamps(attempts, stamps, clock, t.cut);
    KeptAreRecent(attempts, t.cut - DAY);
    hide After, Recorded, Spaced;
    var recent := After(attempts, t.cut - DAY);
    var n := |stamps| - |recent|;
    assert forall i :: 0 <= i < |recent| ==> recent[i] == stamps[n + i];
  }

  lemma {:induction false} FailureIsOnFile(w: World)
    requires Told(w)
    ensures SomethingFailed(w) <==> w.file.lastFailure.Some? || Interrupted(w.file)
  {
    hide RanWell;
    if id :| id in w.file.processed && !RanWell(w.log, id) {
      assert w.file.processed[id].status != Succeeded;
    }
  }

  /** Malformed requests and locked agents are told first, and change nothing: an id has 5 to 100 letters, digits,
      underscores and dashes, a reason at least 10 bytes once trimmed and at most 500. */
  lemma {:induction false} RefusedFirst(w: World, id: string, reason: string, locked: bool, t: Clock)
    ensures var v := Answer(w.file, id, reason, locked, t);
            var legal := 5 <= |id| <= 100 && 10 <= ByteLength(Trim(reason)) && ByteLength(reason) <= 500 &&
              forall i :: 0 <= i < |id| ==>
                'a' <= id[i] <= 'z' || 'A' <= id[i] <= 'Z' || '0' <= id[i] <= '9' || id[i] in "_-";
            && (v == Invalid <==> !legal)
            && (v == Locked <==> legal && locked)
            && (v == Invalid || v == Locked ==> Next(w, Request(id, reason, locked, t)).file == w.file)
  {
    hide Loaded, Trim, ByteLength, After;
    if 5 <= |id| <= 100 {
      assert forall i :: 0 <= i < |id| ==>
        (IdChar(id[i]) <==>
         'a' <= id[i] <= 'z' || 'A' <= id[i] <= 'Z' || '0' <= id[i] <= '9' || id[i] in "_-");
    }
  }
}
