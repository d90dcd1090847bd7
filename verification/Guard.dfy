/** The host agent's restart guard (cmd/agent/main.go): a persisted file that limits how often the restart
wrapper runs, remembers every action it has seen and stops after the first failure. */
module Guard {
  import opened Base
  import opened Text

  const DAY: int := 24 * HOUR

  datatype Status = Running | Succeeded | Failed

  datatype Outcome = Outcome(status: Status, at: int)

  /** The contents of the guard file. */
  datatype GuardFile = GuardFile(attempts: seq<int>, processed: map<string, Outcome>, lastFailure: Option<int>)

  datatype Verdict = Invalid | Locked | Known(status: Status) | DailyLimit | Cooldown | PreviousFailure | Go

  // ---------- Requests ----------

  predicate IdChar(c: char) {
    'A' <= c <= 'Z' || 'a' <= c <= 'z' || '0' <= c <= '9' || c == '_' || c == '-'
  }

  predicate ValidRequest(id: string, reason: string) {
    && 5 <= |id| <= 100 && (forall i :: 0 <= i < |id| ==> IdChar(id[i]))
    && ByteLength(Trim(reason)) >= 10 && ByteLength(reason) <= 500
  }

  /** Clock readings of one request, in the order they are taken. */
  datatype Clock = Clock(load: int, cut: int, since: int, stamp: int)
  {
    predicate From(now: int) { now <= load <= cut <= since <= stamp }
  }

  // ---------- Specification ----------

  ghost predicate Interrupted(g: GuardFile) {
    exists id :: id in g.processed && g.processed[id].status == Running
  }

  /** Reading the file turns every running row into a failure. */
  ghost function Loaded(g: GuardFile, now: int): GuardFile {
    if !Interrupted(g) then g
    else GuardFile(g.attempts,
                   map id | id in g.processed ::
                     if g.processed[id].status == Running then Outcome(Failed, now) else g.processed[id],
                   Some(now))
  }

  function After(attempts: seq<int>, cut: int): seq<int> {
    if attempts == [] then []
    else
      var last := attempts[|attempts| - 1];
      After(attempts[..|attempts| - 1], cut) + if last > cut then [last] else []
  }

  /** The decision about a request whose file has been loaded. */
  function Decide(g: GuardFile, id: string, t: Clock): Verdict {
    if id in g.processed then Known(g.processed[id].status)
    else
      var recent := After(g.attempts, t.cut - DAY);
      if |recent| >= 2 then DailyLimit
      else if |recent| > 0 && t.since - recent[|recent| - 1] < HOUR then Cooldown
      else if g.lastFailure.Some? then PreviousFailure
      else Go
  }

  /** What a request is told, given the stored file. */
  ghost function Answer(stored: GuardFile, id: string, reason: string, locked: bool, t: Clock): Verdict {
    if !ValidRequest(id, reason) then Invalid
    else if locked then Locked
    else Decide(Loaded(stored, t.load), id, t)
  }

  function Admitted(g: GuardFile, id: string, t: Clock): GuardFile {
    GuardFile(After(g.attempts, t.cut - DAY) + [t.stamp], g.processed[id := Outcome(Running, t.stamp)], g.lastFailure)
  }

  function Completed(g: GuardFile, id: string, ok: bool, at: int): GuardFile {
    g.(processed := g.processed[id := Outcome(if ok then Succeeded else Failed, at)],
       lastFailure := if ok then g.lastFailure else Some(at))
  }

  // ---------- The agent ----------

  class Agent {
    var file: GuardFile

    constructor (stored: GuardFile)
      ensures file == stored
    {
      file := stored;
    }

    method LoadGuard(now: int) returns (state: GuardFile)
      modifies this
      ensures state == file == Loaded(old(file), now)
    {
      state := file;
      ghost var g := file;
      var stale := false;
      var pending := state.processed.Keys;
      while pending != {}
        invariant file == g && state.attempts == g.attempts
        invariant state.processed.Keys == g.processed.Keys && pending <= g.processed.Keys
        invariant forall id :: id in pending ==> state.processed[id] == g.processed[id]
        invariant forall id :: id in g.processed && id !in pending ==>
          state.processed[id] == if g.processed[id].status == Running then Outcome(Failed, now) else g.processed[id]
        invariant stale <==> exists id :: id in g.processed && id !in pending && g.processed[id].status == Running
        invariant state.lastFailure == if stale then Some(now) else g.lastFailure
        decreases pending
      {
        var id :| id in pending;
        pending := pending - {id};
        if state.processed[id].status == Running {
          state := state.(processed := state.processed[id := Outcome(Failed, now)], lastFailure := Some(now));
          stale := true;
        }
      }
      if stale {
        file := state;
      } else {
        assert state.processed == g.processed;
      }
    }

    /** The part of a request up to the point where the wrapper is started. */
    method Admit(id: string, reason: string, locked: bool, t: Clock) returns (v: Verdict)
      modifies this
      ensures v == Answer(old(file), id, reason, locked, t)
      ensures file == if v.Invalid? || v.Locked? then old(file)
                      else if v.Go? then Admitted(Loaded(old(file), t.load), id, t)
                      else Loaded(old(file), t.load)
    {
      if !ValidRequest(id, reason) { return Invalid; }
      if locked { return Locked; }
      var state := LoadGuard(t.load);
      if id in state.processed { return Known(state.processed[id].status); }
      var cut := t.cut - DAY;
      var attempts: seq<int> := [];
      for n := 0 to |state.attempts|
        invariant attempts == After(state.attempts[..n], cut)
        invariant file == Loaded(old(file), t.load) == state
      {
        assert state.attempts[..n + 1][..n] == state.attempts[..n];
        if state.attempts[n] > cut { attempts := attempts + [state.attempts[n]]; }
      }
      assert state.attempts[..|state.attempts|] == state.attempts;
      if |attempts| >= 2 { return DailyLimit; }
      if |attempts| > 0 && t.since - attempts[|attempts| - 1] < HOUR { return Cooldown; }
      if state.lastFailure.Some? { return PreviousFailure; }
      file := GuardFile(attempts + [t.stamp], state.processed[id := Outcome(Running, t.stamp)], state.lastFailure);
      v := Go;
    }

    /** The part of a request after the wrapper and the recovery checks have ended. */
    method Complete(id: string, ok: bool, at: int)
      modifies this
      ensures file == Completed(old(file), id, ok, at)
    {
      var status := if ok then Succeeded else Failed;
      if !ok { file := file.(lastFailure := Some(at)); }
      file := file.(processed := file.processed[id := Outcome(status, at)]);
    }
  }

  // ---------- Runs with crashes ----------

  datatype Ending = InFlight | Ended(ok: bool) | CutOff

  /** One run of the wrapper: the action, the number of its attempt, when it really started, how it ended. */
  datatype Execution = Execution(id: string, attempt: int, started: int, ending: Ending)

  datatype Phase = Idle | Ready(id: string) | Busy(id: string)

  /** The agent with its file, the instants of all attempts it ever recorded and all executions. */
  datatype World = World(file: GuardFile, phase: Phase, stamps: seq<int>, log: seq<Execution>, clock: int)

  datatype Event =
    | Request(id: string, reason: string, locked: bool, t: Clock)
    | Launch(at: int)
    | Finish(ok: bool, at: int)
    | Crash

  ghost function SetEnding(log: seq<Execution>, e: Ending): seq<Execution> {
    if log == [] then log else log[|log| - 1 := log[|log| - 1].(ending := e)]
  }

  /** One step.  The agent's mutex lets a request in only while no other is being served, and the clock
      does not go backwards; a step that violates either does not happen. */
  ghost function Next(w: World, e: Event): World {
    match e
    case Request(id, reason, locked, t) =>
      if !w.phase.Idle? || !t.From(w.clock) then w
      else if !ValidRequest(id, reason) || locked then w.(clock := t.stamp)
      else
        var g := Loaded(w.file, t.load);
        if Decide(g, id, t).Go? then
          w.(file := Admitted(g, id, t), phase := Ready(id), stamps := w.stamps + [t.stamp], clock := t.stamp)
        else w.(file := g, clock := t.stamp)
    case Launch(at) =>
      if !w.phase.Ready? || at < w.clock then w
      else
        w.(phase := Busy(w.phase.id), clock := at,
           log := w.log + [Execution(w.phase.id, |w.stamps| - 1, at, InFlight)])
    case Finish(ok, at) =>
      if !w.phase.Busy? || at < w.clock then w
      else
        w.(phase := Idle, clock := at, file := Completed(w.file, w.phase.id, ok, at),
           log := SetEnding(w.log, Ended(ok)))
    case Crash =>
      w.(phase := Idle, log := if w.phase.Busy? then SetEnding(w.log, CutOff) else w.log)
  }

  ghost function Exec(w: World, run: seq<Event>): World {
    if run == [] then w else Next(Exec(w, run[..|run| - 1]), run[|run| - 1])
  }

  ghost function Start(now: int): World {
    World(GuardFile([], map[], None), Idle, [], [], now)
  }

  // ---------- Invariants ----------

  /** No further request can be admitted: a failure is on file, or will be once the file is read. */
  ghost predicate Latched(g: GuardFile) {
    g.lastFailure.Some? || Interrupted(g)
  }

  /** Attempts are spaced: an hour between neighbours, a day over any three. */
  ghost predicate Spaced(stamps: seq<int>) {
    && (forall i :: 0 <= i && i + 1 < |stamps| ==> stamps[i] + HOUR <= stamps[i + 1])
    && (forall i :: 0 <= i && i + 2 < |stamps| ==> stamps[i] + DAY <= stamps[i + 2])
  }

  /** The file holds the attempts from m on; the earlier ones are a day old. */
  ghost predicate Recorded(attempts: seq<int>, stamps: seq<int>, clock: int) {
    && |attempts| <= |stamps|
    && attempts == stamps[|stamps| - |attempts|..]
    && (forall i :: 0 <= i < |stamps| - |attempts| ==> stamps[i] + DAY <= clock)
    && (forall i :: 0 <= i < |stamps| ==> stamps[i] <= clock)
  }

  ghost predicate IdsInv(log: seq<Execution>, known: set<string>) {
    && (forall i :: 0 <= i < |log| ==> log[i].id in known)
    && (forall i, j :: 0 <= i < j < |log| ==> log[i].id != log[j].id)
  }

  ghost predicate AttemptsInv(log: seq<Execution>, stamps: seq<int>, clock: int) {
    && (forall i :: 0 <= i < |log| ==>
          0 <= log[i].attempt < |stamps| && stamps[log[i].attempt] <= log[i].started <= clock)
    && (forall i, j :: 0 <= i < j < |log| ==> log[i].attempt < log[j].attempt)
  }

  /** Only the last execution can be other than a success, and then the guard is latched. */
  ghost predicate EndingsInv(log: seq<Execution>, latched: bool) {
    && (forall i :: 0 <= i < |log| - 1 ==> log[i].ending == Ended(true))
    && (log != [] && log[|log| - 1].ending != Ended(true) ==> latched)
  }

  ghost predicate LogInv(w: World) {
    && IdsInv(w.log, w.file.processed.Keys)
    && AttemptsInv(w.log, w.stamps, w.clock)
    && EndingsInv(w.log, Latched(w.file))
  }

  ghost predicate PhaseInv(w: World) {
    match w.phase
    case Idle => w.log != [] ==> !w.log[|w.log| - 1].ending.InFlight?
    case Ready(id) =>
      && id in w.file.processed && w.file.processed[id].status == Running
      && w.stamps != []
      && (forall i :: 0 <= i < |w.log| ==>
            w.log[i].id != id && w.log[i].attempt < |w.stamps| - 1 && w.log[i].ending == Ended(true))
      && OnlyRunning(w.file, id)
    case Busy(id) =>
      && id in w.file.processed && w.file.processed[id].status == Running
      && w.log != [] && w.log[|w.log| - 1].id == id && w.log[|w.log| - 1].ending == InFlight
      && OnlyRunning(w.file, id)
  }

  ghost predicate OnlyRunning(g: GuardFile, id: string) {
    g.lastFailure.None? && forall k :: k in g.processed && g.processed[k].status == Running ==> k == id
  }

  ghost predicate Inv(w: World) {
    && Recorded(w.file.attempts, w.stamps, w.clock)
    && Spaced(w.stamps)
    && LogInv(w)
    && PhaseInv(w)
  }

  /** What is kept is a tail, and the cut separates it from the rest. */
  ghost predicate CutTail(attempts: seq<int>, kept: seq<int>, cut: int) {
    && |kept| <= |attempts|
    && kept == attempts[|attempts| - |kept|..]
    && (forall i :: 0 <= i < |attempts| - |kept| ==> attempts[i] <= cut)
    && (forall i :: 0 <= i < |kept| ==> kept[i] > cut)
  }

  lemma {:induction false} CutTailStep(front: seq<int>, x: int, kept: seq<int>, cut: int)
    requires CutTail(front, kept, cut) && (front != [] ==> front[|front| - 1] <= x)
    ensures CutTail(front + [x], kept + (if x > cut then [x] else []), cut)
  {
    assert kept != [] ==> kept[|kept| - 1] == front[|front| - 1];
  }

  ghost predicate Ordered(s: seq<int>) {
    forall i, j :: 0 <= i <= j < |s| ==> s[i] <= s[j]
  }

  lemma {:induction false} SpacedIsOrdered(stamps: seq<int>, n: nat)
    requires Spaced(stamps) && n <= |stamps|
    ensures Ordered(stamps[n..])
  {
    forall i, j | 0 <= i <= j < |stamps| - n ensures stamps[n..][i] <= stamps[n..][j] {
      if i < j {
        Apart(stamps, n + i, n + j);
      }
    }
  }

  lemma {:induction false} AfterSorted(attempts: seq<int>, cut: int)
    requires Ordered(attempts)
    ensures CutTail(attempts, After(attempts, cut), cut)
  {
    if attempts != [] {
      var last := |attempts| - 1;
      AfterSorted(attempts[..last], cut);
      CutTailStep(attempts[..last], attempts[last], After(attempts[..last], cut), cut);
      assert attempts == attempts[..last] + [attempts[last]];
    }
  }

  lemma {:induction false} LoadedFacts(g: GuardFile, now: int)
    ensures var r := Loaded(g, now);
            && r.attempts == g.attempts && r.processed.Keys == g.processed.Keys
            && !Interrupted(r)
            && (Latched(g) <==> r.lastFailure.Some?)
            && (!Latched(g) ==> r == g)
  {
  }

  /** The attempts that survive the daily cut are the last n stamps; the others are a day old. */
  lemma {:induction false} RecentStamps(attempts: seq<int>, stamps: seq<int>, clock: int, cut: int)
    requires Recorded(attempts, stamps, clock) && Spaced(stamps) && clock <= cut
    ensures var recent := After(attempts, cut - DAY);
            && |recent| <= |stamps|
            && recent == stamps[|stamps| - |recent|..]
            && forall i :: 0 <= i < |stamps| - |recent| ==> stamps[i] + DAY <= cut
  {
    SpacedIsOrdered(stamps, |stamps| - |attempts|);
    hide After, Spaced, Ordered;
    AfterSorted(attempts, cut - DAY);
    TailOfTail(attempts, stamps, clock, After(attempts, cut - DAY), cut);
  }

  lemma {:induction false} TailOfTail(attempts: seq<int>, stamps: seq<int>, clock: int, recent: seq<int>, cut: int)
    requires Recorded(attempts, stamps, clock) && CutTail(attempts, recent, cut - DAY) && clock <= cut
    ensures |recent| <= |stamps| && recent == stamps[|stamps| - |recent|..]
    ensures forall i :: 0 <= i < |stamps| - |recent| ==> stamps[i] + DAY <= cut
  {
    var m := |stamps| - |attempts|;
    forall i | 0 <= i < |stamps| - |recent| ensures stamps[i] + DAY <= cut {
      if i >= m {
        assert attempts[i - m] == stamps[i];
      }
    }
  }

  lemma {:induction false} SpacingStep(stamps: seq<int>, n: nat, t: Clock)
    requires Spaced(stamps) && n <= |stamps| < n + 2 && t.cut <= t.since <= t.stamp
    requires forall i :: 0 <= i < n ==> stamps[i] + DAY <= t.cut
    requires n < |stamps| ==> t.since - stamps[n] >= HOUR
    ensures Spaced(stamps + [t.stamp])
  {
  }

  lemma {:induction false} AdmissionSpacing(w: World, t: Clock, recent: seq<int>)
    requires Recorded(w.file.attempts, w.stamps, w.clock) && Spaced(w.stamps) && t.From(w.clock)
    requires recent == After(w.file.attempts, t.cut - DAY)
    requires |recent| < 2 && (|recent| > 0 ==> t.since - recent[|recent| - 1] >= HOUR)
    ensures Spaced(w.stamps + [t.stamp])
    ensures Recorded(recent + [t.stamp], w.stamps + [t.stamp], t.stamp)
  {
    RecentStamps(w.file.attempts, w.stamps, w.clock, t.cut);
    SpacingStep(w.stamps, |w.stamps| - |recent|, t);
  }

  lemma {:induction false} RecordedLater(attempts: seq<int>, stamps: seq<int>, clock: int, later: int)
    requires Recorded(attempts, stamps, clock) && clock <= later
    ensures Recorded(attempts, stamps, later)
  {
  }

  lemma {:induction false} AttemptsLater(log: seq<Execution>, stamps: seq<int>, clock: int, later: int)
    requires AttemptsInv(log, stamps, clock) && clock <= later
    ensures AttemptsInv(log, stamps, later)
  {
  }

  lemma {:induction false} LoadInv(w: World, load: int, later: int)
    requires Inv(w) && w.phase.Idle? && w.clock <= later
    ensures Inv(w.(file := Loaded(w.file, load), clock := later))
  {
    LoadedFacts(w.file, load);
    AttemptsLater(w.log, w.stamps, w.clock, later);
    RecordedLater(w.file.attempts, w.stamps, w.clock, later);
    assert w.log != [] && w.log[|w.log| - 1].ending != Ended(true) ==> Latched(w.file);
    LatchStays(w.file, load);
    hide IdsInv, AttemptsInv, Loaded, Latched, Interrupted, Spaced, Recorded;
  }

  lemma {:induction false} LatchStays(g: GuardFile, load: int)
    ensures Latched(g) ==> Latched(Loaded(g, load))
  {
    LoadedFacts(g, load);
  }

  lemma {:induction false} RequestInv(w: World, id: string, t: Clock)
    requires Inv(w) && w.phase.Idle? && t.From(w.clock)
    ensures var g := Loaded(w.file, t.load);
            && (Decide(g, id, t).Go? ==>
                  Inv(World(Admitted(g, id, t), Ready(id), w.stamps + [t.stamp], w.log, t.stamp)))
            && Inv(w.(file := g, clock := t.stamp))
  {
    var g := Loaded(w.file, t.load);
    LoadedFacts(w.file, t.load);
    LoadInv(w, t.load, t.stamp);
    hide Loaded, Latched, Interrupted, LogInv, PhaseInv, Recorded, Spaced, After;
    if Decide(g, id, t).Go? {
      AdmissionSpacing(w, t, After(g.attempts, t.cut - DAY));
      AdmittedInv(w, g, id, t);
    }
  }

  lemma {:induction false} AdmittedInv(w: World, g: GuardFile, id: string, t: Clock)
    requires LogInv(w) && w.phase.Idle? && t.From(w.clock) && id !in w.file.processed
    requires !Latched(w.file) && g == w.file && PhaseInv(w)
    ensures var v := World(Admitted(g, id, t), Ready(id), w.stamps + [t.stamp], w.log, t.stamp);
            LogInv(v) && PhaseInv(v)
  {
    var v := World(Admitted(g, id, t), Ready(id), w.stamps + [t.stamp], w.log, t.stamp);
    assert forall i :: 0 <= i < |w.log| ==> v.stamps[w.log[i].attempt] == w.stamps[w.log[i].attempt];
  }

  lemma {:induction false} EndingKeeps(log: seq<Execution>, e: Ending, known: set<string>, stamps: seq<int>,
                                       clock: int, later: int)
    requires IdsInv(log, known) && AttemptsInv(log, stamps, clock) && clock <= later
    ensures IdsInv(SetEnding(log, e), known) && AttemptsInv(SetEnding(log, e), stamps, later)
  {
    var after := SetEnding(log, e);
    assert |after| == |log|;
    assert forall i :: 0 <= i < |log| ==> after[i].id == log[i].id && after[i].attempt == log[i].attempt
                                          && after[i].started == log[i].started;
    hide SetEnding;
    SameIds(log, after, known);
  }

  lemma {:induction false} SameIds(log: seq<Execution>, after: seq<Execution>, known: set<string>)
    requires |after| == |log| && forall i :: 0 <= i < |log| ==> after[i].id == log[i].id
    requires IdsInv(log, known)
    ensures IdsInv(after, known)
  {
  }

  lemma {:induction false} LastEnding(log: seq<Execution>, e: Ending, before: bool, after: bool)
    requires log != [] && EndingsInv(log, before) && (e == Ended(true) || after)
    ensures EndingsInv(SetEnding(log, e), after)
    ensures SetEnding(log, e) != [] && SetEnding(log, e)[|log| - 1].ending == e && |SetEnding(log, e)| == |log|
  {
  }

  lemma {:induction false} LaunchInv(w: World, at: int)
    requires Inv(w)
    ensures Inv(Next(w, Launch(at)))
  {
    var v := Next(w, Launch(at));
    if v != w {
      var x := Execution(w.phase.id, |w.stamps| - 1, at, InFlight);
      Launched(w, x);
      hide IdsInv, AttemptsInv, EndingsInv, Spaced, Latched;
      assert v.log == w.log + [x];
    }
  }

  lemma {:induction false} Launched(w: World, x: Execution)
    requires LogInv(w) && Recorded(w.file.attempts, w.stamps, w.clock) && w.phase.Ready? && PhaseInv(w)
    requires x.id == w.phase.id && x.attempt == |w.stamps| - 1 && x.started >= w.clock
    ensures IdsInv(w.log + [x], w.file.processed.Keys)
    ensures AttemptsInv(w.log + [x], w.stamps, x.started)
    ensures EndingsInv(w.log + [x], true) && Latched(w.file)
  {
  }

  lemma {:induction false} FinishInv(w: World, ok: bool, at: int)
    requires Inv(w)
    ensures Inv(Next(w, Finish(ok, at)))
  {
    hide IdsInv, AttemptsInv, EndingsInv, Latched, Spaced, Recorded, SetEnding, OnlyRunning;
    var v := Next(w, Finish(ok, at));
    if v != w {
      EndingKeeps(w.log, Ended(ok), w.file.processed.Keys, w.stamps, w.clock, at);
      RecordedLater(w.file.attempts, w.stamps, w.clock, at);
      assert v.file.processed.Keys == w.file.processed.Keys;
      if !ok {
        FailureLatches(v.file);
      }
      LastEnding(w.log, Ended(ok), Latched(w.file), Latched(v.file));
    }
  }

  lemma {:induction false} FailureLatches(g: GuardFile)
    requires g.lastFailure.Some?
    ensures Latched(g)
  {
  }

  lemma {:induction false} CrashInv(w: World)
    requires Inv(w)
    ensures Inv(Next(w, Crash))
  {
    if w.phase.Busy? {
      EndingKeeps(w.log, CutOff, w.file.processed.Keys, w.stamps, w.clock, w.clock);
      assert Interrupted(w.file);
      LastEnding(w.log, CutOff, Latched(w.file), Latched(w.file));
      hide IdsInv, AttemptsInv, EndingsInv, Latched, Spaced, Recorded, SetEnding, OnlyRunning;
    }
  }

  lemma {:induction false} InvNext(w: World, e: Event)
    requires Inv(w)
    ensures Inv(Next(w, e))
  {
    match e
    case Request(id, reason, locked, t) =>
      if w.phase.Idle? && t.From(w.clock) {
        RequestInv(w, id, t);
      }
    case Launch(at) => LaunchInv(w, at);
    case Finish(ok, at) => FinishInv(w, ok, at);
    case Crash => CrashInv(w);
  }

  lemma {:induction false} InvExec(now: int, run: seq<Event>)
    ensures Inv(Exec(Start(now), run))
  {
    if run != [] {
      InvExec(now, run[..|run| - 1]);
      InvNext(Exec(Start(now), run[..|run| - 1]), run[|run| - 1]);
    }
  }

  // ---------- Main results ----------

  /** The wrapper runs at most once per action, whatever is requested, repeated, interrupted or crashes. */
  lemma {:induction false} AtMostOncePerAction(now: int, run: seq<Event>, i: nat, j: nat)
    requires i < j < |Exec(Start(now), run).log|
    ensures Exec(Start(now), run).log[i].id != Exec(Start(now), run).log[j].id
  {
    InvExec(now, run);
  }

  /** Nothing runs after a run that failed or was cut off: only the last execution can be other than a
      success. */
  lemma {:induction false} FailureComesLast(now: int, run: seq<Event>, i: nat, j: nat)
    requires i < j < |Exec(Start(now), run).log|
    ensures Exec(Start(now), run).log[i].ending == Ended(true)
  {
    InvExec(now, run);
  }

  /** Any two executions are an hour apart and any three span a day, counted from the recorded start of the
      first one; that record is never later than the real start. */
  lemma {:induction false} ExecutionsAreSpaced(now: int, run: seq<Event>, i: nat, j: nat)
    requires i < j < |Exec(Start(now), run).log|
    ensures var w := Exec(Start(now), run);
            && 0 <= w.log[i].attempt < |w.stamps|
            && w.stamps[w.log[i].attempt] <= w.log[i].started
            && w.stamps[w.log[i].attempt] + HOUR <= w.log[j].started
            && (i + 2 <= j ==> w.stamps[w.log[i].attempt] + DAY <= w.log[j].started)
  {
    InvExec(now, run);
    var w := Exec(Start(now), run);
    Apart(w.stamps, w.log[i].attempt, w.log[j].attempt);
    if i + 2 <= j {
      assert w.log[i].attempt < w.log[i + 1].attempt < w.log[j].attempt;
    }
  }

  /** In terms of everything that ever happened: fewer than two attempts in the last day, and none in the
      last hour. */
  ghost predicate Rested(stamps: seq<int>, t: Clock) {
    && (|stamps| < 2 || stamps[|stamps| - 2] <= t.cut - DAY)
    && (stamps == [] || t.since - stamps[|stamps| - 1] >= HOUR)
  }

  /** The guard is exact: a valid request to an unlocked idle agent starts the wrapper if and only if its
      action is new, nothing has failed or been interrupted before, and the attempts allow it. */
  lemma {:induction false} AdmittedIff(now: int, run: seq<Event>, id: string, reason: string, t: Clock)
    requires var w := Exec(Start(now), run); w.phase.Idle? && t.From(w.clock)
    requires ValidRequest(id, reason)
    ensures var w := Exec(Start(now), run);
            Next(w, Request(id, reason, false, t)).phase == Ready(id) <==>
            id !in w.file.processed && !Latched(w.file) && Rested(w.stamps, t)
  {
    InvExec(now, run);
    var w := Exec(Start(now), run);
    hide Exec, ValidRequest;
    LoadedFacts(w.file, t.load);
    DecidedIff(w, id, t);
    hide Loaded, Latched, Interrupted, Rested, Inv, Decide;
  }

  lemma {:induction false} DecidedIff(w: World, id: string, t: Clock)
    requires Inv(w) && t.From(w.clock)
    ensures Decide(Loaded(w.file, t.load), id, t).Go? <==>
            id !in w.file.processed && !Latched(w.file) && Rested(w.stamps, t)
  {
    LoadedFacts(w.file, t.load);
    RecentIffRested(w.file.attempts, w.stamps, w.clock, t);
    hide Loaded, Latched, Interrupted, After, Rested, Inv;
  }

  lemma {:induction false} RecentIffRested(attempts: seq<int>, stamps: seq<int>, clock: int, t: Clock)
    requires Recorded(attempts, stamps, clock) && Spaced(stamps) && t.From(clock)
    ensures var recent := After(attempts, t.cut - DAY);
            |recent| < 2 && (recent == [] || t.since - recent[|recent| - 1] >= HOUR) <==> Rested(stamps, t)
  {
    RecentStamps(attempts, stamps, clock, t.cut);
    KeptAreRecent(attempts, t.cut - DAY);
    hide After, Recorded, Spaced;
    var recent := After(attempts, t.cut - DAY);
    var n := |stamps| - |recent|;
    assert forall i :: 0 <= i < |recent| ==> recent[i] == stamps[n + i];
  }

  lemma {:induction false} KeptAreRecent(attempts: seq<int>, cut: int)
    ensures forall i :: 0 <= i < |After(attempts, cut)| ==> After(attempts, cut)[i] > cut
  {
    if attempts != [] {
      KeptAreRecent(attempts[..|attempts| - 1], cut);
    }
  }

  lemma {:induction false} Apart(stamps: seq<int>, a: int, b: int)
    requires Spaced(stamps) && 0 <= a < b < |stamps|
    ensures stamps[a] + HOUR <= stamps[b]
    ensures a + 2 <= b ==> stamps[a] + DAY <= stamps[b]
    decreases b - a
  {
    if a + 2 < b {
      Apart(stamps, a, b - 1);
      assert stamps[b - 1] + HOUR <= stamps[b - 1 + 1];
    } else if a + 2 == b {
      assert stamps[a] + HOUR <= stamps[a + 1];
    }
  }

  // ---------- Real starts ----------

  /** Every execution starts at most d after its attempt was recorded. */
  ghost predicate Delayed(w: World, d: int) {
    forall i :: 0 <= i < |w.log| && 0 <= w.log[i].attempt < |w.stamps| ==>
      w.log[i].started - w.stamps[w.log[i].attempt] <= d
  }

  /** Any two starts are at least `pair` apart. */
  ghost predicate PairsApart(log: seq<Execution>, pair: int) {
    forall i, j :: 0 <= i < j < |log| ==> log[j].started - log[i].started >= pair
  }

  /** Any three starts span at least `triple`. */
  ghost predicate TriplesSpan(log: seq<Execution>, triple: int) {
    forall i, j :: 0 <= i && i + 2 <= j < |log| ==> log[j].started - log[i].started >= triple
  }

  /** A delay of at most d costs at most d: real starts are an hour less d apart, and any three of them span a
      day less d. */
  lemma {:induction false} StartsAreSpaced(now: int, run: seq<Event>, d: int)
    requires Delayed(Exec(Start(now), run), d)
    ensures PairsApart(Exec(Start(now), run).log, HOUR - d) && TriplesSpan(Exec(Start(now), run).log, DAY - d)
  {
    var w := Exec(Start(now), run);
    forall i, j | 0 <= i < j < |w.log|
      ensures w.log[j].started - w.log[i].started >= HOUR - d
      ensures i + 2 <= j ==> w.log[j].started - w.log[i].started >= DAY - d
    {
      ExecutionsAreSpaced(now, run, i, j);
    }
  }

  /** A request recorded at one instant whose wrapper starts, and succeeds, at another. */
  function Restart(id: string, at: int, start: int): seq<Event> {
    [Request(id, REASON, false, Clock(at, at, at, at)), Launch(start), Finish(true, start)]
  }

  const REASON := "0123456789"

  lemma {:induction false} ExecThree(w: World, x: Event, y: Event, z: Event)
    ensures Exec(w, [x, y, z]) == Next(Next(Next(w, x), y), z)
  {
    assert [x, y, z][..2] == [x, y] && [x, y][..1] == [x] && [x][..0] == [];
    assert Exec(w, []) == w;
    assert Exec(w, [x]) == Next(w, x);
    assert Exec(w, [x, y]) == Next(Next(w, x), y);
  }

  lemma {:induction false} ExecConcat(w: World, a: seq<Event>, b: seq<Event>)
    ensures Exec(w, a + b) == Exec(Exec(w, a), b)
  {
    if b == [] {
      assert a + b == a;
    } else {
      assert (a + b)[..|a + b| - 1] == a + b[..|b| - 1];
      ExecConcat(w, a, b[..|b| - 1]);
      hide Next;
    }
  }

  /** What a world is after a successful restart. */
  ghost predicate Restarted(w: World, id: string, at: int, start: int, next: World) {
    && Inv(next) && next.phase.Idle? && next.clock == start && !Latched(next.file)
    && next.stamps == w.stamps + [at]
    && next.log == w.log + [Execution(id, |w.stamps|, start, Ended(true))]
    && next.file.processed.Keys == w.file.processed.Keys + {id}
  }

  lemma {:induction false} RestartSucceeds(w: World, id: string, at: int, start: int)
    requires Inv(w) && w.phase.Idle? && w.clock <= at <= start && !Latched(w.file)
    requires id !in w.file.processed && ValidRequest(id, REASON) && Rested(w.stamps, Clock(at, at, at, at))
    ensures Restarted(w, id, at, start, Exec(w, Restart(id, at, start)))
  {
    var x, y, z := Request(id, REASON, false, Clock(at, at, at, at)), Launch(start), Finish(true, start);
    ExecThree(w, x, y, z);
    InvNext(w, x);
    InvNext(Next(w, x), y);
    InvNext(Next(Next(w, x), y), z);
    RequestStarts(w, id, at);
    hide Exec, Inv, Next, ValidRequest, Latched;
    RunEnds(w, id, at, start, Next(w, x));
  }

  lemma {:induction false} RequestStarts(w: World, id: string, at: int)
    requires Inv(w) && w.phase.Idle? && w.clock <= at && !Latched(w.file)
    requires id !in w.file.processed && ValidRequest(id, REASON) && Rested(w.stamps, Clock(at, at, at, at))
    ensures var ready := Next(w, Request(id, REASON, false, Clock(at, at, at, at)));
            && ready.clock == at && ready.phase == Ready(id) && ready.stamps == w.stamps + [at] && ready.log == w.log
            && ready.file.processed == w.file.processed[id := Outcome(Running, at)] && ready.file.lastFailure.None?
  {
    DecidedIff(w, id, Clock(at, at, at, at));
    LoadedFacts(w.file, at);
    assert w.file.lastFailure.None?;
    hide Inv, Decide, Loaded, ValidRequest, After, Rested, Latched, Interrupted;
  }

  lemma {:induction false} RunEnds(w: World, id: string, at: int, start: int, ready: World)
    requires !Latched(w.file) && w.clock <= at <= start && ready.clock == at
    requires ready.phase == Ready(id) && ready.stamps == w.stamps + [at] && ready.log == w.log
    requires ready.file.processed == w.file.processed[id := Outcome(Running, at)] && ready.file.lastFailure.None?
    ensures var next := Next(Next(ready, Launch(start)), Finish(true, start));
            && next.phase.Idle? && next.clock == start && !Latched(next.file) && next.stamps == w.stamps + [at]
            && next.log == w.log + [Execution(id, |w.stamps|, start, Ended(true))]
            && next.file.processed.Keys == w.file.processed.Keys + {id}
  {
    var busy := Next(ready, Launch(start));
    assert busy.log == w.log + [Execution(id, |w.stamps|, start, InFlight)];
    assert SetEnding(busy.log, Ended(true)) == w.log + [Execution(id, |w.stamps|, start, Ended(true))];
    var next := Next(busy, Finish(true, start));
    assert forall k :: k in w.file.processed ==> w.file.processed[k].status != Running;
  }

  /** Three restarts, the first of which starts d after its record. */
  function LateFirst(a: string, b: string, c: string, d: int): seq<Event> {
    Restart(a, 0, d) + Restart(b, Max(d, HOUR), Max(d, HOUR)) + Restart(c, DAY, DAY)
  }

  /** Both bounds are attained: with a first start d late, the second start follows it by an hour less d, and
      the three starts span a day less d. */
  lemma {:induction false} DelayIsPaid(a: string, b: string, c: string, d: int)
    requires 0 <= d <= DAY - HOUR && a != b && a != c && b != c
    requires ValidRequest(a, REASON) && ValidRequest(b, REASON) && ValidRequest(c, REASON)
    ensures var w := Exec(Start(0), LateFirst(a, b, c, d));
            && Delayed(w, d) && |w.log| == 3
            && w.log[1].started - w.log[0].started == Max(HOUR - d, 0)
            && w.log[2].started - w.log[0].started == DAY - d
  {
    var second := Max(d, HOUR);
    var r1, r2, r3 := Restart(a, 0, d), Restart(b, second, second), Restart(c, DAY, DAY);
    ExecConcat(Start(0), r1, r2);
    ExecConcat(Start(0), r1 + r2, r3);
    StartIsFree();
    hide Exec, ValidRequest, Restart, Inv, Latched;
    var w1 := Exec(Start(0), r1);
    var w2 := Exec(w1, r2);
    RestartSucceeds(Start(0), a, 0, d);
    RestartSucceeds(w1, b, second, second);
    RestartSucceeds(w2, c, DAY, DAY);
  }

  lemma {:induction false} DistinctIds()
    ensures "act_1" != "act_2" && "act_1" != "act_3" && "act_2" != "act_3"
    ensures ValidRequest("act_1", REASON) && ValidRequest("act_2", REASON) && ValidRequest("act_3", REASON)
  {
    assert "act_1"[4] != "act_2"[4] && "act_1"[4] != "act_3"[4] && "act_2"[4] != "act_3"[4];
    assert Trim(REASON) == REASON;
    hide Trim, ByteLength;
  }

  lemma {:induction false} StartIsFree()
    ensures Inv(Start(0)) && !Latched(Start(0).file)
  {
    assert !Latched(Start(0).file);
    InvExec(0, []);
    hide Inv, Latched;
    assert Exec(Start(0), []) == Start(0);
  }

  /** Real starts keep the hour in every run with delays of at most d. */
  ghost predicate AlwaysHourApart(d: int) {
    forall now: int, run: seq<Event> ::
      Delayed(Exec(Start(now), run), d) ==> PairsApart(Exec(Start(now), run).log, HOUR)
  }

  /** Real starts keep the day in every run with delays of at most d. */
  ghost predicate AlwaysDaySpan(d: int) {
    forall now: int, run: seq<Event> ::
      Delayed(Exec(Start(now), run), d) ==> TriplesSpan(Exec(Start(now), run).log, DAY)
  }

  /** The hour and the day are counted from the record.  Real starts keep them in every run exactly when the
      wrapper never starts later than its attempt was recorded. */
  lemma {:induction false} SpacingIff(d: int)
    requires d >= 0
    ensures AlwaysHourApart(d) <==> d == 0
    ensures AlwaysDaySpan(d) <==> d == 0
  {
    if d == 0 {
      forall now: int, run: seq<Event> | Delayed(Exec(Start(now), run), d)
        ensures PairsApart(Exec(Start(now), run).log, HOUR) && TriplesSpan(Exec(Start(now), run).log, DAY)
      {
        StartsAreSpaced(now, run, 0);
      }
    } else {
      var late := Min(d, HOUR);
      DistinctIds();
      DelayIsPaid("act_1", "act_2", "act_3", late);
      var w := Exec(Start(0), LateFirst("act_1", "act_2", "act_3", late));
      hide Exec, LateFirst;
      assert Delayed(w, d);
      assert !PairsApart(w.log, HOUR) && !TriplesSpan(w.log, DAY);
    }
  }
}
