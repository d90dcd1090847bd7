/** Recovery codes (the login transaction of cmd/authbroker/main.go): several logins of one user may be under
way at once, each having checked its code against a list that may have changed since. */
module Recovery {
  import opened Base

  datatype TxIo = Healthy | FailsEarly | FailsLate | AnswerLost

  datatype Reply = Welcome | InvalidCredentials | ServerError

  /** A session that was opened, and the recovery hash it consumed, if it used one. */
  datatype Opened = Opened(token: string, via: Option<string>)

  /** The stored hashes of unused codes, the live sessions, and all sessions ever opened. */
  datatype State = State(codes: seq<string>, sessions: set<string>, history: seq<Opened>)

  function RemoveFirst(s: seq<string>, h: string): (r: seq<string>)
    ensures h in s ==> multiset(s) == multiset(r) + multiset{h}
    ensures h !in s ==> r == s
  {
    if s == [] then []
    else
      assert s == [s[0]] + s[1..];
      if s[0] == h then s[1..] else [s[0]] + RemoveFirst(s[1..], h)
  }

  /** The transaction of a login whose credentials checked out, with a recovery code or without. */
  function Commit(st: State, wanted: Option<string>, token: string, io: TxIo): (State, Reply) {
    if io == FailsEarly then (st, ServerError)
    else if wanted.Some? && wanted.value !in st.codes then (st, InvalidCredentials)
    else if io == FailsLate || token in st.sessions then (st, ServerError)
    else
      (State(if wanted.Some? then RemoveFirst(st.codes, wanted.value) else st.codes,
             st.sessions + {token}, st.history + [Opened(token, wanted)]),
       if io == AnswerLost then ServerError else Welcome)
  }

  /** What a login leads to: it is welcomed exactly if nothing fails and its code, if it uses one, is still there;
      then the session is live and one code is gone.  Without a new session nothing changes. */
  lemma {:induction false} CommitMeans(st: State, wanted: Option<string>, token: string, io: TxIo)
    ensures var (next, reply) := Commit(st, wanted, token, io);
            var usable := wanted == None || wanted.value in st.codes;
            var opens := usable && token !in st.sessions && io in {Healthy, AnswerLost};
            && (reply == Welcome <==> opens && io == Healthy)
            && (reply == InvalidCredentials <==> io != FailsEarly && !usable)
            && (!opens ==> next == st)
            && (opens ==>
                  && next.sessions == st.sessions + {token}
                  && next.history == st.history + [Opened(token, wanted)]
                  && multiset(st.codes) == multiset(next.codes) +
                                           (if wanted == None then multiset{} else multiset{wanted.value}))
  {
  }

  class Account {
    var codes: seq<string>
    var sessions: set<string>
    ghost var history: seq<Opened>

    ghost function View(): State
      reads this
    {
      State(codes, sessions, history)
    }

    /** The first code with the wanted hash, or -1. */
    static method Matched(current: seq<string>, wanted: string) returns (matched: int)
      ensures matched >= -1 && (matched == -1 ==> wanted !in current)
      ensures matched >= 0 ==> matched < |current| && wanted !in current[..matched] && current[matched] == wanted
    {
      matched := 0;
      while matched < |current|
        invariant 0 <= matched <= |current| && wanted !in current[..matched]
      {
        if current[matched] == wanted { return; }
        matched := matched + 1;
      }
      matched := -1;
    }

    method Login(wanted: Option<string>, token: string, io: TxIo) returns (r: Reply)
      modifies this
      ensures (View(), r) == Commit(old(View()), wanted, token, io)
    {
      if io == FailsEarly { return ServerError; }
      var current := codes;
      if wanted.Some? {
        var matched := Matched(current, wanted.value);
        if matched < 0 { return InvalidCredentials; }
        RemoveAt(current, matched);
        current := current[..matched] + current[matched + 1..];
      }
      if io == FailsLate || token in sessions { return ServerError; }
      codes, sessions := current, sessions + {token};
      history := history + [Opened(token, wanted)];
      r := if io == AnswerLost then ServerError else Welcome;
    }
  }

  lemma {:induction false} RemoveAt(s: seq<string>, i: nat)
    requires i < |s| && s[i] !in s[..i]
    ensures RemoveFirst(s, s[i]) == s[..i] + s[i + 1..]
  {
    if i > 0 {
      assert s[0] == s[..i][0];
      assert s[..i] == [s[0]] + s[1..][..i - 1] && s[1..][i..] == s[i + 1..];
      RemoveAt(s[1..], i - 1);
    }
  }

  // ---------- Concurrent logins ----------

  /** `pending` holds the logins that passed the first check: None by one-time password. */
  datatype System = System(st: State, pending: map<int, Option<string>>)

  datatype Event =
    | Check(id: int, wanted: Option<string>)
    | Finish(id: int, token: string, io: TxIo)
    | Logout(token: string)

  function Next(s: System, e: Event): System {
    match e
    case Check(id, wanted) =>
      if wanted.Some? && wanted.value !in s.st.codes then s else s.(pending := s.pending[id := wanted])
    case Finish(id, token, io) =>
      if id !in s.pending then s
      else s.(st := Commit(s.st, s.pending[id], token, io).0, pending := s.pending - {id})
    case Logout(token) => s.(st := s.st.(sessions := s.st.sessions - {token}))
  }

  function Exec(codes: seq<string>, run: seq<Event>): System {
    if run == [] then System(State(codes, {}, []), map[])
    else Next(Exec(codes, run[..|run| - 1]), run[|run| - 1])
  }

  /** The codes consumed by the sessions opened so far. */
  function Used(history: seq<Opened>): multiset<string> {
    if history == [] then multiset{}
    else
      var last := history[|history| - 1];
      Used(history[..|history| - 1]) + (if last.via.Some? then multiset{last.via.value} else multiset{})
  }

  lemma {:induction false} CommitConserves(st: State, wanted: Option<string>, token: string, io: TxIo)
    ensures var next := Commit(st, wanted, token, io).0;
            multiset(next.codes) + Used(next.history) == multiset(st.codes) + Used(st.history)
  {
    var next := Commit(st, wanted, token, io).0;
    if next.history != st.history {
      assert next.history[..|st.history|] == st.history;
    }
  }

  /** Conservation: in every run of interleaved logins, failures and lost answers, the unused codes and the
      codes consumed by opened sessions are together the codes issued. */
  lemma {:induction false} CodesAreConserved(codes: seq<string>, run: seq<Event>)
    ensures var st := Exec(codes, run).st;
            multiset(st.codes) + Used(st.history) == multiset(codes)
  {
    if run != [] {
      var s := Exec(codes, run[..|run| - 1]);
      CodesAreConserved(codes, run[..|run| - 1]);
      var e := run[|run| - 1];
      if e.Finish? && e.id in s.pending {
        CommitConserves(s.st, s.pending[e.id], e.token, e.io);
      }
    }
  }

  /** Step n opened a session with this token. */
  predicate OpensAt(codes: seq<string>, run: seq<Event>, n: int, token: string) {
    && 0 <= n < |run|
    && var before, after := Exec(codes, run[..n]).st.history, Exec(codes, run[..n + 1]).st.history;
       |after| == |before| + 1 && after[|before|].token == token
  }

  /** It was opened and not logged out since. */
  ghost predicate Live(codes: seq<string>, run: seq<Event>, token: string) {
    exists n :: OpensAt(codes, run, n, token) && forall k :: n < k < |run| ==> run[k] != Logout(token)
  }

  /** Step m checked the code of login `id`, or its one-time password, and the login has not finished since. */
  ghost predicate Checked(codes: seq<string>, run: seq<Event>, m: int, id: int, wanted: Option<string>) {
    && 0 <= m < |run| && run[m] == Check(id, wanted)
    && (wanted == None || wanted.value in Exec(codes, run[..m]).st.codes)
    && forall k :: m < k < |run| && run[k].Finish? ==> run[k].id != id
  }

  lemma {:induction false} CheckedStays(codes: seq<string>, run: seq<Event>, e: Event, m: int, id: int,
                                        wanted: Option<string>)
    requires Checked(codes, run, m, id, wanted) && (e.Finish? ==> e.id != id)
    ensures Checked(codes, run + [e], m, id, wanted)
  {
    hide Exec;
    var more := run + [e];
    assert more[..m] == run[..m] && more[|run|] == e && forall k :: 0 <= k < |run| ==> more[k] == run[k];
  }

  /** A login that is under way passed its check, once. */
  lemma {:induction false} PendingWasChecked(codes: seq<string>, run: seq<Event>, id: int) returns (m: int)
    requires id in Exec(codes, run).pending
    ensures Checked(codes, run, m, id, Exec(codes, run).pending[id])
  {
    hide Commit;
    var n := |run| - 1;
    var before := Exec(codes, run[..n]);
    assert run[..n] + [run[n]] == run;
    if run[n].Check? && run[n].id == id && (run[n].wanted == None || run[n].wanted.value in before.st.codes) {
      m := n;
    } else {
      m := PendingWasChecked(codes, run[..n], id);
      CheckedStays(codes, run[..n], run[n], m, id, before.pending[id]);
    }
  }

  /** No session without a check: a login that opens one passed its check before, with the code it consumes, and had
      not finished in between. */
  lemma {:induction false} OpenedWasChecked(codes: seq<string>, run: seq<Event>, n: nat, token: string) returns (m: int)
    requires OpensAt(codes, run, n, token)
    ensures run[n].Finish? && run[n].token == token
    ensures var history := Exec(codes, run[..n + 1]).st.history;
            Checked(codes, run[..n], m, run[n].id, history[|history| - 1].via)
  {
    assert run[..n + 1][..n] == run[..n];
    var s := Exec(codes, run[..n]);
    assert Exec(codes, run[..n + 1]) == Next(s, run[n]);
    CommitMeans(s.st, s.pending[run[n].id], run[n].token, run[n].io);
    hide Commit, Exec;
    m := PendingWasChecked(codes, run[..n], run[n].id);
  }

  lemma {:induction false} OpensBefore(codes: seq<string>, run: seq<Event>, m: nat, n: int, token: string)
    requires n < m <= |run|
    ensures OpensAt(codes, run[..m], n, token) <==> OpensAt(codes, run, n, token)
  {
    hide Exec;
    if n >= 0 {
      assert run[..m][..n] == run[..n] && run[..m][..n + 1] == run[..n + 1];
    }
  }

  /** The last step changes one session at most. */
  lemma {:induction false} LastStep(codes: seq<string>, run: seq<Event>, token: string)
    requires run != []
    ensures var m := |run| - 1;
            var before, after := Exec(codes, run[..m]).st.sessions, Exec(codes, run).st.sessions;
            token in after <==> OpensAt(codes, run, m, token) || (token in before && run[m] != Logout(token))
  {
    var m := |run| - 1;
    assert run[..m + 1] == run;
    var s, e := Exec(codes, run[..m]), run[m];
    if e.Finish? && e.id in s.pending {
      CommitMeans(s.st, s.pending[e.id], e.token, e.io);
    }
    hide Commit;
  }

  /** In every run a token is live if and only if a login opened its session and no logout came since. */
  lemma {:induction false} LiveIff(codes: seq<string>, run: seq<Event>, token: string)
    ensures token in Exec(codes, run).st.sessions <==> Live(codes, run, token)
  {
    InRange(codes, run, token);
    hide OpensAt;
    if run != [] {
      var m := |run| - 1;
      LiveIff(codes, run[..m], token);
      LastStep(codes, run, token);
      hide Exec;
      forall n | n < m ensures OpensAt(codes, run[..m], n, token) <==> OpensAt(codes, run, n, token) {
        OpensBefore(codes, run, m, n, token);
      }
      LiveStep(codes, run, token);
    }
  }

  lemma {:induction false} LiveStep(codes: seq<string>, run: seq<Event>, token: string)
    requires run != [] && forall n :: n < |run| - 1 ==>
               (OpensAt(codes, run[..|run| - 1], n, token) <==> OpensAt(codes, run, n, token))
    ensures var m := |run| - 1;
            Live(codes, run, token) <==>
            OpensAt(codes, run, m, token) || (Live(codes, run[..m], token) && run[m] != Logout(token))
  {
    var m := |run| - 1;
    var front := run[..m];
    InRange(codes, run, token);
    InRange(codes, front, token);
    assert forall k :: 0 <= k < m ==> run[k] == front[k];
    hide OpensAt;
    if Live(codes, front, token) && run[m] != Logout(token) {
      var n :| OpensAt(codes, front, n, token) && forall k :: n < k < m ==> front[k] != Logout(token);
      assert OpensAt(codes, run, n, token);
    }
    if Live(codes, run, token) && !OpensAt(codes, run, m, token) {
      StillLive(codes, run, token);
    }
  }

  lemma {:induction false} StillLive(codes: seq<string>, run: seq<Event>, token: string)
    requires run != [] && Live(codes, run, token) && !OpensAt(codes, run, |run| - 1, token)
    requires forall n :: OpensAt(codes, run, n, token) ==> 0 <= n < |run|
    requires forall n :: n < |run| - 1 ==>
               (OpensAt(codes, run[..|run| - 1], n, token) <==> OpensAt(codes, run, n, token))
    ensures Live(codes, run[..|run| - 1], token) && run[|run| - 1] != Logout(token)
  {
    hide OpensAt;
    var m := |run| - 1;
    var n :| OpensAt(codes, run, n, token) && forall k :: n < k < |run| ==> run[k] != Logout(token);
    assert n < m && OpensAt(codes, run[..m], n, token);
  }

  lemma {:induction false} InRange(codes: seq<string>, run: seq<Event>, token: string)
    ensures forall n :: OpensAt(codes, run, n, token) ==> 0 <= n < |run|
  {
  }

  lemma {:induction false} UsedTwice(history: seq<Opened>, i: int, j: int, h: string)
    requires 0 <= i < j < |history| && history[i].via == Some(h) == history[j].via
    ensures Used(history)[h] >= 2
  {
    var n := |history| - 1;
    if j == n {
      UsedOnce(history[..n], i, h);
    } else {
      UsedTwice(history[..n], i, j, h);
    }
  }

  lemma {:induction false} UsedOnce(history: seq<Opened>, i: int, h: string)
    requires 0 <= i < |history| && history[i].via == Some(h)
    ensures Used(history)[h] >= 1
  {
    var n := |history| - 1;
    if i < n {
      UsedOnce(history[..n], i, h);
    }
  }

  /** A code that was issued once opens at most one session, however many logins race with it. */
  lemma {:induction false} CodeOpensOneSession(codes: seq<string>, run: seq<Event>, i: int, j: int, h: string)
    requires multiset(codes)[h] <= 1
    requires var history := Exec(codes, run).st.history;
             0 <= i < |history| && 0 <= j < |history| && history[i].via == Some(h) == history[j].via
    ensures i == j
  {
    CodesAreConserved(codes, run);
    var st := Exec(codes, run).st;
    assert (multiset(st.codes) + Used(st.history))[h] <= 1;
    if i < j {
      UsedTwice(st.history, i, j, h);
    } else if j < i {
      UsedTwice(st.history, j, i, h);
    }
  }
}
