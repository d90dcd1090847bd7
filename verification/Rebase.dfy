/** The operator-approved rebase over pruned history (acknowledgePrunedRewardGap of cmd/controller/main.go). */
module Rebase {
  import opened Base
  import opened Text
  import opened Scan
  import opened Ledger
  import opened LedgerRuns

  datatype Snapshot = Snapshot(source: string, schemaOk: bool, finalized: int, hash: string)

  /** What the local node answers to a scan request; pruned state is told apart from other errors. */
  datatype Answer = Readable(scan: RewardScan) | Pruned | Broken

  datatype Authority = Authority(snapshot: Option<Snapshot>, scan: (int, int) -> Answer)

  /** When the controller brings a rebase to the store: the node is trusted, the history after the cursor is
      gone and out of the retained window, and the window itself can be read. */
  ghost predicate Approved(authority: Authority, expected: int) {
    && expected > 0
    && authority.snapshot.Some?
    && var s := authority.snapshot.value;
       && s.source == "local" && s.schemaOk && s.hash != ""
       && s.finalized > expected + RETAINED_WINDOW
       && authority.scan(expected + 1, Min(expected + CHUNK, s.finalized)).Pruned?
       && var from := s.finalized - RETAINED_WINDOW + 1;
          var answer := authority.scan(from, from + CHUNK - 1);
          answer.Readable? && ValidLocal(answer.scan, from, from + CHUNK - 1)
  }

  /** What is required of the node: a local, supported and finalized snapshot more than 64 blocks ahead; the up to 16
      blocks after the cursor pruned; and the first 16 of the last 64 readable as a valid local scan. */
  lemma {:induction false} ApprovedIff(authority: Authority, expected: int)
    ensures Approved(authority, expected) <==>
            && expected >= 1 && authority.snapshot != None
            && var Snapshot(source, schemaOk, finalized, hash) := authority.snapshot.value;
               && source == "local" && schemaOk && hash != "" && finalized - expected > 64
               && authority.scan(expected + 1, expected + 16) == Pruned
               && exists scan :: authority.scan(finalized - 63, finalized - 48) == Readable(scan)
                                 && ValidLocal(scan, finalized - 63, finalized - 48)
  {
    hide ValidLocal;
  }

  /** The rebase of the store that an acknowledgement amounts to. */
  ghost function Outcome(db: Database, authority: Authority, expected: int, actor: string, reason: string, io: TxIo)
    : (Database, bool)
  {
    if !Approved(authority, expected) then (db, false)
    else
      var finalized := authority.snapshot.value.finalized;
      Acknowledge(db, expected, finalized - RETAINED_WINDOW, finalized, actor, reason, io)
  }

  method AcknowledgePrunedRewardGap(authority: Authority, writer: Store, expected: int, actor: string,
                                    reason: string, io: TxIo) returns (ok: bool)
    modifies writer
    ensures (writer.View(), ok) == Outcome(old(writer.View()), authority, expected, actor, reason, io)
  {
    if expected <= 0 || authority.snapshot.None? { return false; }
    var snapshot := authority.snapshot.value;
    if snapshot.source != "local" || !snapshot.schemaOk || snapshot.finalized <= 0 || snapshot.hash == "" {
      return false;
    }
    if snapshot.finalized - expected <= RETAINED_WINDOW { return false; }
    var discarded := authority.scan(expected + 1, Min(expected + CHUNK, snapshot.finalized));
    if !discarded.Pruned? { return false; }
    var baseline := snapshot.finalized - RETAINED_WINDOW;
    var probeFrom := baseline + 1;
    var probeTo := Min(probeFrom + CHUNK - 1, snapshot.finalized);
    var probe := authority.scan(probeFrom, probeTo);
    if !probe.Readable? { return false; }
    var valid := ValidateLocalRewardScan(probe.scan, probeFrom, probeTo);
    if !valid { return false; }
    hide ValidLocal, Acknowledge;
    var error := writer.AcknowledgePrunedRewardGap(expected, baseline, snapshot.finalized, actor, reason, io);
    ok := error.None?;
  }

  /** Where both copies of the cursor stand. */
  predicate CursorIs(db: Database, v: int) {
    db.monitor.Some? && db.monitor.value.column == v == db.monitor.value.payload.lastScanned
  }

  /** A rebase takes effect exactly when it is approved, signed with a reason, finishes, and the cursor still
      stands where the operator saw it, in both copies; then it adds one audit row, leaves the ledger alone and
      lands the cursor 64 blocks below the finalized height. */
  lemma {:induction false} RebaseTakesEffectIff(db: Database, authority: Authority, expected: int, actor: string,
                                                reason: string, io: TxIo)
    ensures var (after, ok) := Outcome(db, authority, expected, actor, reason, io);
            && (ok <==> after != db && io != AnswerLost)
            && (after != db <==> Approved(authority, expected) && CursorIs(db, expected) && Finishes(io, 5)
                                 && Trim(actor) != "" && Trim(reason) != "")
            && (after != db ==>
                  var finalized := authority.snapshot.value.finalized;
                  && after.rows == db.rows
                  && CursorIs(after, finalized - 64)
                  && after.monitor.value.payload ==
                     db.monitor.value.payload.(lastScanned := finalized - 64, finalized := finalized)
                  && |after.audits| == |db.audits| + 1 && after.audits[..|db.audits|] == db.audits
                  && var row := after.audits[|db.audits|];
                     row.from == expected + 1 && row.through == finalized - 64 && row.resume == finalized - 63
                     && row.actor == Trim(actor) && row.reason == Trim(reason))
  {
    hide ValidLocal, Trim;
  }

  /** An acknowledgement is one step of the protocol: from the queue when it gets the mutex, from the command line
      at any time. */
  lemma {:induction false} RebaseIsStep(c: Chain, locked: bool, s: System, authority: Authority, expected: int,
                                        actor: string, reason: string, mutex: bool, io: TxIo)
    requires (locked && mutex ==> s.holder.None?) && Approved(authority, expected)
    ensures Next(c, locked, s, Ack(expected, authority.snapshot.value.finalized, actor, reason, mutex, io)).db ==
            Outcome(s.db, authority, expected, actor, reason, io).0
  {
    hide ValidLocal, Acknowledge;
  }
}
