/** Scanning finalized blocks for rewards (internal/reward/reward.go), and the controller's check of a scan
result (cmd/controller/main.go). */
module Scan {
  import opened Base
  import opened Codec
  import opened Scale

  // ---------- The chain ----------

  /** What is true of the chain: hashes, balances of the wallet and of the pot after each block, and the
      blocks authored by the wallet. */
  datatype Chain = Chain(hash: int -> string, wallet: int -> int, pot: int -> int, authored: int -> bool)

  ghost predicate WellFormed(c: Chain) {
    && (forall b :: c.hash(b) != "")
    && (forall a, b :: c.hash(a) == c.hash(b) ==> a == b)
  }

  /** The newest authored block up to b, as stored on chain after block b. */
  function LastAuthored(c: Chain, b: int): Option<int> {
    if b <= 0 then None else if c.authored(b) then Some(b) else LastAuthored(c, b - 1)
  }

  lemma {:induction false} LastAuthoredIsNewest(c: Chain, b: int)
    ensures var r := LastAuthored(c, b);
            && (r.Some? ==> 0 < r.value <= b && c.authored(r.value))
            && (forall x :: (if r.Some? then r.value else 0) < x <= b ==> !c.authored(x))
  {
    if b > 0 && !c.authored(b) {
      LastAuthoredIsNewest(c, b - 1);
    }
  }

  // ---------- Rewards ----------

  const EXISTENTIAL_DEPOSIT := 1_000_000

  /** Half of what the pot holds above the existential deposit, rounded down. */
  function ExpectedReward(pot: int): (r: int)
    ensures r >= 0
    ensures 2 * r <= Max(pot - EXISTENTIAL_DEPOSIT, 0) <= 2 * r + 1
  {
    var value := pot - EXISTENTIAL_DEPOSIT;
    if value <= 0 then 0 else value / 2
  }

  datatype Verification = Unknown | PotEmpty | Insufficient | ConfirmedExtra | Confirmed

  datatype Observation = Observation(block: int, hash: string, expected: int, credited: int, walletBefore: int,
                                     walletAfter: int, pot: int, verification: Verification, sources: int)

  function Verdict(expected: int, credited: int): Verification {
    if expected == 0 then PotEmpty
    else if credited < expected then Insufficient
    else if credited > expected then ConfirmedExtra
    else Confirmed
  }

  /** A verdict says how the credited amount compares with the expected one. */
  predicate Judges(v: Verification, expected: int, credited: int) {
    && (v == PotEmpty <==> expected == 0)
    && (expected > 0 ==>
          && (v == Insufficient <==> credited < expected)
          && (v == Confirmed <==> credited == expected)
          && (v == ConfirmedExtra <==> credited > expected))
  }

  /** The verdict is the one that fits. */
  lemma {:induction false} VerdictJudges(expected: int, credited: int, v: Verification)
    requires expected >= 0
    ensures Judges(v, expected, credited) <==> v == Verdict(expected, credited)
  {
  }

  /** What is to be recorded about an authored block: measured against its parent. */
  function Truth(c: Chain, b: int): Observation {
    var expected := ExpectedReward(c.pot(b - 1));
    var credited := Max(c.wallet(b) - c.wallet(b - 1), 0);
    Observation(b, c.hash(b), expected, credited, c.wallet(b - 1), c.wallet(b), c.pot(b - 1),
                Verdict(expected, credited), 1)
  }

  function DueAt(c: Chain, b: int): seq<Observation> {
    if c.authored(b) then [Truth(c, b)] else []
  }

  /** The observations due for the blocks from..to. */
  function Due(c: Chain, from: int, to: int): seq<Observation>
    decreases 1 + (to - from)
  {
    if to < from then [] else Due(c, from, to - 1) + DueAt(c, to)
  }

  ghost predicate Increasing(s: seq<Observation>) {
    forall i, j :: 0 <= i < j < |s| ==> s[i].block < s[j].block
  }

  ghost predicate AllTrue(c: Chain, from: int, to: int, s: seq<Observation>) {
    forall i :: 0 <= i < |s| ==> from <= s[i].block <= to && c.authored(s[i].block) && s[i] == Truth(c, s[i].block)
  }

  /** They list exactly the authored blocks of the range, in increasing order. */
  lemma {:induction false} DueIsExact(c: Chain, from: int, to: int)
    ensures AllTrue(c, from, to, Due(c, from, to)) && Increasing(Due(c, from, to))
    ensures forall b :: from <= b <= to && c.authored(b) ==> Truth(c, b) in Due(c, from, to)
    decreases 1 + (to - from)
  {
    if from <= to {
      DueIsExact(c, from, to - 1);
      if c.authored(to) {
        assert Due(c, from, to)[|Due(c, from, to - 1)|] == Truth(c, to);
      }
    }
  }

  /** Adjacent ranges concatenate. */
  lemma {:induction false} DueConcatenates(c: Chain, from: int, mid: int, to: int)
    requires from <= mid + 1 && mid <= to
    ensures Due(c, from, mid) + Due(c, mid + 1, to) == Due(c, from, to)
    decreases 0 + (to - mid)
  {
    if mid < to {
      DueConcatenates(c, from, mid, to - 1);
    }
  }

  // ---------- The remote procedure calls ----------

  /** What the node answers; None is an error or a missing value. */
  datatype Rpc = Rpc(blockHash: int -> Option<string>, spec: string -> Option<int>,
                     lastAuthored: string -> Option<seq<byte>>,
                     wallet: string -> Option<seq<byte>>, pot: string -> Option<seq<byte>>)

  predicate SupportedSpec(version: int) {
    version == 2208 || version == 2300 || version == 2400 || version == 2500
  }

  ghost predicate TruthfulBalance(raw: Option<seq<byte>>, balance: int) {
    raw.Some? && DecodedAccountInfo(raw.value).Some? && DecodedAccountInfo(raw.value).value.schemaOk ==>
      DecodedAccountInfo(raw.value).value.free == balance
  }

  /** The node may fail to answer but does not lie about the chain. */
  ghost predicate Truthful(rpc: Rpc, c: Chain) {
    && (forall b :: rpc.blockHash(b) in {None, Some(""), Some(c.hash(b))})
    && (forall b :: rpc.lastAuthored(c.hash(b)).Some? ==>
          DecodeBlockNumber(rpc.lastAuthored(c.hash(b)).value) in {None, LastAuthored(c, b)})
    && (forall b :: TruthfulBalance(rpc.wallet(c.hash(b)), c.wallet(b)))
    && (forall b :: TruthfulBalance(rpc.pot(c.hash(b)), c.pot(b)))
  }

  ghost predicate AnswersBalance(raw: Option<seq<byte>>) {
    raw.Some? && DecodedAccountInfo(raw.value).Some? && DecodedAccountInfo(raw.value).value.schemaOk
  }

  /** Everything about block b is answered. */
  ghost predicate Answers(rpc: Rpc, c: Chain, b: int) {
    && rpc.blockHash(b) == Some(c.hash(b)) && c.hash(b) != ""
    && rpc.lastAuthored(c.hash(b)).Some? && DecodeBlockNumber(rpc.lastAuthored(c.hash(b)).value).Some?
    && AnswersBalance(rpc.wallet(c.hash(b)))
    && AnswersBalance(rpc.pot(c.hash(b)))
  }

  ghost predicate AnswersAll(rpc: Rpc, c: Chain, lo: int, hi: int) {
    forall b :: lo <= b <= hi ==> Answers(rpc, c, b)
  }

  ghost predicate SpecSupportedAt(rpc: Rpc, b: int) {
    && rpc.blockHash(b).Some? && rpc.blockHash(b).value != ""
    && rpc.spec(rpc.blockHash(b).value).Some? && SupportedSpec(rpc.spec(rpc.blockHash(b).value).value)
  }

  /** A legal range whose two ends run a supported runtime. */
  ghost predicate Permitted(rpc: Rpc, from: int, to: int) {
    LegalRange(from, to) && SpecSupportedAt(rpc, from - 1) && SpecSupportedAt(rpc, to)
  }

  ghost predicate Scannable(rpc: Rpc, c: Chain, from: int, to: int) {
    Permitted(rpc, from, to) && AnswersAll(rpc, c, from - 1, to)
  }

  /** A range is permitted if it has 1 to 128 blocks after the first, and both ends answer a hash and one of the four
      known runtimes. */
  lemma {:induction false} PermittedIff(rpc: Rpc, from: int, to: int)
    ensures Permitted(rpc, from, to) <==>
            && 1 <= from <= to <= from + 127
            && forall b :: b in [from - 1, to] ==>
                 && rpc.blockHash(b) != None && rpc.blockHash(b).value != ""
                 && rpc.spec(rpc.blockHash(b).value) != None
                 && rpc.spec(rpc.blockHash(b).value).value in [2208, 2300, 2400, 2500]
  {
    assert [from - 1, to][0] == from - 1 && [from - 1, to][1] == to;
    assert forall v :: v in [2208, 2300, 2400, 2500] <==> SupportedSpec(v);
  }

  method FreeBalance(raw: Option<seq<byte>>) returns (free: Option<int>)
    ensures free.Some? <==> AnswersBalance(raw)
    ensures free.Some? ==> free.value == DecodedAccountInfo(raw.value).value.free
  {
    if raw.None? { return None; }
    var info := DecodeAccountInfo(raw.value);
    if info.None? || !info.value.schemaOk { return None; }
    free := Some(info.value.free);
  }

  /** The amounts of an observation follow from two balances of the wallet and one of the pot: expected is half of
      what the pot held above 1_000_000, credited what the wallet gained, and the verdict compares them. */
  predicate Measures(o: Observation, before: int, after: int, pot: int) {
    && o.walletBefore == before && o.walletAfter == after && o.pot == pot
    && o.credited == (if after > before then after - before else 0)
    && o.expected >= 0
    && (if pot > 1_000_000 then 2 * o.expected <= pot - 1_000_000 <= 2 * o.expected + 1 else o.expected == 0)
    && Judges(o.verification, o.expected, o.credited)
  }

  /** The truth about a block measures it against its parent. */
  lemma {:induction false} TruthMeasures(c: Chain, b: int)
    ensures Measures(Truth(c, b), c.wallet(b - 1), c.wallet(b), c.pot(b - 1))
    ensures Truth(c, b).block == b && Truth(c, b).hash == c.hash(b) && Truth(c, b).sources == 1
  {
  }

  method ObserveReward(rpc: Rpc, block: int, hash: string, parentHash: string, ghost c: Chain)
    returns (r: Option<Observation>)
    ensures r.Some? <==> AnswersBalance(rpc.wallet(parentHash)) && AnswersBalance(rpc.wallet(hash))
                         && AnswersBalance(rpc.pot(parentHash))
    ensures r.Some? ==> Measures(r.value, DecodedAccountInfo(rpc.wallet(parentHash).value).value.free,
                                 DecodedAccountInfo(rpc.wallet(hash).value).value.free,
                                 DecodedAccountInfo(rpc.pot(parentHash).value).value.free)
    ensures r.Some? ==> r.value.block == block && r.value.hash == hash && r.value.sources == 1
    ensures r.Some? && Truthful(rpc, c) && hash == c.hash(block) && parentHash == c.hash(block - 1) ==>
              r.value == Truth(c, block)
  {
    var before := FreeBalance(rpc.wallet(parentHash));
    var after := FreeBalance(rpc.wallet(hash));
    var pot := FreeBalance(rpc.pot(parentHash));
    if before.None? || after.None? || pot.None? { return None; }
    var expected := ExpectedReward(pot.value);
    var credited := after.value - before.value;
    if credited < 0 { credited := 0; }
    var verification := Unknown;
    if expected == 0 { verification := PotEmpty; }
    else if credited < expected { verification := Insufficient; }
    else if credited > expected { verification := ConfirmedExtra; }
    else { verification := Confirmed; }
    r := Some(Observation(block, hash, expected, credited, before.value, after.value, pot.value, verification, 1));
  }

  // ---------- A scan ----------

  const MAX_SCAN := 128

  datatype RewardScan = RewardScan(from: int, to: int, source: string, observations: seq<Observation>,
                                   lastAuthored: int)

  /** What is known after a block: its hash, the newest authored block, and its observation if one is due. */
  datatype Seen = Seen(hash: string, last: int, due: seq<Observation>)

  predicate LegalRange(from: int, to: int) {
    0 < from <= to && to - from + 1 <= MAX_SCAN
  }

  function LastAuthoredAt(rpc: Rpc, hash: string): Option<int> {
    if rpc.lastAuthored(hash).None? then None else DecodeBlockNumber(rpc.lastAuthored(hash).value)
  }

  ghost predicate Exact(c: Chain, source: string, from: int, to: int, scan: RewardScan) {
    && LastAuthored(c, to).Some?
    && scan == RewardScan(from, to, source, Due(c, from, to), LastAuthored(c, to).value)
  }

  /** The reads before the loop: the hash of the parent of the first block and the newest authored block there. */
  method ScanStart(rpc: Rpc, from: int, to: int, ghost c: Chain) returns (r: Option<Seen>)
    ensures r.Some? ==> Permitted(rpc, from, to)
    ensures Scannable(rpc, c, from, to) ==> r.Some? && r.value.hash == c.hash(from - 1)
    ensures r.Some? && Truthful(rpc, c) ==>
              r.value.hash == c.hash(from - 1) && LastAuthored(c, from - 1) == Some(r.value.last)
  {
    if from <= 0 || to < from || to - from + 1 > MAX_SCAN { return None; }
    var previousHash := rpc.blockHash(from - 1);
    var endHash := rpc.blockHash(to);
    if previousHash.None? || previousHash.value == "" || endHash.None? || endHash.value == "" { return None; }
    var first, last := rpc.spec(previousHash.value), rpc.spec(endHash.value);
    if first.None? || !SupportedSpec(first.value) || last.None? || !SupportedSpec(last.value) { return None; }
    var previous := LastAuthoredAt(rpc, previousHash.value);
    assert AnswersAll(rpc, c, from - 1, to) ==> Answers(rpc, c, from - 1);
    if previous.None? { return None; }
    r := Some(Seen(previousHash.value, previous.value, []));
  }

  /** A scan of a truthful node that succeeds is exact, and it succeeds when everything is answered.  It never
      succeeds while the wallet has not authored a block before the range. */
  method Scan(rpc: Rpc, source: string, from: int, to: int, ghost c: Chain) returns (r: Option<RewardScan>)
    ensures r.Some? ==> Permitted(rpc, from, to)
    ensures Truthful(rpc, c) && r.Some? ==> Exact(c, source, from, to, r.value) && LastAuthored(c, from - 1).Some?
    ensures Scannable(rpc, c, from, to) ==> r.Some?
  {
    hide Answers, AnswersAll, Scannable, LastAuthored, Truthful, SpecSupportedAt, Saw;
    var start := ScanStart(rpc, from, to, c);
    if start.None? { return None; }
    var previousHash, previous := start.value.hash, start.value.last;
    var observations := [];
    var block := from;
    assert Truthful(rpc, c) ==> OnTrack(c, from, block - 1, previousHash, previous, observations);
    hide Due;
    while block <= to
      invariant from <= block <= to + 1
      invariant Scannable(rpc, c, from, to) ==> previousHash == c.hash(block - 1)
      invariant Truthful(rpc, c) ==> OnTrack(c, from, block - 1, previousHash, previous, observations)
    {
      AnswersBoth(rpc, c, from, to, block);
      var r := ScanBlock(rpc, block, previousHash, previous, c);
      if r.None? { return None; }
      if Truthful(rpc, c) {
        OnTrackStep(c, from, block, previousHash, previous, observations, r.value);
      }
      observations := observations + r.value.due;
      previousHash, previous := r.value.hash, r.value.last;
      block := block + 1;
    }
    r := Some(RewardScan(from, to, source, observations, previous));
  }

  lemma {:induction false} AnswersBoth(rpc: Rpc, c: Chain, from: int, to: int, block: int)
    requires from <= block <= to
    ensures Scannable(rpc, c, from, to) ==> Answers(rpc, c, block - 1) && Answers(rpc, c, block)
  {
    hide Answers;
  }

  /** Where a scan from `from` stands after block b. */
  ghost predicate OnTrack(c: Chain, from: int, b: int, hash: string, last: int, observations: seq<Observation>) {
    hash == c.hash(b) && LastAuthored(c, b) == Some(last) && observations == Due(c, from, b)
  }

  ghost predicate Saw(c: Chain, b: int, seen: Seen) {
    seen.hash == c.hash(b) && LastAuthored(c, b) == Some(seen.last) && seen.due == DueAt(c, b)
  }

  lemma {:induction false} OnTrackStep(c: Chain, from: int, b: int, hash: string, last: int,
                                       observations: seq<Observation>, seen: Seen)
    requires from <= b && OnTrack(c, from, b - 1, hash, last, observations) && Saw(c, b, seen)
    ensures OnTrack(c, from, b, seen.hash, seen.last, observations + seen.due)
  {
  }

  /** One iteration: the hash of the block, the newest authored block, and its observation if it is due. */
  method ScanBlock(rpc: Rpc, block: int, parent: string, seenLast: int, ghost c: Chain)
    returns (r: Option<Seen>)
    requires block > 0
    ensures Answers(rpc, c, block) && Answers(rpc, c, block - 1) && parent == c.hash(block - 1) ==> r.Some?
    ensures r.Some? && Answers(rpc, c, block) ==> r.value.hash == c.hash(block)
    ensures r.Some? && Truthful(rpc, c) && parent == c.hash(block - 1) ==>
              (LastAuthored(c, block - 1) == Some(seenLast) ==> Saw(c, block, r.value))
  {
    LastAuthoredIsNewest(c, block - 1);
    var hash := rpc.blockHash(block);
    if hash.None? || hash.value == "" { return None; }
    var last := LastAuthoredAt(rpc, hash.value);
    if last.None? { return None; }
    if last.value == block && last.value != seenLast {
      var observation := ObserveReward(rpc, block, hash.value, parent, c);
      if observation.None? { return None; }
      return Some(Seen(hash.value, last.value, [observation.value]));
    }
    r := Some(Seen(hash.value, last.value, []));
  }

  /** Two exact scans of adjacent ranges are one exact scan of the union. */
  lemma {:induction false} ScansConcatenate(c: Chain, source: string, mid: int, a: RewardScan, b: RewardScan)
    requires a.from <= mid < b.to
    requires Exact(c, source, a.from, mid, a) && Exact(c, source, mid + 1, b.to, b)
    ensures Exact(c, source, a.from, b.to,
                  RewardScan(a.from, b.to, source, a.observations + b.observations, b.lastAuthored))
  {
    DueConcatenates(c, a.from, mid, b.to);
  }

  // ---------- The controller's check ----------

  predicate ValidObservation(o: Observation, from: int, to: int) {
    from <= o.block <= to && o.hash != "" && o.sources == 1 && o.verification != Unknown
  }

  predicate ValidEnvelope(scan: RewardScan, from: int, to: int) {
    scan.source == "local" && scan.from == from && scan.to == to
  }

  ghost predicate DistinctBlocks(s: seq<Observation>) {
    forall i, j :: 0 <= i < j < |s| ==> s[i].block != s[j].block
  }

  ghost predicate ValidLocal(scan: RewardScan, from: int, to: int) {
    && ValidEnvelope(scan, from, to)
    && (forall i :: 0 <= i < |scan.observations| ==> ValidObservation(scan.observations[i], from, to))
    && DistinctBlocks(scan.observations)
  }

  /** A local scan is valid if it is that of the range that was asked for, and no two of its observations, each judged,
      with a hash and one source, are of the same block or of one outside the range. */
  lemma {:induction false} ValidLocalIff(scan: RewardScan, from: int, to: int)
    ensures ValidLocal(scan, from, to) <==>
            && (scan.source, scan.from, scan.to) == ("local", from, to)
            && (forall o :: o in scan.observations ==>
                  !(o.block < from || o.block > to || o.hash == "" || o.sources != 1 || o.verification == Unknown))
            && forall i, j :: 0 <= i < |scan.observations| && 0 <= j < |scan.observations| && i != j ==>
                 scan.observations[i].block != scan.observations[j].block
  {
    assert forall i :: 0 <= i < |scan.observations| ==> scan.observations[i] in scan.observations;
  }

  method ValidateLocalRewardScan(scan: RewardScan, from: int, to: int) returns (ok: bool)
    ensures ok <==> ValidLocal(scan, from, to)
  {
    if scan.source != "local" || scan.from != from || scan.to != to { return false; }
    var seen: set<int> := {};
    var n := 0;
    while n < |scan.observations|
      invariant 0 <= n <= |scan.observations|
      invariant forall i :: 0 <= i < n ==> ValidObservation(scan.observations[i], from, to)
      invariant DistinctBlocks(scan.observations[..n])
      invariant seen == set i | 0 <= i < n :: scan.observations[i].block
    {
      var o := scan.observations[n];
      if o.block < from || o.block > to || o.hash == "" || o.sources != 1 { return false; }
      match o.verification {
        case Unknown => return false;
        case _ =>
      }
      if o.block in seen { return false; }
      seen := seen + {o.block};
      n := n + 1;
    }
    assert scan.observations[..n] == scan.observations;
    ok := true;
  }

  /** What an exact local scan returns passes the controller's check. */
  lemma {:induction false} ExactScanIsValid(c: Chain, from: int, to: int, scan: RewardScan)
    requires WellFormed(c) && Exact(c, "local", from, to, scan)
    ensures ValidLocal(scan, from, to)
  {
    DueIsExact(c, from, to);
    forall i | 0 <= i < |scan.observations| ensures ValidObservation(scan.observations[i], from, to) {
      assert scan.observations[i] == Truth(c, scan.observations[i].block);
    }
  }
}
