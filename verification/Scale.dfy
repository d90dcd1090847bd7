/** The binary formats of chain storage (internal/reward/reward.go): little-endian integers, compact lengths,
account records and vectors of accounts. */
module Scale {
  import opened Base
  import opened Codec

  // ---------- Little-endian integers ----------

  /** The number a byte string denotes, least significant byte first. */
  function Little(raw: seq<byte>): (n: int)
    ensures n >= 0
  {
    if raw == [] then 0 else raw[0] + 256 * Little(raw[1..])
  }

  function Pow256(n: nat): (p: int)
    ensures p >= 1
  {
    if n == 0 then 1 else 256 * Pow256(n - 1)
  }

  /** The bytes of n in a field of the given width. */
  function ToLittle(n: int, width: nat): (r: seq<byte>)
    requires n >= 0
    ensures |r| == width
  {
    if width == 0 then [] else [n % 256] + ToLittle(n / 256, width - 1)
  }

  function Reversed(raw: seq<byte>): (r: seq<byte>)
    ensures |r| == |raw|
  {
    seq(|raw|, i requires 0 <= i < |raw| => raw[|raw| - 1 - i])
  }

  lemma {:induction false} LittleIsBigReversed(raw: seq<byte>)
    ensures Value(256, Reversed(raw)) == Little(raw)
  {
    if raw != [] {
      var r := Reversed(raw);
      assert r[..|r| - 1] == Reversed(raw[1..]);
      LittleIsBigReversed(raw[1..]);
    }
  }

  lemma {:induction false} LittleOfField(n: int, width: nat)
    requires 0 <= n < Pow256(width)
    ensures Little(ToLittle(n, width)) == n
  {
    if width > 0 {
      LittleOfField(n / 256, width - 1);
      assert ToLittle(n, width)[1..] == ToLittle(n / 256, width - 1);
    }
  }

  lemma {:induction false} SplitByte(low: byte, high: int)
    ensures (low + 256 * high) % 256 == low && (low + 256 * high) / 256 == high
  {
  }

  lemma {:induction false} FieldOfLittle(raw: seq<byte>)
    ensures Little(raw) < Pow256(|raw|) && ToLittle(Little(raw), |raw|) == raw
  {
    if raw != [] {
      FieldOfLittle(raw[1..]);
      SplitByte(raw[0], Little(raw[1..]));
      assert raw == [raw[0]] + raw[1..];
    }
  }

  /** The balance fields of an account record: a reversal in place, then a big-endian read. */
  method LittleInt(raw: seq<byte>) returns (n: int)
    ensures n == Little(raw)
  {
    var copied := new byte[|raw|](i requires 0 <= i < |raw| => raw[i]);
    var i, j := 0, |raw| - 1;
    while i < j
      invariant 0 <= i && i + j == |raw| - 1 && j >= -1
      invariant forall k :: i <= k <= j ==> copied[k] == raw[k]
      invariant forall k :: 0 <= k < i ==> copied[k] == raw[|raw| - 1 - k]
      invariant forall k :: j < k < |raw| ==> copied[k] == raw[|raw| - 1 - k]
    {
      copied[i], copied[j] := copied[j], copied[i];
      i, j := i + 1, j - 1;
    }
    assert copied[..] == Reversed(raw);
    LittleIsBigReversed(raw);
    n := Value(256, copied[..]);
  }

  const TWO_63: int := 0x8000_0000_0000_0000

  function Int64(n: int): int {
    if n >= TWO_63 then n - 2 * TWO_63 else n
  }

  /** A block number: four bytes, or eight read as a signed 64-bit integer. */
  function DecodeBlockNumber(raw: seq<byte>): Option<int> {
    if |raw| == 4 then Some(Little(raw))
    else if |raw| == 8 then Some(Int64(Little(raw)))
    else None
  }

  function AsUnsigned(n: int): int {
    if n < 0 then n + 2 * TWO_63 else n
  }

  /** Both widths round-trip: 32-bit numbers, and the whole signed 64-bit range. */
  lemma {:induction false} BlockNumberRoundTrips(n: int)
    ensures 0 <= n < 0x1_0000_0000 ==> DecodeBlockNumber(ToLittle(n, 4)) == Some(n)
    ensures -TWO_63 <= n < TWO_63 ==> DecodeBlockNumber(ToLittle(AsUnsigned(n), 8)) == Some(n)
  {
    assert Pow256(4) == 0x1_0000_0000;
    assert Pow256(8) == Pow256(4) * 0x1_0000_0000;
    if 0 <= n < 0x1_0000_0000 {
      LittleOfField(n, 4);
    }
    if -TWO_63 <= n < TWO_63 {
      LittleOfField(AsUnsigned(n), 8);
    }
  }

  const ACCOUNT_INFO_BYTES := 80

  datatype AccountInfo = AccountInfo(free: int, reserved: int, schemaOk: bool)

  function DecodedAccountInfo(raw: seq<byte>): Option<AccountInfo> {
    if |raw| < 48 then None
    else Some(AccountInfo(Little(raw[16..32]), Little(raw[32..48]), |raw| == ACCOUNT_INFO_BYTES))
  }

  method DecodeAccountInfo(raw: seq<byte>) returns (r: Option<AccountInfo>)
    ensures r == DecodedAccountInfo(raw)
  {
    if |raw| < 48 { return None; }
    var free := LittleInt(raw[16..32]);
    var reserved := LittleInt(raw[32..48]);
    r := Some(AccountInfo(free, reserved, |raw| == ACCOUNT_INFO_BYTES));
  }

  /** Records of fewer than 48 bytes are refused, and the layout is the expected one at 80. */
  lemma {:induction false} AccountInfoWidths(raw: seq<byte>)
    ensures DecodedAccountInfo(raw) == None <==> |raw| <= 47
    ensures |raw| >= 48 ==> (DecodedAccountInfo(raw).value.schemaOk <==> |raw| == 80)
  {
  }

  /** Every pair of 128-bit balances is read back from a record of the expected layout. */
  lemma {:induction false} AccountInfoRoundTrips(head: seq<byte>, free: int, reserved: int, tail: seq<byte>)
    requires |head| == 16 && |tail| == 32 && 0 <= free < Pow256(16) && 0 <= reserved < Pow256(16)
    ensures DecodedAccountInfo(head + ToLittle(free, 16) + ToLittle(reserved, 16) + tail) ==
            Some(AccountInfo(free, reserved, true))
  {
    var raw := head + ToLittle(free, 16) + ToLittle(reserved, 16) + tail;
    assert raw[16..32] == ToLittle(free, 16) && raw[32..48] == ToLittle(reserved, 16);
    LittleOfField(free, 16);
    LittleOfField(reserved, 16);
  }

  // ---------- Compact lengths ----------

  /** The length and the number of bytes it took. */
  function DecodeCompact(raw: seq<byte>): Option<(int, int)> {
    if raw == [] then None
    else
      match raw[0] % 4
      case 0 => Some((raw[0] / 4, 1))
      case 1 => if |raw| < 2 then None else Some((Little(raw[..2]) / 4, 2))
      case 2 => if |raw| < 4 then None else Some((Little(raw[..4]) / 4, 4))
      case _ => None
  }

  /** The three supported forms of a length; `mode` is stored in its two low bits. */
  datatype Mode = One | Two | Four

  function Width(m: Mode): nat {
    match m
    case One => 1
    case Two => 2
    case Four => 4
  }

  function Tag(m: Mode): int {
    match m
    case One => 0
    case Two => 1
    case Four => 2
  }

  predicate Fits(m: Mode, n: int) {
    match m
    case One => 0 <= n < 64
    case Two => 0 <= n < 0x4000
    case Four => 0 <= n < 0x4000_0000
  }

  function EncodeCompact(m: Mode, n: int): (r: seq<byte>)
    requires Fits(m, n)
    ensures |r| == Width(m)
  {
    ToLittle(4 * n + Tag(m), Width(m))
  }

  lemma {:induction false} Powers()
    ensures Pow256(1) == 0x100 && Pow256(2) == 0x1_0000 && Pow256(4) == 0x1_0000_0000
  {
  }

  lemma {:induction false} CompactRoundTrips(m: Mode, n: int, rest: seq<byte>)
    requires Fits(m, n)
    ensures DecodeCompact(EncodeCompact(m, n) + rest) == Some((n, Width(m)))
  {
    var header := EncodeCompact(m, n);
    var raw := header + rest;
    Powers();
    LittleOfField(4 * n + Tag(m), Width(m));
    assert raw[..Width(m)] == header;
    assert header[0] == (4 * n + Tag(m)) % 256;
    if m.One? {
      assert Little(header) == header[0] + 256 * Little(header[1..]) == header[0];
    }
  }

  lemma {:induction false} HeaderIsCompact(header: seq<byte>, m: Mode)
    requires |header| == Width(m) && header[0] % 4 == Tag(m)
    ensures Fits(m, Little(header) / 4) && header == EncodeCompact(m, Little(header) / 4)
  {
    Powers();
    FieldOfLittle(header);
    assert Little(header) == header[0] + 256 * Little(header[1..]);
    hide Pow256, ToLittle, Little;
  }

  /** Whatever is decoded was written in one of the three forms. */
  lemma {:induction false} CompactIsOneOfThree(raw: seq<byte>) returns (m: Mode)
    requires DecodeCompact(raw).Some?
    ensures var (n, offset) := DecodeCompact(raw).value;
            && Fits(m, n) && offset == Width(m) <= |raw|
            && raw[..offset] == EncodeCompact(m, n)
  {
    m := if raw[0] % 4 == 0 then One else if raw[0] % 4 == 1 then Two else Four;
    var header := raw[..Width(m)];
    HeaderIsCompact(header, m);
    if m.One? {
      assert header[1..] == [];
      assert Little(header) == header[0];
    }
    hide Fits, EncodeCompact, Little;
  }

  // ---------- Vectors of accounts ----------

  const MAX_ACCOUNTS := 1024

  type Account = s: seq<byte> | |s| == 32 witness seq(32, _ => 0)

  function Flatten(accounts: seq<Account>): (r: seq<byte>)
    ensures |r| == 32 * |accounts|
  {
    if accounts == [] then [] else Flatten(accounts[..|accounts| - 1]) + accounts[|accounts| - 1]
  }

  function EncodeVector(m: Mode, accounts: seq<Account>): seq<byte>
    requires Fits(m, |accounts|)
  {
    EncodeCompact(m, |accounts|) + Flatten(accounts)
  }

  lemma {:induction false} FlattenAt(accounts: seq<Account>, i: nat)
    requires i < |accounts|
    ensures Flatten(accounts)[32 * i..32 * (i + 1)] == accounts[i]
  {
    var n := |accounts| - 1;
    var front := Flatten(accounts[..n]);
    if i < n {
      FlattenAt(accounts[..n], i);
      assert Flatten(accounts)[32 * i..32 * (i + 1)] == front[32 * i..32 * (i + 1)];
    }
  }

  lemma {:induction false} FlattenInjective(a: seq<Account>, b: seq<Account>)
    requires Flatten(a) == Flatten(b)
    ensures a == b
  {
    forall i | 0 <= i < |a| ensures a[i] == b[i] {
      FlattenAt(a, i);
      FlattenAt(b, i);
    }
  }

  /** The bytes are exactly one vector of at most 1024 accounts, in one of the three forms. */
  ghost predicate Encodes(raw: seq<byte>, accounts: seq<Account>) {
    |accounts| <= MAX_ACCOUNTS && exists m :: Fits(m, |accounts|) && raw == EncodeVector(m, accounts)
  }

  /** Vectors of up to 1024 accounts have encodings that are decoded, longer ones none. */
  lemma {:induction false} VectorLimit(a: seq<Account>)
    ensures (exists raw :: Encodes(raw, a)) <==> |a| < 1025
  {
    if |a| < 1025 {
      assert Fits(Four, |a|);
      assert Encodes(EncodeVector(Four, a), a);
    }
  }

  method DecodeAccountVector(raw: seq<byte>) returns (r: Option<seq<Account>>)
    ensures r.Some? ==> Encodes(raw, r.value)
    ensures r.None? ==> forall v :: !Encodes(raw, v)
  {
    var compact := DecodeCompact(raw);
    if compact.None? || compact.value.0 > MAX_ACCOUNTS || compact.value.1 + compact.value.0 * 32 != |raw| {
      forall v ensures !Encodes(raw, v) {
        forall m | |v| <= MAX_ACCOUNTS && Fits(m, |v|) ensures raw != EncodeVector(m, v) {
          CompactRoundTrips(m, |v|, Flatten(v));
        }
      }
      return None;
    }
    var (count, offset) := compact.value;
    ghost var m := CompactIsOneOfThree(raw);
    var out: seq<Account> := [];
    var i := 0;
    while i < count
      invariant 0 <= i <= count == i + (count - i) && |out| == i
      invariant Flatten(out) == raw[offset..offset + i * 32]
    {
      var account: Account := raw[offset + i * 32..offset + (i + 1) * 32];
      assert (out + [account])[..i] == out;
      assert raw[offset..offset + (i + 1) * 32] == raw[offset..offset + i * 32] + account;
      out := out + [account];
      i := i + 1;
    }
    assert raw == raw[..offset] + raw[offset..];
    assert raw == EncodeVector(m, out);
    r := Some(out);
  }

  /** The encoding determines the vector, whichever form the length has. */
  lemma {:induction false} VectorDetermined(m: Mode, a: seq<Account>, k: Mode, b: seq<Account>)
    requires Fits(m, |a|) && Fits(k, |b|) && EncodeVector(m, a) == EncodeVector(k, b)
    ensures a == b && m == k
  {
    CompactRoundTrips(m, |a|, Flatten(a));
    CompactRoundTrips(k, |b|, Flatten(b));
    assert Flatten(a) == EncodeVector(m, a)[Width(m)..];
    assert Flatten(b) == EncodeVector(k, b)[Width(k)..];
    FlattenInjective(a, b);
  }

  /** Bytes after a vector are never accepted. */
  lemma {:induction false} NoTrailingBytes(m: Mode, a: seq<Account>, extra: seq<byte>, k: Mode, b: seq<Account>)
    requires Fits(m, |a|) && Fits(k, |b|) && extra != []
    ensures EncodeVector(m, a) + extra != EncodeVector(k, b)
  {
    hide DecodeCompact, EncodeCompact, Flatten, Fits;
    CompactRoundTrips(m, |a|, Flatten(a) + extra);
    CompactRoundTrips(k, |b|, Flatten(b));
    assert EncodeVector(m, a) + extra == EncodeCompact(m, |a|) + (Flatten(a) + extra);
  }

  /** What is decoded is determined by the bytes. */
  lemma {:induction false} EncodesOne(raw: seq<byte>, a: seq<Account>, b: seq<Account>)
    requires Encodes(raw, a) && Encodes(raw, b)
    ensures a == b
  {
    var m :| Fits(m, |a|) && raw == EncodeVector(m, a);
    var k :| Fits(k, |b|) && raw == EncodeVector(k, b);
    VectorDetermined(m, a, k, b);
  }

  /** A short vector is decoded from three different byte strings, although only one of them is canonical. */
  lemma {:induction false} NonCanonicalLengthsAccepted(a: seq<Account>)
    requires |a| < 64
    ensures Fits(One, |a|) && Fits(Two, |a|) && Fits(Four, |a|)
    ensures Encodes(EncodeVector(One, a), a) && Encodes(EncodeVector(Two, a), a) && Encodes(EncodeVector(Four, a), a)
    ensures |EncodeVector(One, a)| < |EncodeVector(Two, a)| < |EncodeVector(Four, a)|
    ensures forall m :: DecodeCompact(EncodeVector(m, a)) == Some((|a|, Width(m)))
  {
    forall m ensures DecodeCompact(EncodeVector(m, a)) == Some((|a|, Width(m))) {
      CompactRoundTrips(m, |a|, Flatten(a));
    }
    hide EncodeCompact, Flatten, DecodeCompact;
  }

  // ---------- Addresses ----------

  /** A 64-byte digest of a byte string; the hash function itself is not modelled. */
  type Digest = s: seq<byte> | |s| == 64 witness seq(64, _ => 0)

  const CHECKSUM_PREFIX: seq<byte> := [83, 83, 53, 56, 80, 82, 69]

  lemma {:induction false} ChecksumPrefixSpells()
    ensures |CHECKSUM_PREFIX| == |"SS58PRE"|
    ensures forall i :: 0 <= i < 7 ==> CHECKSUM_PREFIX[i] as char == "SS58PRE"[i]
  {
    var text := "SS58PRE";
    assert text[0] == 'S' && text[1] == 'S' && text[2] == '5' && text[3] == '8' && text[4] == 'P' && text[5] == 'R'
           && text[6] == 'E';
  }

  /** A prefix, an account and two checksum bytes. */
  function AddressBytes(hash: seq<byte> -> Digest, prefix: byte, account: Account): (r: seq<byte>)
    ensures |r| == 35 && r[0] == prefix && r[1..33] == account
    ensures r[33..] == hash(CHECKSUM_PREFIX + r[..33])[..2]
  {
    var payload: seq<byte> := [prefix] + account;
    var r := payload + hash(CHECKSUM_PREFIX + payload)[..2];
    assert r[..33] == payload;
    r
  }

  function AddressText(hash: seq<byte> -> Digest, prefix: byte, account: Account): string {
    EncodeBase58(AddressBytes(hash, prefix, account))
  }

  lemma {:induction false} OnlyAddressBytes(hash: seq<byte> -> Digest, bytes: seq<byte>)
    requires |bytes| == 35 && bytes[33..] == hash(CHECKSUM_PREFIX + bytes[..33])[..2]
    ensures AddressBytes(hash, bytes[0], bytes[1..33]) == bytes
  {
    assert bytes[..33] == [bytes[0]] + bytes[1..33];
    assert bytes == bytes[..33] + bytes[33..];
  }

  /** An address is accepted exactly when it is the text of an account under a one-byte prefix. */
  method DecodeAddress(hash: seq<byte> -> Digest, address: string) returns (r: Option<(Account, byte)>)
    ensures r.Some? ==> r.value.1 < 64 && address == AddressText(hash, r.value.1, r.value.0)
    ensures r.None? ==> forall p: byte, a: Account :: p < 64 ==> address != AddressText(hash, p, a)
  {
    var raw := DecodeBase58(address);
    forall p: byte, a: Account | address == AddressText(hash, p, a) ensures raw == Some(AddressBytes(hash, p, a)) {
      DecodeInvertsEncode(AddressBytes(hash, p, a));
    }
    hide DecodedBase58, EncodeBase58, AddressBytes;
    if raw.None? || |raw.value| != 35 { return None; }
    var bytes := raw.value;
    if bytes[0] >= 64 { return None; }
    if bytes[33..] != hash(CHECKSUM_PREFIX + bytes[..33])[..2] { return None; }
    EncodeInvertsDecode(address);
    OnlyAddressBytes(hash, bytes);
    r := Some((bytes[1..33], bytes[0]));
  }
}
