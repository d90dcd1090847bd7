/** The byte formats read from the chain (internal/reward/reward.go): base58 text, little-endian integers,
compact lengths and vectors of accounts. */
module Codec {
  import opened Base

  type byte = x: int | 0 <= x < 256

  const ALPHABET := "123456789" + "ABCDEFGH" + "JKLMN" + "PQRSTUVWXYZ" + "abcdefghijk" + "mnopqrstuvwxyz"

  // ---------- Positional notation ----------

  predicate DigitsBelow(base: int, digits: seq<int>) {
    forall i :: 0 <= i < |digits| ==> 0 <= digits[i] < base
  }

  /** The number a sequence of digits denotes, most significant digit first. */
  function Value(base: int, digits: seq<int>): int {
    if digits == [] then 0 else Value(base, digits[..|digits| - 1]) * base + digits[|digits| - 1]
  }

  /** The shortest digits of a number; zero has none. */
  function Digits(base: int, n: int): (r: seq<int>)
    requires base >= 2 && n >= 0
    ensures DigitsBelow(base, r)
    decreases n
  {
    if n == 0 then [] else Smaller(base, n); Digits(base, n / base) + [n % base]
  }

  lemma {:induction false} Smaller(base: int, n: int)
    requires base >= 2 && n > 0
    ensures 0 <= n / base < n
  {
  }

  function LeadingZeros(digits: seq<int>): (n: nat)
    ensures n <= |digits| && (forall i :: 0 <= i < n ==> digits[i] == 0)
    ensures n < |digits| ==> digits[n] != 0
  {
    if digits == [] || digits[0] != 0 then 0 else 1 + LeadingZeros(digits[1..])
  }

  function Zeros(n: nat): seq<int> {
    seq(n, _ => 0)
  }

  lemma {:induction false} QuotientAndRemainder(base: int, n: int)
    requires base >= 2 && n >= 0
    ensures n / base * base + n % base == n
  {
  }

  lemma {:induction false} ValueOfDigits(base: int, n: int)
    requires base >= 2 && n >= 0
    ensures Value(base, Digits(base, n)) == n
    ensures n > 0 ==> Digits(base, n)[0] != 0
    decreases n
  {
    if n > 0 {
      Smaller(base, n);
      ValueOfDigits(base, n / base);
      var front := Digits(base, n / base);
      assert Digits(base, n) == front + [n % base];
      assert (front + [n % base])[..|front|] == front;
      QuotientAndRemainder(base, n);
      if front != [] {
        assert (front + [n % base])[0] == front[0];
      } else {
        assert n / base == 0;
      }
    }
  }

  lemma {:induction false} DivideOut(base: int, high: int, low: int)
    requires base >= 2 && high >= 0 && 0 <= low < base
    ensures high * base + low >= 0
    ensures (high * base + low) / base == high && (high * base + low) % base == low
  {
    assert high * base >= 0;
    var n := high * base + low;
    var d := high - n / base;
    assert n == n / base * base + n % base;
    assert d * base == n % base - low;
    assert d >= 1 ==> (d - 1) * base >= 0;
    assert d <= -1 ==> (-1 - d) * base >= 0;
  }

  lemma {:induction false} ValueNonNegative(base: int, digits: seq<int>)
    requires base >= 2 && DigitsBelow(base, digits)
    ensures Value(base, digits) >= 0
    ensures digits != [] && digits[0] != 0 ==> Value(base, digits) > 0
  {
    if digits != [] {
      ValueNonNegative(base, digits[..|digits| - 1]);
    }
  }

  lemma {:induction false} DigitsOfValue(base: int, digits: seq<int>)
    requires base >= 2 && DigitsBelow(base, digits) && (digits != [] ==> digits[0] != 0)
    ensures Value(base, digits) >= 0 && Digits(base, Value(base, digits)) == digits
  {
    ValueNonNegative(base, digits);
    if digits != [] {
      var front := digits[..|digits| - 1];
      ValueNonNegative(base, front);
      DigitsOfValue(base, front);
      DivideOut(base, Value(base, front), digits[|digits| - 1]);
      assert digits == front + [digits[|digits| - 1]];
    }
  }

  lemma {:induction false} ZerosAddNothing(base: int, n: nat, digits: seq<int>)
    ensures Value(base, Zeros(n) + digits) == Value(base, digits)
  {
    if digits == [] {
      assert Zeros(n) + digits == Zeros(n);
      if n > 0 {
        assert Zeros(n)[..n - 1] == Zeros(n - 1) + [];
        ZerosAddNothing(base, n - 1, []);
      }
    } else {
      var all := Zeros(n) + digits;
      assert all[..|all| - 1] == Zeros(n) + digits[..|digits| - 1];
      ZerosAddNothing(base, n, digits[..|digits| - 1]);
    }
  }

  /** A text of digits is its leading zeros followed by the shortest digits of its value. */
  lemma {:induction false} Canonical(base: int, digits: seq<int>)
    requires base >= 2 && DigitsBelow(base, digits)
    ensures Value(base, digits) >= 0
    ensures digits == Zeros(LeadingZeros(digits)) + Digits(base, Value(base, digits))
  {
    var n := LeadingZeros(digits);
    assert digits == Zeros(n) + digits[n..];
    ZerosAddNothing(base, n, digits[n..]);
    DigitsOfValue(base, digits[n..]);
  }

  /** Leading zeros in front of shortest digits can be told apart again. */
  lemma {:induction false} ZerosAreLeading(base: int, n: nat, value: int)
    requires base >= 2 && value >= 0
    ensures LeadingZeros(Zeros(n) + Digits(base, value)) == n
    ensures Value(base, Zeros(n) + Digits(base, value)) == value
  {
    ValueOfDigits(base, value);
    ZerosAddNothing(base, n, Digits(base, value));
    CountZeros(n, Digits(base, value));
  }

  lemma {:induction false} CountZeros(n: nat, digits: seq<int>)
    requires digits != [] ==> digits[0] != 0
    ensures LeadingZeros(Zeros(n) + digits) == n
  {
    if n > 0 {
      assert (Zeros(n) + digits)[1..] == Zeros(n - 1) + digits;
      CountZeros(n - 1, digits);
    } else {
      assert Zeros(0) + digits == digits;
    }
  }

  /** Rewriting the value of a text in another base and back, zeros kept, changes nothing. */
  lemma {:induction false} RebaseTwice(a: int, b: int, digits: seq<int>)
    requires a >= 2 && b >= 2 && DigitsBelow(a, digits)
    ensures Value(a, digits) >= 0
    ensures var there := Zeros(LeadingZeros(digits)) + Digits(b, Value(a, digits));
            && DigitsBelow(b, there)
            && Value(b, there) >= 0
            && Zeros(LeadingZeros(there)) + Digits(a, Value(b, there)) == digits
  {
    Canonical(a, digits);
    ZerosAreLeading(b, LeadingZeros(digits), Value(a, digits));
  }

  // ---------- Base58 ----------

  /** The place of a character in the alphabet: no 0, O, I or l. */
  function DigitOf(c: char): Option<int> {
    if '1' <= c <= '9' then Some(c as int - '1' as int)
    else if 'A' <= c <= 'H' then Some(c as int - 'A' as int + 9)
    else if 'J' <= c <= 'N' then Some(c as int - 'J' as int + 17)
    else if 'P' <= c <= 'Z' then Some(c as int - 'P' as int + 22)
    else if 'a' <= c <= 'k' then Some(c as int - 'a' as int + 33)
    else if 'm' <= c <= 'z' then Some(c as int - 'm' as int + 44)
    else None
  }

  function CharOf(d: int): (c: char)
    requires 0 <= d < 58
    ensures DigitOf(c) == Some(d)
  {
    if d < 9 then ('1' as int + d) as char
    else if d < 17 then ('A' as int + d - 9) as char
    else if d < 22 then ('J' as int + d - 17) as char
    else if d < 33 then ('P' as int + d - 22) as char
    else if d < 44 then ('a' as int + d - 33) as char
    else ('m' as int + d - 44) as char
  }

  predicate Base58(text: string) {
    forall i :: 0 <= i < |text| ==> DigitOf(text[i]).Some?
  }

  function DigitsOf(text: string): (r: seq<int>)
    requires Base58(text)
    ensures |r| == |text| && DigitsBelow(58, r)
  {
    seq(|text|, i requires 0 <= i < |text| => DigitOf(text[i]).value)
  }

  function TextOf(digits: seq<int>): (r: string)
    requires DigitsBelow(58, digits)
    ensures Base58(r) && DigitsOf(r) == digits
  {
    seq(|digits|, i requires 0 <= i < |digits| => CharOf(digits[i]))
  }

  lemma {:induction false} SameDigits(a: string, b: string)
    requires Base58(a) && Base58(b) && DigitsOf(a) == DigitsOf(b)
    ensures a == b
  {
    forall i | 0 <= i < |a| ensures a[i] == b[i] {
      assert DigitsOf(a)[i] == DigitsOf(b)[i];
    }
  }

  /** Encoding as a specification: one '1' for each leading zero byte, then the value in base 58. */
  function EncodeBase58(bytes: seq<byte>): string {
    Canonical(256, bytes);
    TextOf(Zeros(LeadingZeros(bytes)) + Digits(58, Value(256, bytes)))
  }

  function DecodedBase58(text: string): Option<seq<byte>> {
    if !Base58(text) then None
    else
      Canonical(58, DigitsOf(text));
      Some(Zeros(LeadingZeros(DigitsOf(text))) + Digits(256, Value(58, DigitsOf(text))))
  }

  /** Decoding inverts encoding, for all byte strings. */
  lemma {:induction false} DecodeInvertsEncode(bytes: seq<byte>)
    ensures DecodedBase58(EncodeBase58(bytes)) == Some(bytes)
  {
    RebaseTwice(256, 58, bytes);
  }

  /** Encoding inverts decoding, for all valid texts; so no two texts decode to the same bytes. */
  lemma {:induction false} EncodeInvertsDecode(text: string)
    requires Base58(text)
    ensures DecodedBase58(text).Some? && EncodeBase58(DecodedBase58(text).value) == text
  {
    RebaseTwice(58, 256, DigitsOf(text));
    SameDigits(EncodeBase58(DecodedBase58(text).value), text);
  }

  lemma {:induction false} DecodeIsInjective(a: string, b: string)
    requires DecodedBase58(a).Some? && DecodedBase58(a) == DecodedBase58(b)
    ensures a == b
  {
    EncodeInvertsDecode(a);
    EncodeInvertsDecode(b);
  }

  predicate Consecutive(piece: string, first: char) {
    forall i :: 0 <= i < |piece| ==> piece[i] as int == first as int + i
  }

  lemma {:induction false} Pieces()
    ensures Consecutive("123456789", '1') && Consecutive("ABCDEFGH", 'A') && Consecutive("JKLMN", 'J')
    ensures Consecutive("PQRSTUVWXYZ", 'P') && Consecutive("abcdefghijk", 'a') && Consecutive("mnopqrstuvwxyz", 'm')
  {
  }

  lemma {:induction false} AlphabetIsOrdered(i: nat)
    requires i < 58
    ensures |ALPHABET| == 58 && ALPHABET[i] == CharOf(i)
  {
    Pieces();
  }

  lemma {:induction false} AlphabetLength()
    ensures |ALPHABET| == 58
  {
  }

  /** The index of the first occurrence, or -1. */
  method IndexByte(alphabet: string, c: char) returns (i: int)
    ensures i < 0 ==> c !in alphabet
    ensures i >= 0 ==> i < |alphabet| && alphabet[i] == c && c !in alphabet[..i]
  {
    i := 0;
    while i < |alphabet|
      invariant 0 <= i <= |alphabet| && c !in alphabet[..i]
    {
      if alphabet[i] == c { return; }
      i := i + 1;
    }
    i := -1;
  }

  lemma {:induction false} DigitIsChar(c: char)
    requires DigitOf(c).Some?
    ensures 0 <= DigitOf(c).value < 58 && c == CharOf(DigitOf(c).value)
  {
  }

  lemma {:induction false} DigitIsListed(c: char)
    ensures DigitOf(c).Some? ==> c in ALPHABET
  {
    if DigitOf(c).Some? {
      DigitIsChar(c);
      AlphabetIsOrdered(DigitOf(c).value);
      assert ALPHABET[DigitOf(c).value] == c;
    }
  }

  lemma {:induction false} IndexIsDigit(c: char, i: int)
    requires i < 0 ==> c !in ALPHABET
    requires i >= 0 ==> i < |ALPHABET| && ALPHABET[i] == c
    ensures i < 0 ==> DigitOf(c) == None
    ensures i >= 0 ==> DigitOf(c) == Some(i)
  {
    hide DigitOf, CharOf;
    AlphabetLength();
    if i >= 0 {
      AlphabetIsOrdered(i);
    } else {
      DigitIsListed(c);
    }
  }

  lemma {:induction false} OneMoreDigit(text: string, i: nat, d: int)
    requires i < |text| && Base58(text[..i]) && DigitOf(text[i]) == Some(d)
    ensures Base58(text[..i + 1])
    ensures Value(58, DigitsOf(text[..i + 1])) == Value(58, DigitsOf(text[..i])) * 58 + d >= 0
  {
    var digits := DigitsOf(text[..i + 1]);
    assert digits[..i] == DigitsOf(text[..i]);
    ValueNonNegative(58, digits);
  }

  lemma {:induction false} OneMoreZero(n: nat, digits: seq<int>)
    ensures [0] + (Zeros(n) + digits) == Zeros(n + 1) + digits
    ensures Zeros(0) + digits == digits
  {
  }

  lemma {:induction false} NoDigits()
    ensures Base58("") && Value(58, DigitsOf("")) == 0
  {
  }

  lemma {:induction false} OnesAreZeros(text: string, n: nat)
    requires Base58(text) && n <= LeadingZeros(DigitsOf(text))
    ensures n < |text| ==> (text[n] == '1' <==> n < LeadingZeros(DigitsOf(text)))
  {
    if n < |text| {
      assert DigitsOf(text)[n] == 0 <==> text[n] == '1';
    }
  }

  method DecodeBase58(value: string) returns (r: Option<seq<byte>>)
    ensures r == DecodedBase58(value)
  {
    NoDigits();
    hide DigitOf, CharOf, Value, DigitsOf, Digits, LeadingZeros, Zeros;
    var n := 0;
    var i := 0;
    while i < |value|
      invariant 0 <= i <= |value| && Base58(value[..i])
      invariant n == Value(58, DigitsOf(value[..i])) >= 0
    {
      var idx := IndexByte(ALPHABET, value[i]);
      IndexIsDigit(value[i], idx);
      if idx < 0 { return None; }
      OneMoreDigit(value, i, idx);
      n := n * 58 + idx;
      i := i + 1;
    }
    assert value[..i] == value;
    ghost var ones := LeadingZeros(DigitsOf(value));
    var out: seq<byte> := Digits(256, n);
    OneMoreZero(0, out);
    i := 0;
    while i < |value| && value[i] == '1'
      invariant 0 <= i <= ones
      invariant out == Zeros(i) + Digits(256, n)
      decreases |value| - i
    {
      OnesAreZeros(value, i);
      OneMoreZero(i, Digits(256, n));
      out := [0] + out;
      i := i + 1;
    }
    OnesAreZeros(value, i);
    return Some(out);
  }
}
