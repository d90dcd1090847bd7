/** Text handling shared by the components: trimming, lower case and the length in bytes. */
module Text {
  import opened Base

  /** White space as Unicode defines it. */
  predicate IsSpace(c: char) {
    var n := c as int;
    || 9 <= n <= 13 || n == 32 || n == 0x85 || n == 0xA0 || n == 0x1680 || 0x2000 <= n <= 0x200A
    || n == 0x2028 || n == 0x2029 || n == 0x202F || n == 0x205F || n == 0x3000
  }

  function TrimLeft(s: string): string {
    if s != "" && IsSpace(s[0]) then TrimLeft(s[1..]) else s
  }

  function TrimRight(s: string): string {
    if s != "" && IsSpace(s[|s| - 1]) then TrimRight(s[..|s| - 1]) else s
  }

  function Trim(s: string): string {
    TrimRight(TrimLeft(s))
  }

  /** Every character in lower case, by a given table. */
  function Lower(s: string, table: char -> char): (r: string)
    ensures |r| == |s|
  {
    seq(|s|, i requires 0 <= i < |s| => table(s[i]))
  }

  /** The length of a text in UTF-8. */
  function ByteLength(s: string): (n: nat)
    ensures |s| <= n <= 4 * |s|
  {
    if s == "" then 0
    else
      var c := s[|s| - 1] as int;
      ByteLength(s[..|s| - 1]) + (if c < 0x80 then 1 else if c < 0x800 then 2 else if c < 0x1_0000 then 3 else 4)
  }

  lemma {:induction false} TrimLeftTwice(s: string)
    ensures TrimLeft(TrimLeft(s)) == TrimLeft(s)
    ensures TrimLeft(s) != "" ==> !IsSpace(TrimLeft(s)[0])
  {
    if s != "" && IsSpace(s[0]) {
      TrimLeftTwice(s[1..]);
    }
  }

  lemma {:induction false} TrimRightKeeps(s: string)
    ensures TrimRight(s) <= s
    ensures TrimRight(TrimRight(s)) == TrimRight(s)
    ensures s != "" && !IsSpace(s[0]) ==> TrimRight(s) != "" && TrimRight(s)[0] == s[0]
  {
    if s != "" && IsSpace(s[|s| - 1]) {
      TrimRightKeeps(s[..|s| - 1]);
    }
  }

  /** The white space of Unicode, character by character. */
  const SPACES := "\t\n\U{00000B}\U{00000C}\r \U{000085}\U{0000A0}\U{001680}\U{002000}\U{002001}\U{002002}\U{002003}"
    + "\U{002004}\U{002005}\U{002006}\U{002007}\U{002008}\U{002009}\U{00200A}\U{002028}\U{002029}\U{00202F}\U{00205F}"
    + "\U{003000}"

  lemma {:induction false} SpaceTable(c: char)
    ensures IsSpace(c) <==> c in SPACES
  {
    assert |SPACES| == 25;
    if IsSpace(c) {
      var n := c as int;
      var i := if n <= 13 then n - 9 else if n == 32 then 5 else if n == 0x85 then 6 else if n == 0xA0 then 7
               else if n == 0x1680 then 8 else if n <= 0x200A then n - 0x2000 + 9 else if n == 0x2028 then 20
               else if n == 0x2029 then 21 else if n == 0x202F then 22 else if n == 0x205F then 23 else 24;
      assert SPACES[i] == c;
    }
  }

  ghost predicate Blank(s: string) {
    forall i :: 0 <= i < |s| ==> IsSpace(s[i])
  }

  lemma {:induction false} TrimLeftMeans(s: string) returns (n: nat)
    ensures n <= |s| && TrimLeft(s) == s[n..] && Blank(s[..n]) && (n < |s| ==> !IsSpace(s[n]))
  {
    n := 0;
    if s != "" && IsSpace(s[0]) {
      var m := TrimLeftMeans(s[1..]);
      n := m + 1;
      assert s[..n] == [s[0]] + s[1..][..m];
    }
  }

  lemma {:induction false} TrimRightMeans(s: string) returns (n: nat)
    ensures n <= |s| && TrimRight(s) == s[..n] && Blank(s[n..]) && (n > 0 ==> !IsSpace(s[n - 1]))
  {
    n := |s|;
    if s != "" && IsSpace(s[|s| - 1]) {
      n := TrimRightMeans(s[..|s| - 1]);
      assert s[n..] == s[..|s| - 1][n..] + [s[|s| - 1]];
    }
  }

  /** Trimming cuts off the white space at both ends, and no more. */
  lemma {:induction false} TrimMeans(s: string) returns (i: nat, j: nat)
    ensures i <= j <= |s| && Trim(s) == s[i..j] && Blank(s[..i]) && Blank(s[j..])
    ensures i < j ==> !IsSpace(s[i]) && !IsSpace(s[j - 1])
  {
    i := TrimLeftMeans(s);
    var n := TrimRightMeans(s[i..]);
    j := i + n;
    assert s[i..][..n] == s[i..j] && s[i..][n..] == s[j..];
  }

  /** Texts of one character take one to four bytes, by their code point, and joined texts the sum of their bytes. */
  lemma {:induction false} ByteLengthOf(a: string, c: char)
    ensures ByteLength("") == 0
    ensures ByteLength(a + [c]) == ByteLength(a) +
              if c <= '\U{00007F}' then 1 else if c <= '\U{0007FF}' then 2 else if c <= '\U{00FFFF}' then 3 else 4
  {
    assert (a + [c])[..|a|] == a;
  }

  lemma {:induction false} TrimTwice(s: string)
    ensures Trim(Trim(s)) == Trim(s)
  {
    TrimLeftTwice(s);
    TrimRightKeeps(TrimLeft(s));
    var t := Trim(s);
    assert TrimLeft(t) == t;
  }
}
