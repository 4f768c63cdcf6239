/** The few Python string operations the run detector is built from:
    `str()` of an int, `s * n`, `''.join(...)` and the substring test `needle in hay`. */
module Text {

  /** The decimal digit character for `d`. */
  function DigitChar(d: int): (ch: char)
    requires 0 <= d <= 9
    ensures '0' <= ch <= '9'
    ensures ch as int - '0' as int == d
  {
    (48 + d) as char
  }

  predicate IsNumeral(ch: char) {
    ch == '-' || '0' <= ch <= '9'
  }

  /** Decimal representation of a natural number, most significant digit first. */
  function NatToString(n: nat): (s: string)
    ensures 1 <= |s|
    ensures n < 10 <==> |s| == 1
    ensures forall k :: 0 <= k < |s| ==> '0' <= s[k] <= '9'
    decreases n
  {
    if n < 10 then [DigitChar(n)] else NatToString(n / 10) + [DigitChar(n % 10)]
  }

  /** Python's `str(n)` for an int: a single character exactly for 0..9, and
      nothing but digits and a minus sign. */
  function IntToString(n: int): (s: string)
    ensures 1 <= |s|
    ensures forall k :: 0 <= k < |s| ==> IsNumeral(s[k])
    ensures |s| == 1 <==> 0 <= n <= 9
    ensures 0 <= n <= 9 ==> s == [DigitChar(n)]
  {
    if n < 0 then "-" + NatToString(-n) else NatToString(n)
  }

  /** Python's `s * n`; a negative count is clamped to 0 by the callers. */
  function Repeat(s: string, n: nat): (r: string)
    ensures n > 0 ==> |s| <= |r| && r[..|s|] == s
  {
    if n == 0 then "" else s + Repeat(s, n - 1)
  }

  lemma RepeatFour(s: string)
    ensures Repeat(s, 4) == s + s + s + s
  {
    assert Repeat(s, 0) == "";
    assert Repeat(s, 1) == s;
    assert Repeat(s, 2) == s + s;
    assert Repeat(s, 3) == s + s + s;
  }

  /** `''.join(str(x) for x in line)`: the text numpy's `astype(str)` gives a line of cells. */
  function ToStr(line: seq<int>): string
  {
    if line == [] then "" else IntToString(line[0]) + ToStr(line[1..])
  }

  /** The text of a line holds only digits and minus signs. */
  lemma {:induction false} ToStrNumerals(line: seq<int>)
    ensures forall k :: 0 <= k < |ToStr(line)| ==> IsNumeral(ToStr(line)[k])
  {
    if line != [] {
      ToStrNumerals(line[1..]);
      var head := IntToString(line[0]);
      var s := ToStr(line);
      assert s == head + ToStr(line[1..]);
      assert forall k :: 0 <= k < |s| ==> s[k] == if k < |head| then head[k] else ToStr(line[1..])[k - |head|];
    }
  }

  /** For a line of single-digit cells the text has one character per cell. */
  lemma {:induction false} ToStrDigits(line: seq<int>)
    requires forall k :: 0 <= k < |line| ==> 0 <= line[k] <= 9
    ensures |ToStr(line)| == |line|
    ensures forall k :: 0 <= k < |line| ==> ToStr(line)[k] == DigitChar(line[k])
  {
    if line != [] {
      ToStrDigits(line[1..]);
      assert ToStr(line) == [DigitChar(line[0])] + ToStr(line[1..]);
    }
  }

  predicate OccursAt(hay: string, needle: string, i: int) {
    0 <= i && i + |needle| <= |hay| && hay[i..i + |needle|] == needle
  }

  /** Python's `needle in hay` for strings. */
  predicate Contains(hay: string, needle: string) {
    exists i :: 0 <= i <= |hay| - |needle| && OccursAt(hay, needle, i)
  }

  /** A character of the needle that never occurs in the haystack rules out every match. */
  lemma AbsentCharBlocksMatch(hay: string, needle: string, j: int)
    requires 0 <= j < |needle|
    requires forall k :: 0 <= k < |hay| ==> hay[k] != needle[j]
    ensures !Contains(hay, needle)
  {
    forall i | 0 <= i <= |hay| - |needle|
      ensures !OccursAt(hay, needle, i)
    {
      assert hay[i..i + |needle|][j] == hay[i + j];
    }
  }
}
