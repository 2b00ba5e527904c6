/**
 * The PHP string functions the property classes are built from, in the
 * "C" locale: explode/implode, str_replace, the trims, case mapping,
 * ucwords, substr, strstr, and the hexadecimal conversions. A string is a
 * sequence of characters; PHP's functions work on bytes, and the two agree
 * on single-byte text.
 */
module PhpStrings {

  /** `explode($sep, $s)`: the pieces between the non-overlapping occurrences of `sep`, left to right. */
  function Explode(sep: string, s: string): (parts: seq<string>)
    requires |sep| > 0
    ensures |parts| >= 1
    decreases |s|
  {
    if |s| < |sep| then [s]
    else if s[..|sep|] == sep then [""] + Explode(sep, s[|sep|..])
    else
      var rest := Explode(sep, s[1..]);
      [[s[0]] + rest[0]] + rest[1..]
  }

  /** `implode($sep, $parts)`: the parts joined, `sep` between each two. */
  function Implode(sep: string, parts: seq<string>): string
    decreases |parts|
  {
    if |parts| == 0 then ""
    else if |parts| == 1 then parts[0]
    else parts[0] + sep + Implode(sep, parts[1..])
  }

  lemma ImplodeConsHead(sep: string, c: char, parts: seq<string>)
    requires |parts| >= 1
    ensures Implode(sep, [[c] + parts[0]] + parts[1..]) == [c] + Implode(sep, parts)
  {
    var q := [[c] + parts[0]] + parts[1..];
    if |parts| > 1 {
      assert q[1..] == parts[1..];
    }
  }

  /** Joining the pieces of a split gives the string back, whatever the separator. */
  lemma {:induction false} ImplodeExplode(sep: string, s: string)
    requires |sep| > 0
    ensures Implode(sep, Explode(sep, s)) == s
    decreases |s|
  {
    if |s| < |sep| {
    } else if s[..|sep|] == sep {
      var rest := Explode(sep, s[|sep|..]);
      ImplodeExplode(sep, s[|sep|..]);
      assert Explode(sep, s) == [""] + rest;
      assert ([""] + rest)[1..] == rest;
      assert s == s[..|sep|] + s[|sep|..];
    } else {
      var rest := Explode(sep, s[1..]);
      ImplodeExplode(sep, s[1..]);
      ImplodeConsHead(sep, s[0], rest);
      assert s == [s[0]] + s[1..];
    }
  }

  lemma {:induction false} ExplodeWithoutSeparator(c: char, x: string)
    requires c !in x
    ensures Explode([c], x) == [x]
    decreases |x|
  {
    if |x| >= 1 {
      assert x[..1] != [c] by { assert x[..1][0] == x[0]; }
      assert x[0] in x;
      ExplodeWithoutSeparator(c, x[1..]);
      assert [x[0]] + x[1..] == x;
    }
  }

  lemma {:induction false} ExplodeAfterPiece(c: char, x: string, r: string)
    requires c !in x
    ensures Explode([c], x + [c] + r) == [x] + Explode([c], r)
    decreases |x|
  {
    var s := x + [c] + r;
    if |x| == 0 {
      assert s[..1] == [c];
      assert s[1..] == r;
    } else {
      assert s[0] == x[0];
      assert x[0] in x;
      assert s[..1] != [c] by { assert s[..1][0] == s[0]; }
      assert s[1..] == x[1..] + [c] + r;
      ExplodeAfterPiece(c, x[1..], r);
      assert [x[0]] + x[1..] == x;
    }
  }

  /**
   * Splitting a join gives the parts back when the separator is one
   * character that occurs in no part.
   */
  lemma {:induction false} ExplodeImplode(c: char, parts: seq<string>)
    requires |parts| >= 1
    requires forall i :: 0 <= i < |parts| ==> c !in parts[i]
    ensures Explode([c], Implode([c], parts)) == parts
    decreases |parts|
  {
    if |parts| == 1 {
      ExplodeWithoutSeparator(c, parts[0]);
    } else {
      ExplodeImplode(c, parts[1..]);
      ExplodeAfterPiece(c, parts[0], Implode([c], parts[1..]));
      assert [parts[0]] + parts[1..] == parts;
    }
  }

  /**
   * With a separator of two or more characters, parts that do not contain
   * the separator can still fail to come back: "a" and "a" joined by "aa".
   */
  lemma LongSeparatorSplitsDifferently()
    ensures Implode("aa", ["a", "a"]) == "aaaa"
    ensures Explode("aa", "aaaa") == ["", "", ""]
  {
    assert "aaaa"[..2] == "aa";
    assert "aaaa"[2..] == "aa";
    assert "aa"[..2] == "aa";
    assert "aa"[2..] == "";
  }

  function LowerChar(c: char): char {
    if 'A' <= c <= 'Z' then (c as int + 32) as char else c
  }

  function UpperChar(c: char): char {
    if 'a' <= c <= 'z' then (c as int - 32) as char else c
  }

  /** `strtolower`. */
  function ToLower(s: string): (r: string)
    ensures |r| == |s|
    ensures forall i :: 0 <= i < |s| ==> r[i] == LowerChar(s[i])
  {
    seq(|s|, i requires 0 <= i < |s| => LowerChar(s[i]))
  }

  /** `strtoupper`. */
  function ToUpper(s: string): (r: string)
    ensures |r| == |s|
    ensures forall i :: 0 <= i < |s| ==> r[i] == UpperChar(s[i])
  {
    seq(|s|, i requires 0 <= i < |s| => UpperChar(s[i]))
  }

  /** `str_replace($search, $rep, $s)` for one search string; an empty search changes nothing. */
  function ReplaceAll(s: string, search: string, rep: string): string
    decreases |s|
  {
    if |search| == 0 || |s| < |search| then s
    else if s[..|search|] == search then rep + ReplaceAll(s[|search|..], search, rep)
    else [s[0]] + ReplaceAll(s[1..], search, rep)
  }

  /** `str_replace` with an array of search strings: each is replaced in turn, in order. */
  function ReplaceEach(s: string, searches: seq<string>, rep: string): string
    decreases |searches|
  {
    if |searches| == 0 then s else ReplaceEach(ReplaceAll(s, searches[0], rep), searches[1..], rep)
  }

  /** Every occurrence of character `c` replaced by `r`. */
  function ReplaceChar(s: string, c: char, r: char): (t: string)
    ensures |t| == |s|
  {
    seq(|s|, i requires 0 <= i < |s| => if s[i] == c then r else s[i])
  }

  lemma {:induction false} ReplaceAllOneChar(s: string, c: char, r: char)
    ensures ReplaceAll(s, [c], [r]) == ReplaceChar(s, c, r)
    decreases |s|
  {
    if |s| >= 1 {
      ReplaceAllOneChar(s[1..], c, r);
      assert s[..1] == [c] <==> s[0] == c by { assert s[..1][0] == s[0]; }
      assert ReplaceChar(s, c, r) == [if s[0] == c then r else s[0]] + ReplaceChar(s[1..], c, r);
    }
  }

  /** A search string that does not occur leaves the subject unchanged. */
  lemma {:induction false} ReplaceAllAbsent(s: string, search: string, rep: string)
    requires |search| > 0 && search[0] !in s
    ensures ReplaceAll(s, search, rep) == s
    decreases |s|
  {
    if |s| >= |search| {
      assert s[..|search|] != search by { assert s[..|search|][0] == s[0]; assert s[0] in s; }
      assert forall x :: x in s[1..] ==> x in s;
      ReplaceAllAbsent(s[1..], search, rep);
      assert [s[0]] + s[1..] == s;
    }
  }

  /** `ltrim($s, $chars)`. */
  function LTrim(s: string, chars: set<char>): (r: string)
    ensures |r| <= |s| && r == s[|s| - |r|..]
    ensures |r| > 0 ==> r[0] !in chars
    ensures forall i :: 0 <= i < |s| - |r| ==> s[i] in chars
    decreases |s|
  {
    if |s| > 0 && s[0] in chars then LTrim(s[1..], chars) else s
  }

  /** `rtrim($s, $chars)`. */
  function RTrim(s: string, chars: set<char>): (r: string)
    ensures |r| <= |s| && r == s[..|r|]
    ensures |r| > 0 ==> r[|r| - 1] !in chars
    ensures forall i :: |r| <= i < |s| ==> s[i] in chars
    decreases |s|
  {
    if |s| > 0 && s[|s| - 1] in chars then RTrim(s[..|s| - 1], chars) else s
  }

  /** The characters `trim` removes by default. */
  const TrimChars: set<char> := {' ', '\t', '\n', '\r', '\0', '\U{0B}'}

  /** `trim($s)`. */
  function Trim(s: string): string {
    RTrim(LTrim(s, TrimChars), TrimChars)
  }

  /** `strstr($s, $sub)` is truthy: `sub` occurs in `s`. */
  predicate Contains(s: string, sub: string)
    decreases |s|
  {
    |s| >= |sub| && (s[..|sub|] == sub || Contains(s[1..], sub))
  }

  /** The characters after which `ucwords` starts a new word. */
  predicate IsWordBreak(c: char) {
    c == ' ' || c == '\t' || c == '\r' || c == '\n' || c == '\U{0C}' || c == '\U{0B}'
  }

  /** `ucwords($s)`: the first character of each word upper-cased. */
  function Ucwords(s: string): (r: string)
    ensures |r| == |s|
  {
    seq(|s|, i requires 0 <= i < |s| => if i == 0 || IsWordBreak(s[i - 1]) then UpperChar(s[i]) else s[i])
  }

  /** `substr($s, $start, $len)` for non-negative arguments, clipped to the string. */
  function Substr(s: string, start: nat, len: nat): (r: string)
    ensures |r| <= len
  {
    var a := if start <= |s| then start else |s|;
    var b := if start + len <= |s| then start + len else |s|;
    s[a..b]
  }

  predicate IsHexDigit(c: char) {
    '0' <= c <= '9' || 'a' <= c <= 'f' || 'A' <= c <= 'F'
  }

  /** `ctype_xdigit($s)`: non-empty and made of hexadecimal digits only. */
  predicate IsXDigit(s: string) {
    |s| > 0 && forall i :: 0 <= i < |s| ==> IsHexDigit(s[i])
  }

  function HexDigitValue(c: char): (d: nat)
    requires IsHexDigit(c)
    ensures d < 16
  {
    if '0' <= c <= '9' then c as int - '0' as int
    else if 'a' <= c <= 'f' then c as int - 'a' as int + 10
    else c as int - 'A' as int + 10
  }

  /** `hexdec($s)`: the hexadecimal digits of `s` read as a number; other characters are ignored. */
  function Hexdec(s: string): nat
    decreases |s|
  {
    if |s| == 0 then 0
    else if IsHexDigit(s[|s| - 1]) then Hexdec(s[..|s| - 1]) * 16 + HexDigitValue(s[|s| - 1])
    else Hexdec(s[..|s| - 1])
  }

  function LowerHexDigit(d: nat): (c: char)
    requires d < 16
    ensures IsHexDigit(c) && HexDigitValue(c) == d
    ensures !('A' <= c <= 'Z')
  {
    "0123456789abcdef"[d]
  }

  function NatToHex(n: nat): (s: string)
    ensures |s| >= 1
    ensures forall i :: 0 <= i < |s| ==> IsHexDigit(s[i]) && !('A' <= s[i] <= 'Z')
    decreases n
  {
    if n < 16 then [LowerHexDigit(n)] else NatToHex(n / 16) + [LowerHexDigit(n % 16)]
  }

  /**
   * `dechex($n)`: lower-case hexadecimal; a negative integer is written as
   * its 64-bit two's complement, as PHP does on 64-bit platforms.
   */
  function Dechex(n: int): (s: string)
    ensures |s| >= 1
  {
    NatToHex(if n >= 0 then n else n % 0x1_0000_0000_0000_0000)
  }

  /** `str_pad($s, $len, $pad, STR_PAD_LEFT)` with a one-character pad. */
  function StrPadLeft(s: string, len: nat, pad: char): (r: string)
    ensures |r| == if |s| >= len then |s| else len
    ensures r[|r| - |s|..] == s
  {
    if |s| >= len then s else seq(len - |s|, _ => pad) + s
  }
}
