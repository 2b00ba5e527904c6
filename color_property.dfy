/**
 * The colour property: any accepted colour notation (hexadecimal with or
 * without `#`, 3 or 6 digits; `rgb(r, g, b)`; a named colour; an array of
 * at least three components) is normalised to `#RRGGBB`, or to
 * `rgba(r,g,b,a)` when alpha is supported.
 *
 * The named-colour table is a map given to the property; a name whose
 * table entry leads back to itself recurses without end in the original,
 * which the model reports as `StackOverflow`.
 */
module ColorProp {
  import opened PhpValues
  import opened PhpStrings
  import opened PropertyBase

  /** The `['r' => .., 'g' => .., 'b' => .., 'a' => ..]` array the parsers return. */
  datatype ParsedColor = ParsedColor(r: int, g: int, b: int, a: Value)

  /** `parseArray`: needs three items; `r/g/b/a` keys when `r` is set, positions 0-3 otherwise. */
  function ParseArray(entries: seq<Entry>): (r: Result<ParsedColor>)
    ensures r.Err? <==> |entries| < 3
    ensures r.Ok? && IsSet(Arr(entries), SKey("r")) ==>
      r.value.r == IntCast(Get(Arr(entries), SKey("r"))) &&
      r.value.g == IntCast(Get(Arr(entries), SKey("g"))) &&
      r.value.b == IntCast(Get(Arr(entries), SKey("b"))) &&
      r.value.a == (if IsSet(Arr(entries), SKey("a")) then Get(Arr(entries), SKey("a")) else Int(0))
    ensures r.Ok? && !IsSet(Arr(entries), SKey("r")) ==>
      r.value.r == IntCast(Get(Arr(entries), IKey(0))) &&
      r.value.g == IntCast(Get(Arr(entries), IKey(1))) &&
      r.value.b == IntCast(Get(Arr(entries), IKey(2))) &&
      r.value.a == (if IsSet(Arr(entries), IKey(3)) then Get(Arr(entries), IKey(3)) else Int(0))
  {
    if |entries| < 3 then Err(InvalidArgumentException)
    else
      var v := Arr(entries);
      var ks := if IsSet(v, SKey("r")) then [SKey("r"), SKey("g"), SKey("b"), SKey("a")]
                else [IKey(0), IKey(1), IKey(2), IKey(3)];
      Ok(ParsedColor(IntCast(Get(v, ks[0])), IntCast(Get(v, ks[1])), IntCast(Get(v, ks[2])),
                     if IsSet(v, ks[3]) then Get(v, ks[3]) else Int(0)))
  }

  /** `parseHexadecimal`: 3 digits are doubled; otherwise pairs at offsets 0, 2 and 4. */
  function ParseHexadecimal(s: string): (r: ParsedColor)
    ensures 0 <= r.r < 256 && 0 <= r.g < 256 && 0 <= r.b < 256
    ensures r.a == Int(0)
  {
    var t := ReplaceAll(s, "#", "");
    if |t| == 3 then
      ParsedColor(Hexdec2([t[0], t[0]]), Hexdec2([t[1], t[1]]), Hexdec2([t[2], t[2]]), Int(0))
    else
      ParsedColor(Hexdec2(Substr(t, 0, 2)), Hexdec2(Substr(t, 2, 2)), Hexdec2(Substr(t, 4, 2)), Int(0))
  }

  /** `hexdec` of at most two characters: a byte. */
  function Hexdec2(s: string): (n: nat)
    requires |s| <= 2
    ensures n == Hexdec(s) && n < 256
  {
    if |s| > 0 then
      var p := s[..|s| - 1];
      assert Hexdec(p) < 16 by {
        if |p| == 1 {
          assert p[..0] == [];
        }
      }
      Hexdec(s)
    else Hexdec(s)
  }

  /** A token of the regular expressions the colour parsers use. */
  datatype Token =
    | Lit(c: char)   // one character, compared case-insensitively (the pattern is lower case)
    | Spaces         // \s*
    | Number         // (\d+), a captured group

  /** The characters PCRE's `\s` matches. */
  predicate IsPcreSpace(c: char) {
    c == ' ' || c == '\t' || c == '\n' || c == '\r' || c == '\U{0B}' || c == '\U{0C}'
  }

  /** The length of the run of `\s` characters at the start of `t`. */
  function SpaceRun(t: string): (n: nat)
    ensures n <= |t|
    ensures forall k :: 0 <= k < n ==> IsPcreSpace(t[k])
    ensures n == |t| || !IsPcreSpace(t[n])
    decreases |t|
  {
    if |t| > 0 && IsPcreSpace(t[0]) then 1 + SpaceRun(t[1..]) else 0
  }

  /** The length of the run of digits at the start of `t`. */
  function DigitRun(t: string): (n: nat)
    ensures n <= |t|
    ensures forall k :: 0 <= k < n ==> IsDigit(t[k])
    ensures n == |t| || !IsDigit(t[n])
    decreases |t|
  {
    if |t| > 0 && IsDigit(t[0]) then 1 + DigitRun(t[1..]) else 0
  }

  predicate AllDigits(s: string) {
    |s| > 0 && forall k :: 0 <= k < |s| ==> IsDigit(s[k])
  }

  /** A pattern: a list of tokens. */
  datatype Pattern = End | Then(token: Token, rest: Pattern)

  function Groups(pat: Pattern): nat {
    match pat
    case End => 0
    case Then(t, rest) => (if t.Number? then 1 else 0) + Groups(rest)
  }

  /**
   * The pattern matched at the start of `t`, giving the captured groups.
   * Each `\s*` and `\d+` is taken greedily: in the patterns used here the
   * token after one can never match a space or a digit, so greedy matching
   * finds the only match the backtracking engine can find.
   */
  function MatchPrefix(t: string, pat: Pattern): (r: Option<seq<string>>)
    ensures r.Some? ==> |r.value| == Groups(pat)
    ensures r.Some? ==> forall k :: 0 <= k < |r.value| ==> AllDigits(r.value[k])
    decreases pat
  {
    match pat
    case End => Some([])
    case Then(Lit(c), rest) =>
      if |t| > 0 && LowerChar(t[0]) == c then MatchPrefix(t[1..], rest) else None
    case Then(Spaces, rest) => MatchPrefix(t[SpaceRun(t)..], rest)
    case Then(Number, rest) =>
      var n := DigitRun(t);
      if n == 0 then None
      else
        match MatchPrefix(t[n..], rest)
        case None => None
        case Some(caps) => Some([t[..n]] + caps)
  }

  /** `preg_match`: the match that starts leftmost in `s`. */
  function Search(s: string, pat: Pattern): (r: Option<seq<string>>)
    ensures r.Some? ==> |r.value| == Groups(pat)
    ensures r.Some? ==> forall k :: 0 <= k < |r.value| ==> AllDigits(r.value[k])
    ensures MatchPrefix(s, pat).Some? ==> r == MatchPrefix(s, pat)
    decreases |s|
  {
    if MatchPrefix(s, pat).Some? then MatchPrefix(s, pat)
    else if |s| == 0 then None
    else Search(s[1..], pat)
  }

  /** The pattern of `chars` followed by `rest`. */
  function Word(chars: string, rest: Pattern): (p: Pattern)
    ensures Groups(p) == Groups(rest)
  {
    if |chars| == 0 then rest else Then(Lit(chars[0]), Word(chars[1..], rest))
  }

  /** `\s*(\d+)\s*` followed by `rest`. */
  function Field(rest: Pattern): (p: Pattern)
    ensures Groups(p) == Groups(rest) + 1
  {
    var p := Then(Spaces, Then(Number, Then(Spaces, rest)));
    assert Groups(p.rest.rest) == Groups(rest);
    p
  }

  /** `n` groups `\s*(\d+)\s*` separated by commas, then `)`. */
  function Fields(n: nat): (p: Pattern)
    requires n >= 1
    ensures Groups(p) == n
  {
    if n == 1 then Field(Then(Lit(')'), End)) else Field(Then(Lit(','), Fields(n - 1)))
  }

  const RgbFields: Pattern := Fields(3)

  /** `/rgb\s*\(\s*(\d+)\s*,\s*(\d+)\s*,\s*(\d+)\s*\)/i` */
  const RgbPattern: Pattern := Word("rgb", Then(Spaces, Then(Lit('('), RgbFields)))

  const RgbaFields: Pattern := Fields(4)

  /**
   * The `rgba()` pattern with the fourth group introduced by a comma, as the
   * three before it are: `/rgba\s*\(\s*(\d+)\s*,\s*(\d+)\s*,\s*(\d+)\s*,\s*(\d+)\s*\)/i`.
   */
  const RgbaPattern: Pattern := Word("rgba", Then(Spaces, Then(Lit('('), RgbaFields)))

  lemma RgbPatternGroups()
    ensures Groups(RgbPattern) == 3 && Groups(RgbaPattern) == 4
  {
  }

  /** `parseRgb`: the three captured numbers (as integers), alpha 0; no match throws. */
  function ParseRgb(s: string): (r: Result<ParsedColor>)
    ensures r.Err? <==> Search(s, RgbPattern).None?
    ensures r.Err? ==> r.error == InvalidArgumentException
    ensures r.Ok? ==> r.value.a == Int(0)
  {
    RgbPatternGroups();
    match Search(s, RgbPattern)
    case None => Err(InvalidArgumentException)
    case Some(m) => Ok(ParsedColor(StringToInt(m[0]), StringToInt(m[1]), StringToInt(m[2]), Int(0)))
  }

  /**
   * `parseRgba` as written: its pattern has one more `)` than `(`, so PCRE
   * refuses to compile it, `preg_match` returns false, and every input
   * throws.
   */
  function ParseRgba(s: string): (r: Result<ParsedColor>)
    ensures r == Err(InvalidArgumentException)
  {
    Err(InvalidArgumentException)
  }

  /** `parseRgba` with the pattern its author evidently meant. */
  function ParseRgbaIntended(s: string): (r: Result<ParsedColor>)
    ensures r.Err? <==> Search(s, RgbaPattern).None?
    ensures r.Ok? ==> r.value.a.Str? && AllDigits(r.value.a.s)
  {
    RgbPatternGroups();
    match Search(s, RgbaPattern)
    case None => Err(InvalidArgumentException)
    case Some(m) => Ok(ParsedColor(StringToInt(m[0]), StringToInt(m[1]), StringToInt(m[2]), Str(m[3])))
  }

  /** `strtolower` and every `#` removed, as `parseString` does first. */
  function Normalize(s: string): string {
    ReplaceAll(ToLower(s), "#", "")
  }

  /** Which parser `parseString` dispatches a normalised string to, in the order it tests them. */
  datatype Notation = Hexadecimal | Rgb | Rgba | Hsl | Named

  function NotationOf(t: string): (n: Notation)
    ensures n == Hexadecimal <==> IsXDigit(t)
    ensures n == Named ==> !Contains(t, "rgb(") && !Contains(t, "rgba(") && !Contains(t, "hsl(") && !Contains(t, "hsla(")
  {
    if IsXDigit(t) then Hexadecimal
    else if Contains(t, "rgb(") then Rgb
    else if Contains(t, "rgba(") then Rgba
    else if Contains(t, "hsl(") || Contains(t, "hsla(") then Hsl
    else Named
  }

  /** The size of the part of the colour table not yet followed. */
  function Unvisited(colors: map<string, Value>, visited: set<string>): nat {
    |colors.Keys - visited|
  }

  lemma VisitShrinks(colors: map<string, Value>, visited: set<string>, n: string)
    requires n in colors && n !in visited
    ensures Unvisited(colors, visited + {n}) < Unvisited(colors, visited)
  {
    assert colors.Keys - visited == (colors.Keys - (visited + {n})) + {n};
  }

  /**
   * `parseVal`: arrays go to `parseArray`, anything else to `parseString`.
   * `rgbaFixed` chooses the `rgba()` parser: as written, or as intended.
   * `visited` holds the names already followed in the colour table.
   */
  function ParseVal(colors: map<string, Value>, visited: set<string>, rgbaFixed: bool, v: Value): (r: Result<ParsedColor>)
    ensures v.Arr? ==> r == ParseArray(v.entries)
    decreases Unvisited(colors, visited), 2
  {
    if v.Arr? then ParseArray(v.entries) else ParseString(colors, visited, rgbaFixed, v)
  }

  /** `parseString`: a string only; dispatched on its normalised form. */
  function ParseString(colors: map<string, Value>, visited: set<string>, rgbaFixed: bool, v: Value): (r: Result<ParsedColor>)
    ensures !v.Str? ==> r == Err(InvalidArgumentException)
    ensures v.Str? && NotationOf(Normalize(v.s)) == Hexadecimal ==> r == Ok(ParseHexadecimal(Normalize(v.s)))
    ensures v.Str? && NotationOf(Normalize(v.s)) == Rgb ==> r == ParseRgb(Normalize(v.s))
    ensures v.Str? && NotationOf(Normalize(v.s)) == Rgba && !rgbaFixed ==> r == Err(InvalidArgumentException)
    ensures v.Str? && NotationOf(Normalize(v.s)) == Rgba && rgbaFixed ==> r == ParseRgbaIntended(Normalize(v.s))
    ensures v.Str? && NotationOf(Normalize(v.s)) == Hsl ==> r == Err(PlainException)
    ensures v.Str? && NotationOf(Normalize(v.s)) == Named ==> r == ParseNamedColor(colors, visited, rgbaFixed, Normalize(v.s))
    decreases Unvisited(colors, visited), 1
  {
    if !v.Str? then Err(InvalidArgumentException)
    else
      var t := Normalize(v.s);
      match NotationOf(t)
      case Hexadecimal => Ok(ParseHexadecimal(t))
      case Rgb => ParseRgb(t)
      case Rgba => if rgbaFixed then ParseRgbaIntended(t) else ParseRgba(t)
      case Hsl => Err(PlainException)
      case Named => ParseNamedColor(colors, visited, rgbaFixed, t)
  }

  /** `parseNamedColor`: the table entry for the lower-cased name, parsed in turn. */
  function ParseNamedColor(colors: map<string, Value>, visited: set<string>, rgbaFixed: bool, name: string): (r: Result<ParsedColor>)
    ensures ToLower(name) !in colors ==> r == Err(InvalidArgumentException)
    ensures ToLower(name) in colors && ToLower(name) in visited ==> r == Err(StackOverflow)
    decreases Unvisited(colors, visited), 0
  {
    var n := ToLower(name);
    if n !in colors then Err(InvalidArgumentException)
    else if n in visited then Err(StackOverflow)
    else
      VisitShrinks(colors, visited, n);
      ParseVal(colors, visited + {n}, rgbaFixed, colors[n])
  }

  lemma HexdecPair(x: char, y: char)
    requires IsHexDigit(x) && IsHexDigit(y)
    ensures Hexdec([x, y]) == HexDigitValue(x) * 16 + HexDigitValue(y)
  {
    var s := [x, y];
    assert s[..|s| - 1] == [x] && [x][..0] == [];
    assert Hexdec([x]) == Hexdec([x][..0]) * 16 + HexDigitValue(x);
  }

  /** Two hexadecimal digits, lower case, for a byte. */
  function HexByte(n: nat): (s: string)
    requires n < 256
    ensures |s| == 2 && IsHexDigit(s[0]) && IsHexDigit(s[1])
    ensures Hexdec(s) == n
  {
    var s := [LowerHexDigit(n / 16), LowerHexDigit(n % 16)];
    assert s[..1] == [s[0]] && s[..1][..0] == [];
    assert Hexdec(s[..1]) == n / 16;
    s
  }

  lemma PaddedDechex(n: nat)
    requires n < 256
    ensures StrPadLeft(Dechex(n), 2, '0') == HexByte(n)
  {
    if n < 16 {
      assert Dechex(n) == [LowerHexDigit(n)];
      assert LowerHexDigit(0) == '0';
      assert seq(1, _ => '0') == ['0'];
    } else {
      assert NatToHex(n / 16) == [LowerHexDigit(n / 16)];
      assert Dechex(n) == [LowerHexDigit(n / 16), LowerHexDigit(n % 16)];
    }
  }

  /** `rgbToHexadecimal`: each component as at least two hexadecimal digits, upper-cased. */
  function RgbToHexadecimal(r: int, g: int, b: int): (s: string)
    ensures 0 <= r < 256 && 0 <= g < 256 && 0 <= b < 256 ==>
      s == ToUpper(HexByte(r) + HexByte(g) + HexByte(b))
  {
    var hex := StrPadLeft(Dechex(r), 2, '0') + StrPadLeft(Dechex(g), 2, '0') + StrPadLeft(Dechex(b), 2, '0');
    if 0 <= r < 256 && 0 <= g < 256 && 0 <= b < 256 then
      PaddedDechex(r);
      PaddedDechex(g);
      PaddedDechex(b);
      ToUpper(hex)
    else ToUpper(hex)
  }

  /** Numbers separated by commas and closed by `)`, as the functional notations write them. */
  function NumberList(ds: seq<string>): string {
    Implode(",", ds) + ")"
  }

  /** `sprintf('rgba(%d,%d,%d,%s)', ...)`. */
  function FormatRgba(r: int, g: int, b: int, a: string): string {
    "rgba(" + NumberList([IntToDecimal(r), IntToDecimal(g), IntToDecimal(b), a])
  }

  /** `colorVal`: a falsy value unchanged; otherwise the parsed colour, formatted. */
  function ColorVal(alpha: bool, colors: map<string, Value>, rgbaFixed: bool, v: Value): (r: Result<Value>)
    ensures !Truthy(v) ==> r == Ok(v)
    ensures Truthy(v) && r.Ok? ==> r.value.Str?
    ensures Truthy(v) && ParseVal(colors, {}, rgbaFixed, v).Err? ==> r.Err?
  {
    if !Truthy(v) then Ok(v)
    else
      match ParseVal(colors, {}, rgbaFixed, v)
      case Err(e) => Err(e)
      case Ok(p) =>
        if !alpha then Ok(Str("#" + RgbToHexadecimal(p.r, p.g, p.b)))
        else
          match StrCast(p.a)
          case Err(e) => Err(e)
          case Ok(a) => Ok(Str(FormatRgba(p.r, p.g, p.b, a)))
  }

  /** Each value converted by `f` in order; the first failure wins. */
  function ConvertEach(f: Value -> Result<Value>, vs: seq<Value>): (r: Result<seq<Value>>)
    ensures r.Ok? <==> forall i :: 0 <= i < |vs| ==> f(vs[i]).Ok?
    ensures r.Ok? ==> |r.value| == |vs|
    ensures r.Ok? ==> forall i :: 0 <= i < |vs| ==> Ok(r.value[i]) == f(vs[i])
  {
    if |vs| == 0 then Ok([])
    else
      var init := vs[..|vs| - 1];
      var prev := ConvertEach(f, init);
      var last := f(vs[|vs| - 1]);
      assert forall i :: 0 <= i < |init| ==> init[i] == vs[i];
      if prev.Err? then
        assert exists i :: 0 <= i < |init| && f(init[i]).Err?;
        Err(prev.error)
      else if last.Err? then Err(last.error)
      else Ok(prev.value + [last.value])
  }

  /** Once a prefix fails, converting the whole sequence fails with the same error. */
  lemma {:induction false} ConvertEachKeepsFirstError(f: Value -> Result<Value>, vs: seq<Value>, k: nat)
    requires k <= |vs| && ConvertEach(f, vs[..k]).Err?
    ensures ConvertEach(f, vs) == ConvertEach(f, vs[..k])
    decreases |vs|
  {
    if |vs| > k {
      var init := vs[..|vs| - 1];
      assert init[..k] == vs[..k];
      ConvertEachKeepsFirstError(f, init, k);
    } else {
      assert vs[..k] == vs;
    }
  }

  /** `colorVal` applied to each value in order; the first failure wins. */
  function ColorVals(alpha: bool, colors: map<string, Value>, rgbaFixed: bool, vs: seq<Value>): (r: Result<seq<Value>>)
    ensures r.Ok? <==> forall i :: 0 <= i < |vs| ==> ColorVal(alpha, colors, rgbaFixed, vs[i]).Ok?
    ensures r.Ok? ==> |r.value| == |vs|
    ensures r.Ok? ==> forall i :: 0 <= i < |vs| ==> Ok(r.value[i]) == ColorVal(alpha, colors, rgbaFixed, vs[i])
  {
    ConvertEach(v => ColorVal(alpha, colors, rgbaFixed, v), vs)
  }

  /** Once a prefix fails, the whole sequence fails with the same error. */
  lemma ColorValsKeepsFirstError(alpha: bool, colors: map<string, Value>, rgbaFixed: bool, vs: seq<Value>, k: nat)
    requires k <= |vs| && ColorVals(alpha, colors, rgbaFixed, vs[..k]).Err?
    ensures ColorVals(alpha, colors, rgbaFixed, vs) == ColorVals(alpha, colors, rgbaFixed, vs[..k])
  {
    ConvertEachKeepsFirstError(v => ColorVal(alpha, colors, rgbaFixed, v), vs, k);
  }

  /** The value `setVal($raw)` stores on a colour property, or what it throws. */
  function CoerceColor(allowNull: bool, multiple: bool, sep: string, alpha: bool, colors: map<string, Value>,
                       raw: Value): (r: Result<Value>)
    ensures raw == Null ==> r == if allowNull then Ok(Null) else Err(InvalidArgumentException)
    ensures raw != Null && !multiple ==> r == ColorVal(alpha, colors, false, raw)
    ensures raw != Null && multiple && !raw.Arr? && !raw.Str? ==> r == Err(InvalidArgumentException)
    ensures raw != Null && multiple && raw.Arr? ==>
      (r.Ok? <==> ColorVals(alpha, colors, false, ValuesOf(raw.entries)).Ok?) &&
      (r.Ok? ==> r == Ok(List(ColorVals(alpha, colors, false, ValuesOf(raw.entries)).value)))
  {
    if raw == Null then (if allowNull then Ok(Null) else Err(InvalidArgumentException))
    else if multiple then
      var v := if raw.Str? then ExplodeValue(sep, raw.s) else raw;
      if !v.Arr? then Err(InvalidArgumentException)
      else
        match ColorVals(alpha, colors, false, ValuesOf(v.entries))
        case Err(e) => Err(e)
        case Ok(cs) => Ok(List(cs))
    else ColorVal(alpha, colors, false, raw)
  }

  // ---------------------------------------------------------------------
  // Hexadecimal notation: normal form and examples
  // ---------------------------------------------------------------------

  /** Six lower-case hexadecimal digits for three bytes. */
  function HexBytes(r: nat, g: nat, b: nat): (h: string)
    requires r < 256 && g < 256 && b < 256
    ensures |h| == 6 && IsXDigit(h)
  {
    HexByte(r) + HexByte(g) + HexByte(b)
  }

  lemma HexBytesLowerCase(r: nat, g: nat, b: nat)
    requires r < 256 && g < 256 && b < 256
    ensures forall k :: 0 <= k < 6 ==> !('A' <= HexBytes(r, g, b)[k] <= 'Z') && HexBytes(r, g, b)[k] != '#'
  {
    var h := HexBytes(r, g, b);
    assert h == [LowerHexDigit(r / 16), LowerHexDigit(r % 16), LowerHexDigit(g / 16),
                 LowerHexDigit(g % 16), LowerHexDigit(b / 16), LowerHexDigit(b % 16)];
  }

  /** `strtolower` leaves a string without upper-case letters unchanged. */
  lemma ToLowerIdentity(s: string)
    requires forall k :: 0 <= k < |s| ==> !('A' <= s[k] <= 'Z')
    ensures ToLower(s) == s
  {
  }

  /** Normalising `#` and the upper-cased form of a lower-case string without `#` gives that string. */
  lemma NormalizeUpperCased(h: string)
    requires forall k :: 0 <= k < |h| ==> !('A' <= h[k] <= 'Z') && h[k] != '#'
    ensures Normalize("#" + ToUpper(h)) == h
  {
    var n := "#" + ToUpper(h);
    var t := "#" + h;
    assert ToLower(n) == t by {
      forall k | 0 <= k < |n| ensures ToLower(n)[k] == t[k] {
        if k > 0 {
          assert n[k] == UpperChar(h[k - 1]);
        }
      }
    }
    assert t[..1] == "#" && t[1..] == h;
    ReplaceAllAbsent(h, "#", "");
  }

  /** The normalised form of `#` followed by the upper-cased digits is the lower-case digits. */
  lemma NormalizeHexOutput(r: nat, g: nat, b: nat)
    requires r < 256 && g < 256 && b < 256
    ensures Normalize("#" + RgbToHexadecimal(r, g, b)) == HexBytes(r, g, b)
  {
    assert RgbToHexadecimal(r, g, b) == ToUpper(HexBytes(r, g, b));
    HexBytesLowerCase(r, g, b);
    NormalizeUpperCased(HexBytes(r, g, b));
  }

  /** Reading six hexadecimal digits gives back the three bytes. */
  lemma ParseHexBytes(r: nat, g: nat, b: nat)
    requires r < 256 && g < 256 && b < 256
    ensures ParseHexadecimal(HexBytes(r, g, b)) == ParsedColor(r, g, b, Int(0))
  {
    var h := HexBytes(r, g, b);
    HexBytesLowerCase(r, g, b);
    ReplaceAllAbsent(h, "#", "");
    assert Substr(h, 0, 2) == HexByte(r) && Substr(h, 2, 2) == HexByte(g) && Substr(h, 4, 2) == HexByte(b);
  }

  /**
   * Hexadecimal input of any length but 3 is read as pairs at offsets 0, 2
   * and 4; a pair that lies wholly or partly past the end reads as the
   * digits that are there, and as 0 when none is.
   */
  lemma ShortHexPairs(s: string)
    requires '#' !in s && |s| <= 6 && |s| != 3
    ensures |s| <= 2 ==> ParseHexadecimal(s) == ParsedColor(Hexdec(s), 0, 0, Int(0))
    ensures |s| == 4 ==> ParseHexadecimal(s) == ParsedColor(Hexdec(s[..2]), Hexdec(s[2..]), 0, Int(0))
    ensures 5 <= |s| ==> ParseHexadecimal(s) == ParsedColor(Hexdec(s[..2]), Hexdec(s[2..4]), Hexdec(s[4..]), Int(0))
  {
    HexPairs(s);
    PairsOf(s);
    assert Hexdec([]) == 0;
  }

  /** The three pairs of at most six digits: the digits that are there, and empty past the end. */
  lemma PairsOf(s: string)
    requires |s| <= 6
    ensures |s| <= 2 ==> Substr(s, 0, 2) == s && Substr(s, 2, 2) == []
    ensures 2 <= |s| ==> Substr(s, 0, 2) == s[..2]
    ensures |s| <= 4 ==> Substr(s, 4, 2) == []
    ensures |s| == 4 ==> Substr(s, 2, 2) == s[2..]
    ensures 5 <= |s| ==> Substr(s, 2, 2) == s[2..4] && Substr(s, 4, 2) == s[4..]
  {
  }

  /** Without `#` and with a length other than 3, the three bytes are the pairs at offsets 0, 2 and 4. */
  lemma HexPairs(s: string)
    requires '#' !in s && |s| != 3
    ensures ParseHexadecimal(s) == ParsedColor(Hexdec(Substr(s, 0, 2)), Hexdec(Substr(s, 2, 2)), Hexdec(Substr(s, 4, 2)), Int(0))
  {
    ReplaceAllAbsent(s, "#", "");
  }

  /** Digits past the sixth are ignored. */
  lemma LongHexIgnoresTail(s: string)
    requires '#' !in s && |s| > 6
    ensures ParseHexadecimal(s) == ParseHexadecimal(s[..6])
  {
    var t := s[..6];
    assert '#' !in t by { assert forall k :: 0 <= k < 6 ==> t[k] == s[k]; }
    ReplaceAllAbsent(s, "#", "");
    ReplaceAllAbsent(t, "#", "");
    assert Substr(s, 0, 2) == Substr(t, 0, 2) && Substr(s, 2, 2) == Substr(t, 2, 2) && Substr(s, 4, 2) == Substr(t, 4, 2);
  }

  /** Two digits are the red byte alone: `ab` reads as (171, 0, 0). */
  lemma TwoDigitExample()
    ensures ParseHexadecimal("ab") == ParsedColor(171, 0, 0, Int(0))
  {
    ShortHexPairs("ab");
    HexdecPair('a', 'b');
  }

  /**
   * With alpha off, the normalised colour `#RRGGBB` of any three bytes is
   * normalised to itself: `colorVal` is idempotent on its own output.
   */
  lemma HexOutputIsFixpoint(colors: map<string, Value>, rgbaFixed: bool, r: nat, g: nat, b: nat)
    requires r < 256 && g < 256 && b < 256
    ensures ColorVal(false, colors, rgbaFixed, Str("#" + RgbToHexadecimal(r, g, b))) ==
      Ok(Str("#" + RgbToHexadecimal(r, g, b)))
  {
    var n := "#" + RgbToHexadecimal(r, g, b);
    assert n[0] == '#';
    assert Truthy(Str(n));
    NormalizeHexOutput(r, g, b);
    ParseHexBytes(r, g, b);
  }

  /** Any input whose normalised form is six hexadecimal digits gives the `#RRGGBB` they denote. */
  lemma SixDigitInput(colors: map<string, Value>, rgbaFixed: bool, s: string, r: nat, g: nat, b: nat)
    requires r < 256 && g < 256 && b < 256
    requires Truthy(Str(s)) && Normalize(s) == HexBytes(r, g, b)
    ensures ColorVal(false, colors, rgbaFixed, Str(s)) == Ok(Str("#" + RgbToHexadecimal(r, g, b)))
  {
    ParseHexBytes(r, g, b);
  }

  /**
   * Any input whose normalised form is three hexadecimal digits gives the
   * colour with each digit doubled.
   */
  lemma ThreeDigitInput(colors: map<string, Value>, rgbaFixed: bool, s: string)
    requires Truthy(Str(s)) && |Normalize(s)| == 3 && IsXDigit(Normalize(s))
    ensures var t := Normalize(s);
      ColorVal(false, colors, rgbaFixed, Str(s)) ==
      Ok(Str("#" + RgbToHexadecimal(17 * HexDigitValue(t[0]), 17 * HexDigitValue(t[1]), 17 * HexDigitValue(t[2]))))
  {
    var t := Normalize(s);
    assert '#' !in t by { assert forall k :: 0 <= k < |t| ==> IsHexDigit(t[k]); }
    ReplaceAllAbsent(t, "#", "");
    forall k | 0 <= k < 3 ensures Hexdec([t[k], t[k]]) == 17 * HexDigitValue(t[k]) {
      HexdecPair(t[k], t[k]);
    }
  }

  lemma RedBytes()
    ensures HexBytes(255, 0, 0) == "ff0000"
  {
    assert HexByte(255) == "ff" && HexByte(0) == "00";
  }

  lemma RedHexadecimal()
    ensures RgbToHexadecimal(255, 0, 0) == "FF0000"
  {
    var h := HexBytes(255, 0, 0);
    RedBytes();
    var u := ToUpper(h);
    assert u == "FF0000" by {
      forall k | 0 <= k < 6 ensures u[k] == "FF0000"[k] { assert u[k] == UpperChar(h[k]); }
    }
  }

  /**
   * `#ff0000` is a six-digit input for (255, 0, 0), so by `SixDigitInput`
   * it gives `#FF0000`.
   */
  lemma LongRedExample(s: string)
    requires s == "#ff0000"
    ensures Truthy(Str(s)) && Normalize(s) == HexBytes(255, 0, 0)
  {
    RedBytes();
    ToLowerIdentity(s);
    assert s[..1] == "#" && s[1..] == "ff0000";
    ReplaceAllAbsent("ff0000", "#", "");
  }

  /**
   * `F00` is a three-digit input whose doubled digits are (255, 0, 0), so by
   * `ThreeDigitInput` it gives `#FF0000`.
   */
  lemma ShortRedExample(s: string)
    requires s == "F00"
    ensures Truthy(Str(s)) && |Normalize(s)| == 3 && IsXDigit(Normalize(s))
    ensures HexDigitValue(Normalize(s)[0]) == 15
    ensures HexDigitValue(Normalize(s)[1]) == 0 && HexDigitValue(Normalize(s)[2]) == 0
  {
    var l := ToLower(s);
    assert l == "f00" by {
      forall k | 0 <= k < 3 ensures l[k] == "f00"[k] { assert l[k] == LowerChar(s[k]); }
    }
    ReplaceAllAbsent("f00", "#", "");
  }

  // ---------------------------------------------------------------------
  // Functional notations: rgb() and rgba()
  // ---------------------------------------------------------------------

  /** `rgb(r,g,b)`, the functional notation `parseRgb` reads. */
  function FormatRgb(r: nat, g: nat, b: nat): string {
    "rgb(" + NumberList([NatToDecimal(r), NatToDecimal(g), NatToDecimal(b)])
  }

  /** A lower-case word at the start of `w + u` is matched character by character. */
  lemma {:induction false} MatchWord(w: string, u: string, rest: Pattern)
    requires forall k :: 0 <= k < |w| ==> !('A' <= w[k] <= 'Z')
    ensures MatchPrefix(w + u, Word(w, rest)) == MatchPrefix(u, rest)
    decreases |w|
  {
    if |w| == 0 {
      assert w + u == u;
    } else {
      assert Word(w, rest) == Then(Lit(w[0]), Word(w[1..], rest));
      assert (w + u)[0] == w[0] && LowerChar(w[0]) == w[0];
      assert (w + u)[1..] == w[1..] + u;
      MatchWord(w[1..], u, rest);
    }
  }

  /** `\s*` matches nothing before a character that is not a space. */
  lemma NoSpaces(u: string, rest: Pattern)
    requires |u| > 0 && !IsPcreSpace(u[0])
    ensures MatchPrefix(u, Then(Spaces, rest)) == MatchPrefix(u, rest)
  {
    assert SpaceRun(u) == 0;
    assert u[0..] == u;
  }

  /** `\s*(\d+)\s*` followed by the character `c` captures the digits `d` directly before `c`. */
  lemma MatchFieldThen(d: string, c: char, u: string, rest: Pattern)
    requires AllDigits(d) && !IsDigit(c) && !IsPcreSpace(c) && !('A' <= c <= 'Z')
    ensures MatchPrefix(d + [c] + u, Field(Then(Lit(c), rest))) ==
      match MatchPrefix(u, rest)
      case None => None
      case Some(caps) => Some([d] + caps)
  {
    var t := d + [c] + u;
    var after := Then(Lit(c), rest);
    assert t[0] == d[0];
    NoSpaces(t, Then(Number, Then(Spaces, after)));
    assert forall k :: 0 <= k < |d| ==> t[k] == d[k];
    assert t[|d|] == c;
    assert DigitRun(t) == |d|;
    assert t[..|d|] == d;
    assert t[|d|..] == [c] + u;
    NoSpaces([c] + u, after);
    assert ([c] + u)[1..] == u;
  }

  lemma DecimalIsDigits(n: nat)
    ensures AllDigits(NatToDecimal(n))
  {
  }

  /** A function name and `(` in front of `u` are matched by `name\s*\(`. */
  lemma MatchHead(name: string, u: string, fields: Pattern)
    requires forall k :: 0 <= k < |name| ==> !('A' <= name[k] <= 'Z')
    ensures MatchPrefix(name + "(" + u, Word(name, Then(Spaces, Then(Lit('('), fields)))) == MatchPrefix(u, fields)
  {
    assert name + "(" + u == name + ("(" + u);
    MatchWord(name, "(" + u, Then(Spaces, Then(Lit('('), fields)));
    NoSpaces("(" + u, Then(Lit('('), fields));
    assert ("(" + u)[1..] == u;
  }

  lemma MatchLastField(ds: seq<string>)
    requires |ds| == 1 && AllDigits(ds[0])
    ensures MatchPrefix(NumberList(ds), Fields(1)) == Some(ds)
  {
    assert NumberList(ds) == ds[0] + [')'] + "";
    MatchFieldThen(ds[0], ')', "", End);
    assert [ds[0]] + [] == ds;
  }

  /** One more number and a comma in front of a matched list adds one capture in front. */
  lemma MatchFieldsStep(ds: seq<string>)
    requires |ds| >= 2 && AllDigits(ds[0])
    requires MatchPrefix(NumberList(ds[1..]), Fields(|ds| - 1)) == Some(ds[1..])
    ensures MatchPrefix(NumberList(ds), Fields(|ds|)) == Some(ds)
  {
    assert [ds[0]] + ds[1..] == ds;
    NumberListCons(ds);
    assert Fields(|ds|) == Field(Then(Lit(','), Fields(|ds| - 1)));
    MatchFieldThen(ds[0], ',', NumberList(ds[1..]), Fields(|ds| - 1));
  }

  /** A list of two or more numbers is the first one, a comma and the list of the rest. */
  lemma NumberListCons(ds: seq<string>)
    requires |ds| >= 2
    ensures NumberList(ds) == ds[0] + [','] + NumberList(ds[1..])
  {
    assert Implode(",", ds) == ds[0] + "," + Implode(",", ds[1..]);
  }

  /** A list of numbers is matched by as many groups, which capture them. */
  lemma {:induction false} MatchFields(ds: seq<string>)
    requires |ds| >= 1
    requires forall k :: 0 <= k < |ds| ==> AllDigits(ds[k])
    ensures MatchPrefix(NumberList(ds), Fields(|ds|)) == Some(ds)
    decreases |ds|
  {
    if |ds| == 1 {
      MatchLastField(ds);
    } else {
      assert forall k :: 0 <= k < |ds| - 1 ==> ds[1..][k] == ds[k + 1];
      MatchFields(ds[1..]);
      MatchFieldsStep(ds);
    }
  }

  /** The numbers of `rgb(r,g,b)` are digit runs. */
  lemma DecimalTriple(r: nat, g: nat, b: nat)
    ensures var ds := [NatToDecimal(r), NatToDecimal(g), NatToDecimal(b)];
      forall k :: 0 <= k < |ds| ==> AllDigits(ds[k])
  {
    DecimalIsDigits(r);
    DecimalIsDigits(g);
    DecimalIsDigits(b);
  }

  /** A function name, `(` and a list of numbers are found by the notation's pattern, which captures the numbers. */
  lemma MatchNotation(name: string, ds: seq<string>)
    requires forall k :: 0 <= k < |name| ==> !('A' <= name[k] <= 'Z')
    requires |ds| >= 1 && forall k :: 0 <= k < |ds| ==> AllDigits(ds[k])
    ensures Search(name + "(" + NumberList(ds), Word(name, Then(Spaces, Then(Lit('('), Fields(|ds|))))) == Some(ds)
  {
    MatchHead(name, NumberList(ds), Fields(|ds|));
    MatchFields(ds);
  }

  /** `rgb(r,g,b)` is matched at its start, capturing the three decimal numbers. */
  lemma MatchFormatRgb(r: nat, g: nat, b: nat)
    ensures Search(FormatRgb(r, g, b), RgbPattern) == Some([NatToDecimal(r), NatToDecimal(g), NatToDecimal(b)])
  {
    var ds := [NatToDecimal(r), NatToDecimal(g), NatToDecimal(b)];
    DecimalTriple(r, g, b);
    MatchNotation("rgb", ds);
    assert "rgb" + "(" == "rgb(";
  }

  /** `parseRgb` reads back the numbers written in `rgb(r,g,b)`, for every 64-bit non-negative triple. */
  lemma ParseFormatRgb(r: nat, g: nat, b: nat)
    requires r <= PHP_INT_MAX && g <= PHP_INT_MAX && b <= PHP_INT_MAX
    ensures ParseRgb(FormatRgb(r, g, b)) == Ok(ParsedColor(r, g, b, Int(0)))
  {
    MatchFormatRgb(r, g, b);
    StringToIntOfDecimal(r);
    StringToIntOfDecimal(g);
    StringToIntOfDecimal(b);
  }

  lemma NotContainsWithoutHead(s: string, sub: string)
    requires |sub| > 0 && sub[0] !in s
    ensures !Contains(s, sub)
    decreases |s|
  {
    if |s| >= |sub| {
      assert s[..|sub|][0] == s[0];
      assert forall x :: x in s[1..] ==> x in s;
      NotContainsWithoutHead(s[1..], sub);
    }
  }

  /** The characters a formatted number list is made of. */
  predicate NumberListChar(c: char) {
    IsDigit(c) || c == ',' || c == ')'
  }

  lemma {:induction false} NumberListChars(ds: seq<string>)
    requires forall k :: 0 <= k < |ds| ==> AllDigits(ds[k])
    ensures forall k :: 0 <= k < |NumberList(ds)| ==> NumberListChar(NumberList(ds)[k])
    decreases |ds|
  {
    if |ds| >= 2 {
      var t := NumberList(ds[1..]);
      assert forall k :: 0 <= k < |ds| - 1 ==> ds[1..][k] == ds[k + 1];
      NumberListChars(ds[1..]);
      assert NumberList(ds) == ds[0] + [','] + t;
      forall k | 0 <= k < |NumberList(ds)| ensures NumberListChar(NumberList(ds)[k]) {
        if k < |ds[0]| {
          assert NumberList(ds)[k] == ds[0][k];
        } else if k > |ds[0]| {
          assert NumberList(ds)[k] == t[k - |ds[0]| - 1];
        }
      }
    } else if |ds| == 1 {
      assert NumberList(ds) == ds[0] + ")";
    } else {
      assert NumberList(ds) == ")";
    }
  }

  /** `rgba(r,g,b,0)`, as `colorVal` writes a colour with alpha support. */
  function AlphaOutput(r: nat, g: nat, b: nat): string {
    FormatRgba(r, g, b, "0")
  }

  /** The alpha output is `rgba(` and a list of four numbers. */
  lemma AlphaOutputShape(r: nat, g: nat, b: nat)
    ensures var ds := [NatToDecimal(r), NatToDecimal(g), NatToDecimal(b), "0"];
      (forall k :: 0 <= k < |ds| ==> AllDigits(ds[k])) &&
      AlphaOutput(r, g, b) == "rgba" + "(" + NumberList(ds)
  {
    var x, y, z := NatToDecimal(r), NatToDecimal(g), NatToDecimal(b);
    DecimalIsDigits(r);
    DecimalIsDigits(g);
    DecimalIsDigits(b);
    assert "rgba" + "(" == "rgba(";
  }

  /** Past its first character, the alpha output holds only `gba(`, digits, commas and `)`. */
  lemma AlphaOutputChars(r: nat, g: nat, b: nat)
    ensures var s := AlphaOutput(r, g, b);
      |s| > 5 && s[..5] == "rgba(" &&
      forall k :: 1 <= k < |s| ==> s[k] != 'r' && s[k] != '#' && !('A' <= s[k] <= 'Z')
  {
    AlphaOutputShape(r, g, b);
    var ds := [NatToDecimal(r), NatToDecimal(g), NatToDecimal(b), "0"];
    var t := NumberList(ds);
    NumberListChars(ds);
    var s := AlphaOutput(r, g, b);
    assert s == "rgba(" + t;
    forall k | 1 <= k < |s| ensures s[k] != 'r' && s[k] != '#' && !('A' <= s[k] <= 'Z') {
      if k >= 5 {
        assert s[k] == t[k - 5];
      }
    }
  }

  /** A string that starts `rgba(` and has no other `r` does not contain `rgb(`. */
  lemma NoRgbCall(s: string)
    requires |s| > 5 && s[..5] == "rgba("
    requires forall k :: 1 <= k < |s| ==> s[k] != 'r'
    ensures !Contains(s, "rgb(")
  {
    assert s[..4] != "rgb(" by { assert s[3] == 'a'; }
    assert 'r' !in s[1..];
    NotContainsWithoutHead(s[1..], "rgb(");
  }

  /**
   * A lower-case string without `#` that starts `rgba(` and has no other
   * `r` is normalised to itself and dispatched to the `rgba()` parser.
   */
  lemma RgbaOnlyNotation(s: string)
    requires |s| > 5 && s[..5] == "rgba("
    requires forall k :: 1 <= k < |s| ==> s[k] != 'r' && s[k] != '#' && !('A' <= s[k] <= 'Z')
    ensures Truthy(Str(s))
    ensures Normalize(s) == s
    ensures NotationOf(s) == Rgba
  {
    assert s[0] == 'r';
    ToLowerIdentity(s);
    ReplaceAllAbsent(s, "#", "");
    assert !IsXDigit(s);
    NoRgbCall(s);
    assert Contains(s, "rgba(");
  }

  /**
   * The string `colorVal` writes with alpha support is normalised to itself
   * and is dispatched to the `rgba()` parser.
   */
  lemma AlphaOutputNotation(r: nat, g: nat, b: nat)
    ensures Truthy(Str(AlphaOutput(r, g, b)))
    ensures Normalize(AlphaOutput(r, g, b)) == AlphaOutput(r, g, b)
    ensures NotationOf(AlphaOutput(r, g, b)) == Rgba
  {
    AlphaOutputChars(r, g, b);
    RgbaOnlyNotation(AlphaOutput(r, g, b));
  }

  /** With the intended `rgba()` pattern, the alpha output is matched and its four numbers captured. */
  lemma MatchAlphaOutput(r: nat, g: nat, b: nat)
    ensures Search(AlphaOutput(r, g, b), RgbaPattern) ==
      Some([NatToDecimal(r), NatToDecimal(g), NatToDecimal(b), "0"])
  {
    var ds := [NatToDecimal(r), NatToDecimal(g), NatToDecimal(b), "0"];
    AlphaOutputShape(r, g, b);
    MatchNotation("rgba", ds);
  }

  lemma ZeroDecimal()
    ensures IntToDecimal(0) == "0"
  {
  }

  /** The `#RRGGBB` output of three bytes parses back to them. */
  lemma HexOutputParses(colors: map<string, Value>, visited: set<string>, rgbaFixed: bool, r: nat, g: nat, b: nat)
    requires r < 256 && g < 256 && b < 256
    ensures ParseVal(colors, visited, rgbaFixed, Str("#" + RgbToHexadecimal(r, g, b))) == Ok(ParsedColor(r, g, b, Int(0)))
  {
    NormalizeHexOutput(r, g, b);
    ParseHexBytes(r, g, b);
  }

  /** Any string normalised to six hexadecimal digits parses to the bytes they denote. */
  lemma HexStringParses(colors: map<string, Value>, visited: set<string>, rgbaFixed: bool, s: string, r: nat, g: nat, b: nat)
    requires r < 256 && g < 256 && b < 256
    requires Normalize(s) == HexBytes(r, g, b)
    ensures ParseVal(colors, visited, rgbaFixed, Str(s)) == Ok(ParsedColor(r, g, b, Int(0)))
  {
    ParseHexBytes(r, g, b);
  }

  /** As written, the alpha output is refused by the `rgba()` parser. */
  lemma AlphaOutputParseFails(colors: map<string, Value>, visited: set<string>, r: nat, g: nat, b: nat)
    ensures ParseVal(colors, visited, false, Str(AlphaOutput(r, g, b))) == Err(InvalidArgumentException)
  {
    AlphaOutputNotation(r, g, b);
  }

  /** With the intended pattern, the alpha output parses back to its components and alpha `"0"`. */
  lemma AlphaOutputParsesWhenFixed(colors: map<string, Value>, visited: set<string>, r: nat, g: nat, b: nat)
    requires r < 256 && g < 256 && b < 256
    ensures ParseVal(colors, visited, true, Str(AlphaOutput(r, g, b))) == Ok(ParsedColor(r, g, b, Str("0")))
  {
    AlphaOutputNotation(r, g, b);
    StringToIntOfDecimal(r);
    StringToIntOfDecimal(g);
    StringToIntOfDecimal(b);
    MatchAlphaOutput(r, g, b);
  }

  /** With alpha support, a parsed colour is written in the `rgba()` notation with its alpha as a string. */
  lemma ColorValWithAlpha(colors: map<string, Value>, rgbaFixed: bool, v: Value, p: ParsedColor, a: string)
    requires Truthy(v) && ParseVal(colors, {}, rgbaFixed, v) == Ok(p) && StrCast(p.a) == Ok(a)
    ensures ColorVal(true, colors, rgbaFixed, v) == Ok(Str(FormatRgba(p.r, p.g, p.b, a)))
  {
  }

  /** Without alpha support, a parsed colour is written `#RRGGBB`, whatever alpha it was given. */
  lemma ColorValWithoutAlpha(colors: map<string, Value>, rgbaFixed: bool, v: Value, p: ParsedColor)
    requires Truthy(v) && ParseVal(colors, {}, rgbaFixed, v) == Ok(p)
    ensures ColorVal(false, colors, rgbaFixed, v) == Ok(Str("#" + RgbToHexadecimal(p.r, p.g, p.b)))
  {
  }

  /** `#` and the hexadecimal form of (255, 0, 0). */
  lemma HashRed()
    ensures "#" + RgbToHexadecimal(255, 0, 0) == "#FF0000"
  {
    RedHexadecimal();
  }

  /** The array `[255, 0, 0]` is read by position as red. */
  lemma RedArrayParses()
    ensures ParseArray(List([Int(255), Int(0), Int(0)]).entries) == Ok(ParsedColor(255, 0, 0, Int(0)))
  {
    var e2 := [Entry(IKey(2), Int(0))];
    var e1 := [Entry(IKey(1), Int(0))] + e2;
    var es := [Entry(IKey(0), Int(255))] + e1;
    assert List([Int(255), Int(0), Int(0)]) == Arr(es);
    assert es[1..] == e1 && e1[1..] == e2 && e2[1..] == [];
    assert Lookup(es, SKey("r")) == None;
    assert Lookup(es, IKey(3)) == None;
    assert Lookup(e1, IKey(1)) == Some(Int(0));
    assert Lookup(e1, IKey(2)) == Some(Int(0));
  }

  /** The array `[255, 0, 0]` is read by position and stored as `#FF0000`. */
  lemma ArrayRedExample(colors: map<string, Value>, rgbaFixed: bool)
    ensures ColorVal(false, colors, rgbaFixed, List([Int(255), Int(0), Int(0)])) == Ok(Str("#FF0000"))
  {
    var v := List([Int(255), Int(0), Int(0)]);
    RedArrayParses();
    ColorValWithoutAlpha(colors, rgbaFixed, v, ParsedColor(255, 0, 0, Int(0)));
    HashRed();
  }

  /** With alpha support, a hexadecimal colour is written `rgba(r,g,b,0)`. */
  lemma AlphaOutputOfHex(colors: map<string, Value>, rgbaFixed: bool, s: string, r: nat, g: nat, b: nat)
    requires r < 256 && g < 256 && b < 256
    requires Truthy(Str(s)) && Normalize(s) == HexBytes(r, g, b)
    ensures ColorVal(true, colors, rgbaFixed, Str(s)) == Ok(Str(AlphaOutput(r, g, b)))
  {
    HexStringParses(colors, {}, rgbaFixed, s, r, g, b);
    ZeroDecimal();
    ColorValWithAlpha(colors, rgbaFixed, Str(s), ParsedColor(r, g, b, Int(0)), "0");
  }

  /**
   * As written: with alpha support, any hexadecimal colour is stored as
   * `rgba(r,g,b,0)`, and storing that value again throws.
   */
  lemma AlphaOutputRejected(colors: map<string, Value>, r: nat, g: nat, b: nat)
    requires r < 256 && g < 256 && b < 256
    ensures ColorVal(true, colors, false, Str("#" + RgbToHexadecimal(r, g, b))) == Ok(Str(AlphaOutput(r, g, b)))
    ensures ColorVal(true, colors, false, Str(AlphaOutput(r, g, b))) == Err(InvalidArgumentException)
  {
    var n := "#" + RgbToHexadecimal(r, g, b);
    assert n[0] == '#';
    NormalizeHexOutput(r, g, b);
    AlphaOutputOfHex(colors, false, n, r, g, b);
    AlphaOutputNotation(r, g, b);
    AlphaOutputParseFails(colors, {}, r, g, b);
  }

  /**
   * With the intended `rgba()` pattern, the alpha output of any colour
   * with byte components is normalised to itself.
   */
  lemma AlphaOutputIsFixpointWhenFixed(colors: map<string, Value>, r: nat, g: nat, b: nat)
    requires r < 256 && g < 256 && b < 256
    ensures ColorVal(true, colors, true, Str(AlphaOutput(r, g, b))) == Ok(Str(AlphaOutput(r, g, b)))
  {
    AlphaOutputNotation(r, g, b);
    AlphaOutputParsesWhenFixed(colors, {}, r, g, b);
  }

  // ---------------------------------------------------------------------
  // Named colours
  // ---------------------------------------------------------------------

  /** A name not yet followed is replaced by its table entry, parsed with the name marked as followed. */
  lemma NamedColorStep(colors: map<string, Value>, visited: set<string>, rgbaFixed: bool, name: string)
    requires ToLower(name) in colors && ToLower(name) !in visited
    ensures ParseNamedColor(colors, visited, rgbaFixed, name) ==
      ParseVal(colors, visited + {ToLower(name)}, rgbaFixed, colors[ToLower(name)])
  {
  }

  /** A name is looked up lower-cased and its table entry parsed in turn. */
  lemma NamedColorLookup(colors: map<string, Value>, name: string, hex: string, r: nat, g: nat, b: nat)
    requires r < 256 && g < 256 && b < 256
    requires NotationOf(Normalize(name)) == Named && Truthy(Str(name))
    requires ToLower(Normalize(name)) in colors && colors[ToLower(Normalize(name))] == Str(hex)
    requires Normalize(hex) == HexBytes(r, g, b)
    ensures ColorVal(false, colors, false, Str(name)) == Ok(Str("#" + RgbToHexadecimal(r, g, b)))
  {
    var t := Normalize(name);
    var n := ToLower(t);
    assert ParseVal(colors, {}, false, Str(name)) == ParseNamedColor(colors, {}, false, t);
    NamedColorStep(colors, {}, false, t);
    HexStringParses(colors, {} + {n}, false, hex, r, g, b);
    var p := ParsedColor(r, g, b, Int(0));
    assert ParseVal(colors, {}, false, Str(name)) == Ok(p);
    assert ColorVal(false, colors, false, Str(name)) == Ok(Str("#" + RgbToHexadecimal(p.r, p.g, p.b)));
  }

  /** A table whose entries lead back to a name already followed makes the lookup recurse without end. */
  lemma NamedColorCycle(colors: map<string, Value>, name: string)
    requires NotationOf(Normalize(name)) == Named && Truthy(Str(name))
    requires ToLower(Normalize(name)) in colors && colors[ToLower(Normalize(name))] == Str(name)
    ensures ColorVal(false, colors, false, Str(name)) == Err(StackOverflow)
  {
    var t := Normalize(name);
    var n := ToLower(t);
    assert ParseVal(colors, {}, false, Str(name)) == ParseNamedColor(colors, {}, false, t);
    NamedColorStep(colors, {}, false, t);
    assert {} + {n} == {n};
    assert ParseVal(colors, {n}, false, Str(name)) == ParseNamedColor(colors, {n}, false, t);
    assert ParseVal(colors, {}, false, Str(name)) == Err(StackOverflow);
  }

  class ColorProperty {
    const base: AbstractProperty
    /** The named-colour table. */
    const colors: map<string, Value>
    var supportAlpha: bool

    constructor (colors: map<string, Value>)
      ensures fresh(base) && this.colors == colors && !supportAlpha
      ensures base.Snapshot() == State("", Null, None, false, false, false, None, false, false, true,
                                       true, true, "", "", [])
    {
      base := new AbstractProperty();
      this.colors := colors;
      supportAlpha := false;
    }

    method SetSupportAlpha(v: Value)
      modifies this
      ensures supportAlpha == Truthy(v)
    {
      supportAlpha := Truthy(v);
    }

    /** The `foreach` of `setVal`: `colorVal` of each value, appended in order. */
    method ColorValsLoop(vs: seq<Value>) returns (r: Result<seq<Value>>)
      ensures r == ColorVals(supportAlpha, colors, false, vs)
    {
      var ret: seq<Value> := [];
      var i := 0;
      while i < |vs|
        invariant 0 <= i <= |vs|
        invariant ColorVals(supportAlpha, colors, false, vs[..i]) == Ok(ret)
      {
        assert vs[..i + 1][..i] == vs[..i];
        var c := ColorVal(supportAlpha, colors, false, vs[i]);
        if c.Err? {
          ColorValsKeepsFirstError(supportAlpha, colors, false, vs, i + 1);
          return Err(c.error);
        }
        ret := ret + [c.value];
        i := i + 1;
      }
      assert vs[..i] == vs;
      return Ok(ret);
    }

    /** The value `setVal` stores for `raw`, or the exception it throws. */
    method Coerce(raw: Value) returns (c: Result<Value>)
      ensures c == CoerceColor(base.allowNull, base.multiple, base.MultipleSeparator(), supportAlpha, colors, raw)
    {
      if raw == Null {
        c := if base.allowNull then Ok(Null) else Err(InvalidArgumentException);
      } else if base.multiple {
        var v := if raw.Str? then ExplodeValue(base.MultipleSeparator(), raw.s) else raw;
        if !v.Arr? {
          return Err(InvalidArgumentException);
        }
        var cs := ColorValsLoop(ValuesOf(v.entries));
        c := if cs.Err? then Err(cs.error) else Ok(List(cs.value));
      } else {
        c := ColorVal(supportAlpha, colors, false, raw);
      }
    }

    /** `setVal`: stores the coerced colour, or throws and leaves the property unchanged. */
    method SetVal(raw: Value) returns (r: Result<()>)
      modifies base
      ensures var c := CoerceColor(old(base.allowNull), old(base.multiple), old(base.MultipleSeparator()),
                                   supportAlpha, colors, raw);
        (r.Ok? <==> c.Ok?) &&
        base.Snapshot() == if c.Ok? then old(base.Snapshot()).(val := c.value) else old(base.Snapshot())
    {
      var c := Coerce(raw);
      if c.Err? {
        return Err(c.error);
      }
      base.val := c.value;
      return Ok(());
    }

    /** `sqlType`: TEXT for multiple; otherwise sized for `#RRGGBB` or `rgba(...)`. */
    function SqlType(): (t: string)
      reads this, base
      ensures base.multiple ==> t == "TEXT"
      ensures !base.multiple ==> t == if supportAlpha then "VARCHAR(32)" else "CHAR(7)"
    {
      if base.multiple then "TEXT" else if supportAlpha then "VARCHAR(32)" else "CHAR(7)"
    }
  }
}
