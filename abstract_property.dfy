/**
 * The base property: its configuration flags, its current value, and the
 * value lifecycle every property type shares: `setVal` coerces raw input
 * (null rules, then the multiple rule), `inputVal`/`displayVal` project the
 * value back to a string (language selection, joining with the separator),
 * and the three base checks report on the value.
 *
 * The coercion and projections are specified by functions of the flags
 * (`CoerceVal`, `InputValOf`, `DisplayValOf`); the class methods are proved
 * against them, and the laws of the lifecycle are lemmas about them.
 */
module PropertyBase {
  import opened PhpValues
  import opened PhpStrings
  import opened PropertyValidation

  /** The multiple-value options: separator, and length bounds (0 = none). */
  datatype MultipleOptions = MultipleOptions(separator: string, min: int, max: int)

  /** The options array given to `setMultipleOptions`: each key may be missing. */
  datatype MultipleOptionsInput = MultipleOptionsInput(separator: Option<string>, min: Option<int>, max: Option<int>)

  const DefaultMultipleOptions: MultipleOptions := MultipleOptions(",", 0, 0)

  /** `array_merge($defaults, $given)`: a given key wins over the default. */
  function MergeMultipleOptions(defaults: MultipleOptions, given: MultipleOptionsInput): (r: MultipleOptions)
    ensures r.separator == if given.separator.Some? then given.separator.value else defaults.separator
    ensures r.min == if given.min.Some? then given.min.value else defaults.min
    ensures r.max == if given.max.Some? then given.max.value else defaults.max
  {
    MultipleOptions(
      match given.separator case Some(s) => s case None => defaults.separator,
      match given.min case Some(n) => n case None => defaults.min,
      match given.max case Some(n) => n case None => defaults.max)
  }

  function Strs(parts: seq<string>): (vs: seq<Value>)
    ensures |vs| == |parts|
    ensures forall i :: 0 <= i < |parts| ==> vs[i] == Str(parts[i])
  {
    seq(|parts|, i requires 0 <= i < |parts| => Str(parts[i]))
  }

  /**
   * `explode($sep, $s)` as a PHP value: the list of pieces, or `false` when
   * the separator is empty (PHP 7 warns and returns false).
   */
  function ExplodeValue(sep: string, s: string): (r: Value)
    ensures |sep| > 0 ==> r == List(Strs(Explode(sep, s)))
    ensures |sep| == 0 ==> !r.Arr?
  {
    if |sep| == 0 then Bool(false) else List(Strs(Explode(sep, s)))
  }

  /** `setVal`'s null rule: the inputs that become null when null is allowed. */
  predicate IsNullInput(raw: Value) {
    raw == Null || raw == Str("")
  }

  /**
   * The value `setVal($raw)` stores, or the exception it throws, given the
   * `allowNull` and `multiple` flags and the multiple separator.
   */
  function CoerceVal(allowNull: bool, multiple: bool, sep: string, raw: Value): (r: Result<Value>)
    ensures allowNull && IsNullInput(raw) ==> r == Ok(Null)
    ensures !allowNull && raw == Null ==> r == Err(InvalidArgumentException)
    ensures r.Ok? && !allowNull ==> r.value != Null
    ensures r.Ok? && multiple && r.value != Null ==> r.value.Arr?
    ensures !multiple && !(allowNull && IsNullInput(raw)) && raw != Null ==> r == Ok(raw)
    ensures multiple && raw.Arr? ==> r == Ok(raw)
    ensures multiple && !raw.Arr? && !raw.Str? && raw != Null ==> r == Err(InvalidArgumentException)
  {
    if allowNull && IsNullInput(raw) then Ok(Null)
    else if !allowNull && raw == Null then Err(InvalidArgumentException)
    else if multiple then
      var v := if raw.Str? then ExplodeValue(sep, raw.s) else raw;
      if v.Arr? then Ok(v) else Err(InvalidArgumentException)
    else Ok(raw)
  }

  /**
   * A string given to a multiple property is split on the separator (and
   * an empty separator is refused).
   */
  lemma MultipleStringIsSplit(allowNull: bool, sep: string, s: string)
    requires !(allowNull && s == "")
    ensures CoerceVal(allowNull, true, sep, Str(s)) ==
      if |sep| > 0 then Ok(List(Strs(Explode(sep, s)))) else Err(InvalidArgumentException)
  {
  }

  /**
   * `setVal` is idempotent: storing the value it produced, under the same
   * configuration, stores it again unchanged. This is what makes
   * `unserialize(serialize())` restore the value.
   */
  lemma CoerceIdempotent(allowNull: bool, multiple: bool, sep: string, raw: Value)
    requires CoerceVal(allowNull, multiple, sep, raw).Ok?
    ensures CoerceVal(allowNull, multiple, sep, CoerceVal(allowNull, multiple, sep, raw).value) ==
      CoerceVal(allowNull, multiple, sep, raw)
  {
    var v := CoerceVal(allowNull, multiple, sep, raw).value;
    if allowNull && IsNullInput(raw) {
    } else if multiple {
      assert v.Arr?;
    } else {
      assert v == raw;
    }
  }

  /** The string form of each element, as `implode` converts them. */
  function StrCastAll(vs: seq<Value>): (r: Result<seq<string>>)
    ensures r.Ok? <==> forall i :: 0 <= i < |vs| ==> !vs[i].Date?
    ensures r.Ok? ==> |r.value| == |vs| && forall i :: 0 <= i < |vs| ==> Ok(r.value[i]) == StrCast(vs[i])
    decreases |vs|
  {
    if |vs| == 0 then Ok([])
    else
      match StrCast(vs[0])
      case Err(e) => Err(e)
      case Ok(s) =>
        match StrCastAll(vs[1..])
        case Err(e) => Err(e)
        case Ok(rest) => Ok([s] + rest)
  }

  /** `implode($sep, $val)` of a PHP array. */
  function ImplodeValues(sep: string, entries: seq<Entry>): Result<string> {
    match StrCastAll(ValuesOf(entries))
    case Err(e) => Err(e)
    case Ok(ss) => Ok(Implode(sep, ss))
  }

  /**
   * With l10n, the entry for the language (`''` when it is missing or
   * null); without, the value itself.
   */
  function Localized(l10n: bool, lang: string, x: Value): Value {
    if l10n then (if IsSet(x, SKey(lang)) then Get(x, SKey(lang)) else Str("")) else x
  }

  /**
   * The value `inputVal` and `displayVal` work on: the argument, or the
   * current value when the argument is null; with l10n, the entry for the
   * language (`''` when it is missing); with multiple, an array joined with
   * the separator. Null when there is nothing to show.
   */
  function Projected(l10n: bool, multiple: bool, sep: string, current: Value, v: Value, lang: string): (r: Result<Value>)
    ensures var x := if v == Null then current else v;
      x == Null ==> r == Ok(Null)
    ensures var x := if v == Null then current else v;
      var y := Localized(l10n, lang, x);
      x != Null && !(multiple && y.Arr?) ==> r == Ok(y)
    ensures var x := if v == Null then current else v;
      var y := Localized(l10n, lang, x);
      x != Null && multiple && y.Arr? ==>
        (r.Ok? <==> forall i :: 0 <= i < |y.entries| ==> !y.entries[i].val.Date?) &&
        (r.Ok? ==> r.value == Str(Implode(sep, StrCastAll(ValuesOf(y.entries)).value)))
    ensures r.Ok? && r.value == Null ==> (if v == Null then current else v) == Null
  {
    var x := if v == Null then current else v;
    if x == Null then Ok(Null)
    else
      var y := Localized(l10n, lang, x);
      if multiple && y.Arr? then
        match ImplodeValues(sep, y.entries)
        case Err(e) => Err(e)
        case Ok(s) => Ok(Str(s))
      else Ok(y)
  }

  /**
   * `inputVal($v, ['lang' => $lang])`: `''` for null, otherwise the
   * projected value, with anything that is not a scalar encoded by `json`.
   */
  function InputValOf(l10n: bool, multiple: bool, sep: string, current: Value, v: Value, lang: string,
                      json: Value -> string): (r: Result<Value>)
    ensures r.Ok? ==> IsScalar(r.value)
    ensures (if v == Null then current else v) == Null ==> r == Ok(Str(""))
    ensures var p := Projected(l10n, multiple, sep, current, v, lang);
      (p.Err? ==> r == Err(p.error)) &&
      (p.Ok? && IsScalar(p.value) ==> r == Ok(p.value)) &&
      (p.Ok? && p.value != Null && !IsScalar(p.value) ==> r == Ok(Str(json(p.value))))
    ensures var x := if v == Null then current else v;
      x != Null && l10n && !IsSet(x, SKey(lang)) ==> r == Ok(Str(""))
    ensures var x := if v == Null then current else v;
      x != Null && !multiple && IsScalar(Localized(l10n, lang, x)) ==> r == Ok(Localized(l10n, lang, x))
  {
    match Projected(l10n, multiple, sep, current, v, lang)
    case Err(e) => Err(e)
    case Ok(p) =>
      if p == Null then Ok(Str(""))
      else if IsScalar(p) then Ok(p)
      else Ok(Str(json(p)))
  }

  /** `displayVal($v, ['lang' => $lang])`: as `inputVal`, but cast with `(string)` instead of encoded. */
  function DisplayValOf(l10n: bool, multiple: bool, sep: string, current: Value, v: Value, lang: string): (r: Result<string>)
    ensures (if v == Null then current else v) == Null ==> r == Ok("")
    ensures var p := Projected(l10n, multiple, sep, current, v, lang);
      (p.Err? ==> r == Err(p.error)) && (p.Ok? ==> r == StrCast(p.value))
    ensures var x := if v == Null then current else v;
      x != Null && l10n && !IsSet(x, SKey(lang)) ==> r == Ok("")
    ensures var x := if v == Null then current else v;
      x != Null && !multiple ==> r == StrCast(Localized(l10n, lang, x))
  {
    match Projected(l10n, multiple, sep, current, v, lang)
    case Err(e) => Err(e)
    case Ok(p) => StrCast(p)
  }

  /**
   * The translation round trip: a translation map stored on a property
   * with l10n on and multiple off is kept as it is, and `inputVal` and
   * `displayVal` for a language give that language's string.
   */
  lemma TranslationRoundTrip(allowNull: bool, sep: string, tr: seq<Entry>, lang: string, s: string,
                             json: Value -> string)
    requires Lookup(tr, SKey(lang)) == Some(Str(s))
    ensures CoerceVal(allowNull, false, sep, Arr(tr)) == Ok(Arr(tr))
    ensures InputValOf(true, false, sep, Arr(tr), Null, lang, json) == Ok(Str(s))
    ensures DisplayValOf(true, false, sep, Arr(tr), Null, lang) == Ok(s)
  {
    assert IsSet(Arr(tr), SKey(lang));
  }

  /**
   * With l10n and multiple both on, a language's list of strings is joined
   * with the separator by `inputVal` and `displayVal`.
   */
  lemma TranslatedListIsJoined(allowNull: bool, sep: string, tr: seq<Entry>, lang: string, parts: seq<string>,
                               json: Value -> string)
    requires Lookup(tr, SKey(lang)) == Some(List(Strs(parts)))
    ensures CoerceVal(allowNull, true, sep, Arr(tr)) == Ok(Arr(tr))
    ensures InputValOf(true, true, sep, Arr(tr), Null, lang, json) == Ok(Str(Implode(sep, parts)))
    ensures DisplayValOf(true, true, sep, Arr(tr), Null, lang) == Ok(Implode(sep, parts))
  {
    assert IsSet(Arr(tr), SKey(lang));
    ValuesOfList(Strs(parts));
    StrCastAllStrs(parts);
  }

  lemma StrCastAllStrs(parts: seq<string>)
    ensures StrCastAll(Strs(parts)) == Ok(parts)
  {
    var r := StrCastAll(Strs(parts));
    assert r.Ok?;
    assert r.value == parts;
  }

  /**
   * The multiple round trip: with l10n off, `setVal($s)` followed by
   * `inputVal()` gives back `$s`, for every string and every non-empty
   * separator.
   */
  lemma SetValThenInputVal(allowNull: bool, sep: string, s: string, lang: string, json: Value -> string)
    requires |sep| > 0
    ensures CoerceVal(allowNull, true, sep, Str(s)).Ok?
    ensures InputValOf(false, true, sep, CoerceVal(allowNull, true, sep, Str(s)).value, Null, lang, json) == Ok(Str(s))
  {
    if allowNull && s == "" {
    } else {
      var parts := Explode(sep, s);
      var v := List(Strs(parts));
      assert CoerceVal(allowNull, true, sep, Str(s)) == Ok(v);
      ValuesOfList(Strs(parts));
      StrCastAllStrs(parts);
      ImplodeExplode(sep, s);
      assert ImplodeValues(sep, v.entries) == Ok(s);
    }
  }

  /** The same round trip through `displayVal`. */
  lemma SetValThenDisplayVal(allowNull: bool, sep: string, s: string, lang: string)
    requires |sep| > 0
    ensures CoerceVal(allowNull, true, sep, Str(s)).Ok?
    ensures DisplayValOf(false, true, sep, CoerceVal(allowNull, true, sep, Str(s)).value, Null, lang) == Ok(s)
  {
    if allowNull && s == "" {
    } else {
      var parts := Explode(sep, s);
      var v := List(Strs(parts));
      assert CoerceVal(allowNull, true, sep, Str(s)) == Ok(v);
      ValuesOfList(Strs(parts));
      StrCastAllStrs(parts);
      ImplodeExplode(sep, s);
      assert ImplodeValues(sep, v.entries) == Ok(s);
    }
  }

  /**
   * The other direction: a list of strings joined with a one-character
   * separator that none of them contains is split back into that list.
   */
  lemma JoinThenSetVal(allowNull: bool, c: char, parts: seq<string>)
    requires |parts| >= 1
    requires forall i :: 0 <= i < |parts| ==> c !in parts[i]
    requires !(allowNull && Implode([c], parts) == "")
    ensures CoerceVal(allowNull, true, [c], Str(Implode([c], parts))) == Ok(List(Strs(parts)))
  {
    ExplodeImplode(c, parts);
  }

  /** The end-to-end example: separator `;`, input `a;b;c`. */
  lemma SemicolonExample(allowNull: bool, json: Value -> string)
    ensures CoerceVal(allowNull, true, ";", Str("a;b;c")) == Ok(List([Str("a"), Str("b"), Str("c")]))
    ensures InputValOf(false, true, ";", List([Str("a"), Str("b"), Str("c")]), Null, "", json) == Ok(Str("a;b;c"))
  {
    var parts := ["a", "b", "c"];
    assert Implode([';'], parts) == "a;b;c";
    JoinThenSetVal(allowNull, ';', parts);
    assert Strs(parts) == [Str("a"), Str("b"), Str("c")];
    SetValThenInputVal(allowNull, ";", "a;b;c", "", json);
  }

  /** The characters the default label turns into spaces. */
  predicate IsLabelBreak(c: char) { c == '.' || c == '_' }

  /** `ucwords(str_replace(['.', '_'], ' ', $ident))`. */
  function DefaultLabel(ident: string): (r: string)
    ensures |r| == |ident|
  {
    LabelSpaces(ident);
    Ucwords(ReplaceEach(ident, [".", "_"], " "))
  }

  /**
   * The character the default label has at position `i`: `.` and `_`
   * become spaces, and a character that starts a word (first, or after a
   * space or one of those two) is upper-cased.
   */
  function LabelChar(ident: string, i: nat): char
    requires i < |ident|
  {
    if IsLabelBreak(ident[i]) then ' '
    else if i == 0 || IsLabelBreak(ident[i - 1]) || IsWordBreak(ident[i - 1]) then UpperChar(ident[i])
    else ident[i]
  }

  /** `str_replace(['.', '_'], ' ', $ident)` turns each `.` and `_` into a space and keeps the rest. */
  lemma LabelSpaces(ident: string)
    ensures var u := ReplaceEach(ident, [".", "_"], " ");
      |u| == |ident| && forall i :: 0 <= i < |ident| ==> u[i] == if IsLabelBreak(ident[i]) then ' ' else ident[i]
  {
    ReplaceAllOneChar(ident, '.', ' ');
    var t := ReplaceChar(ident, '.', ' ');
    ReplaceAllOneChar(t, '_', ' ');
    var u := ReplaceChar(t, '_', ' ');
    assert ReplaceEach(ident, [".", "_"], " ") == ReplaceEach(t, ["_"], " ");
    assert ReplaceEach(t, ["_"], " ") == ReplaceEach(u, [], " ");
  }

  /** The default label, character by character. */
  lemma DefaultLabelCharwise(ident: string)
    ensures |DefaultLabel(ident)| == |ident|
    ensures forall i :: 0 <= i < |ident| ==> DefaultLabel(ident)[i] == LabelChar(ident, i)
  {
    LabelSpaces(ident);
    var u := ReplaceEach(ident, [".", "_"], " ");
    forall i | 0 <= i < |ident| ensures DefaultLabel(ident)[i] == LabelChar(ident, i) {
      assert DefaultLabel(ident)[i] == if i == 0 || IsWordBreak(u[i - 1]) then UpperChar(u[i]) else u[i];
    }
  }

  /** The default label contains no `.` and no `_`. */
  lemma DefaultLabelHasNoBreaks(ident: string)
    ensures forall i :: 0 <= i < |DefaultLabel(ident)| ==> !IsLabelBreak(DefaultLabel(ident)[i])
  {
    DefaultLabelCharwise(ident);
    forall i | 0 <= i < |ident| ensures !IsLabelBreak(LabelChar(ident, i)) {
      var c := ident[i];
      if 'a' <= c <= 'z' {
        assert 'A' <= UpperChar(c) <= 'Z';
      } else {
        assert UpperChar(c) == c;
      }
    }
  }

  const BaseValidationMethods: seq<string> := ["required", "unique", "allowNull"]

  /**
   * The key a value stands for when used as an array offset: integers and
   * strings as such, booleans as 0 or 1, null as `""`; arrays and objects
   * are not valid offsets.
   */
  function ArrayKey(v: Value): (r: Option<Key>)
    ensures v.Int? ==> r == Some(IKey(v.i))
    ensures v.Str? ==> r == Some(SKey(v.s))
    ensures r.None? <==> v.Arr? || v.Date?
  {
    match v
    case Null => Some(SKey(""))
    case Bool(b) => Some(IKey(if b then 1 else 0))
    case Int(i) => Some(IKey(i))
    case Str(s) => Some(SKey(s))
    case Arr(_) => None
    case Date(_) => None
  }

  /** A snapshot of every field of a property, to say what a setter leaves alone. */
  datatype State = State(
    ident: string, val: Value, explicitLabel: Option<string>, l10n: bool, hidden: bool, multiple: bool,
    multipleOptions: Option<MultipleOptions>, required: bool, unique: bool, allowNull: bool,
    storable: bool, active: bool, description: string, notes: string, viewOptions: seq<Entry>)

  class AbstractProperty {
    var ident: string
    var val: Value
    var explicitLabel: Option<string>
    var l10n: bool
    var hidden: bool
    var multiple: bool
    var multipleOptions: Option<MultipleOptions>
    var required: bool
    var unique: bool
    var allowNull: bool
    var storable: bool
    var active: bool
    var description: string
    var notes: string
    var viewOptions: seq<Entry>

    function Snapshot(): State
      reads this
    {
      State(ident, val, explicitLabel, l10n, hidden, multiple, multipleOptions, required, unique, allowNull,
            storable, active, description, notes, viewOptions)
    }

    /** A new property: the defaults of the class's field initialisers. */
    constructor ()
      ensures Snapshot() == State("", Null, None, false, false, false, None, false, false, true,
                                  true, true, "", "", [])
    {
      ident, val, explicitLabel := "", Null, None;
      l10n, hidden, multiple := false, false, false;
      multipleOptions := None;
      required, unique, allowNull := false, false, true;
      storable, active := true, true;
      description, notes := "", "";
      viewOptions := [];
    }

    /** `setIdent`: only a string is accepted. */
    method SetIdent(v: Value) returns (r: Result<()>)
      modifies this
      ensures r.Ok? <==> v.Str?
      ensures Snapshot() == if v.Str? then old(Snapshot()).(ident := v.s) else old(Snapshot())
    {
      if !v.Str? {
        return Err(InvalidArgumentException);
      }
      ident := v.s;
      return Ok(());
    }

    /** The flag setters store the truthiness of their argument (`!!$x`). */
    method SetL10n(b: Value)
      modifies this
      ensures Snapshot() == old(Snapshot()).(l10n := Truthy(b))
    {
      l10n := Truthy(b);
    }

    method SetHidden(b: Value)
      modifies this
      ensures Snapshot() == old(Snapshot()).(hidden := Truthy(b))
    {
      hidden := Truthy(b);
    }

    method SetMultiple(b: Value)
      modifies this
      ensures Snapshot() == old(Snapshot()).(multiple := Truthy(b))
    {
      multiple := Truthy(b);
    }

    method SetRequired(b: Value)
      modifies this
      ensures Snapshot() == old(Snapshot()).(required := Truthy(b))
    {
      required := Truthy(b);
    }

    method SetUnique(b: Value)
      modifies this
      ensures Snapshot() == old(Snapshot()).(unique := Truthy(b))
    {
      unique := Truthy(b);
    }

    method SetAllowNull(b: Value)
      modifies this
      ensures Snapshot() == old(Snapshot()).(allowNull := Truthy(b))
    {
      allowNull := Truthy(b);
    }

    method SetStorable(b: Value)
      modifies this
      ensures Snapshot() == old(Snapshot()).(storable := Truthy(b))
    {
      storable := Truthy(b);
    }

    method SetActive(b: Value)
      modifies this
      ensures Snapshot() == old(Snapshot()).(active := Truthy(b))
    {
      active := Truthy(b);
    }

    method SetLabel(s: string)
      modifies this
      ensures Snapshot() == old(Snapshot()).(explicitLabel := Some(s))
    {
      explicitLabel := Some(s);
    }

    method SetDescription(s: string)
      modifies this
      ensures Snapshot() == old(Snapshot()).(description := s)
    {
      description := s;
    }

    method SetNotes(s: string)
      modifies this
      ensures Snapshot() == old(Snapshot()).(notes := s)
    {
      notes := s;
    }

    method SetViewOptions(opts: seq<Entry>)
      modifies this
      ensures Snapshot() == old(Snapshot()).(viewOptions := opts)
    {
      viewOptions := opts;
    }

    /** `setMultipleOptions`: the given options merged over the defaults. */
    method SetMultipleOptions(given: MultipleOptionsInput)
      modifies this
      ensures Snapshot() == old(Snapshot()).(multipleOptions := Some(MergeMultipleOptions(DefaultMultipleOptions, given)))
      ensures MultipleOptionsOf().separator == if given.separator.Some? then given.separator.value else ","
      ensures MultipleOptionsOf().min == (if given.min.Some? then given.min.value else 0)
      ensures MultipleOptionsOf().max == (if given.max.Some? then given.max.value else 0)
    {
      multipleOptions := Some(MergeMultipleOptions(DefaultMultipleOptions, given));
    }

    /** `multipleOptions()`: the defaults until options are set. */
    function MultipleOptionsOf(): (r: MultipleOptions)
      reads this
      ensures multipleOptions.None? ==> r == DefaultMultipleOptions
      ensures multipleOptions.Some? ==> r == multipleOptions.value
    {
      match multipleOptions
      case None => DefaultMultipleOptions
      case Some(o) => o
    }

    /** `multipleSeparator()`: `,` until options are set, then the separator they hold. */
    function MultipleSeparator(): (r: string)
      reads this
      ensures multipleOptions.None? ==> r == ","
      ensures multipleOptions.Some? ==> r == multipleOptions.value.separator
    {
      MultipleOptionsOf().separator
    }

    /** `setVal($raw)`: store the coerced value, or throw and leave the value as it was. */
    method SetVal(raw: Value) returns (r: Result<()>)
      modifies this
      ensures var c := CoerceVal(old(allowNull), old(multiple), old(MultipleSeparator()), raw);
        (r.Ok? <==> c.Ok?) &&
        Snapshot() == if c.Ok? then old(Snapshot()).(val := c.value) else old(Snapshot())
    {
      var c := CoerceVal(allowNull, multiple, MultipleSeparator(), raw);
      if c.Err? {
        return Err(c.error);
      }
      val := c.value;
      return Ok(());
    }

    /** `serialize()`: only the value is externalised. */
    function Serialize(): (r: Value)
      reads this
      ensures r == Snapshot().val
    {
      val
    }

    /** `parseVal($v)`: the base property returns the value intact. */
    function ParseVal(v: Value): (r: Value)
      ensures r == v
    {
      v
    }

    /** `unserialize($data)`: the decoded value goes through `setVal`. */
    method Unserialize(data: Value) returns (r: Result<()>)
      modifies this
      ensures var c := CoerceVal(old(allowNull), old(multiple), old(MultipleSeparator()), data);
        (r.Ok? <==> c.Ok?) &&
        Snapshot() == if c.Ok? then old(Snapshot()).(val := c.value) else old(Snapshot())
    {
      r := SetVal(data);
    }

    /** `inputVal($v, ['lang' => $lang])`. */
    function InputVal(v: Value, lang: string, json: Value -> string): (r: Result<Value>)
      reads this
      ensures r == InputValOf(l10n, multiple, MultipleSeparator(), val, v, lang, json)
      ensures r.Ok? ==> IsScalar(r.value)
      ensures v == Null && val == Null ==> r == Ok(Str(""))
    {
      InputValOf(l10n, multiple, MultipleSeparator(), val, v, lang, json)
    }

    /** `displayVal($v, ['lang' => $lang])`. */
    function DisplayVal(v: Value, lang: string): (r: Result<string>)
      reads this
      ensures r == DisplayValOf(l10n, multiple, MultipleSeparator(), val, v, lang)
      ensures v == Null && val == Null ==> r == Ok("")
    {
      DisplayValOf(l10n, multiple, MultipleSeparator(), val, v, lang)
    }

    /** `label()`: the explicit label, or one derived from the ident. */
    function Label(): (r: string)
      reads this
      ensures explicitLabel.Some? ==> r == explicitLabel.value
      ensures explicitLabel.None? ==> r == DefaultLabel(ident)
    {
      match explicitLabel
      case Some(l) => l
      case None => DefaultLabel(ident)
    }

    /** `viewOptions($ident)`: all options without an ident, one entry with it, `[]` otherwise. */
    function ViewOptions(displayIdent: Value): (r: Value)
      reads this
      ensures |viewOptions| == 0 ==> r == Arr([])
      ensures |viewOptions| > 0 && !Truthy(displayIdent) ==> r == Arr(viewOptions)
      ensures |viewOptions| > 0 && Truthy(displayIdent) ==>
        r == if ArrayKey(displayIdent).Some? && IsSet(Arr(viewOptions), ArrayKey(displayIdent).value)
             then Get(Arr(viewOptions), ArrayKey(displayIdent).value) else Arr([])
    {
      if |viewOptions| == 0 then Arr([])
      else if !Truthy(displayIdent) then Arr(viewOptions)
      else
        match ArrayKey(displayIdent)
        case None => Arr([])
        case Some(k) => if IsSet(Arr(viewOptions), k) then Get(Arr(viewOptions), k) else Arr([])
    }

    function ValidationMethods(): (r: seq<string>)
      ensures r == BaseValidationMethods
    {
      BaseValidationMethods
    }

    /** `validateRequired()`: fails when the property is required and its value is falsy. */
    function ValidateRequired(): (r: Verdict)
      reads this
      ensures r.Fail? <==> required && !Truthy(val)
      ensures r.Fail? ==> r.code == "required"
    {
      if required && !Truthy(val) then Fail("required") else Pass
    }

    /** `validateUnique()`: a stub that always passes. */
    function ValidateUnique(): (r: Verdict)
      reads this
      ensures r == Pass
    {
      Pass
    }

    /** `validateAllowNull()`: fails when null is not allowed and the value is null. */
    function ValidateAllowNull(): (r: Verdict)
      reads this
      ensures r.Fail? <==> !allowNull && val == Null
      ensures r.Fail? ==> r.code == "allowNull"
    {
      if !allowNull && val == Null then Fail("allowNull") else Pass
    }
  }

  /** After any successful `setVal` on a property that refuses null, the value is not null. */
  method SetValKeepsNonNull(p: AbstractProperty, raw: Value) returns (r: Result<()>)
    requires !p.allowNull
    modifies p
    ensures r.Ok? ==> p.val != Null && p.ValidateAllowNull() == Pass
    ensures raw == Null ==> r.Err? && p.val == old(p.val)
  {
    r := p.SetVal(raw);
  }

  /**
   * `unserialize(serialize())` right after a successful `setVal`, with the
   * configuration unchanged, leaves the property exactly as `setVal` left it.
   */
  method StoreThenRestore(p: AbstractProperty, raw: Value) returns (r: Result<()>)
    modifies p
    ensures var c := CoerceVal(old(p.allowNull), old(p.multiple), old(p.MultipleSeparator()), raw);
      (r.Ok? <==> c.Ok?) && (c.Ok? ==> p.Snapshot() == old(p.Snapshot()).(val := c.value))
  {
    ghost var an, mu, sep := p.allowNull, p.multiple, p.MultipleSeparator();
    r := p.SetVal(raw);
    if r.Ok? {
      var stored := p.Snapshot();
      assert an == p.allowNull && mu == p.multiple && sep == p.MultipleSeparator();
      CoerceIdempotent(an, mu, sep, raw);
      var data := p.Serialize();
      assert CoerceVal(an, mu, sep, data) == Ok(data);
      var restored := p.Unserialize(data);
      assert p.Snapshot() == stored;
    }
  }

  /** The handlers of the base checks, under the names the validator looks up. */
  function BaseHandlers(p: AbstractProperty): (h: map<string, Verdict>)
    reads p
    ensures forall m :: m in BaseValidationMethods ==> Callable(m, h)
  {
    map[HandlerName("required") := p.ValidateRequired(),
        HandlerName("unique") := p.ValidateUnique(),
        HandlerName("allowNull") := p.ValidateAllowNull()]
  }

  /**
   * Validating a base property with its base checks passes exactly when it
   * is not (required and falsy) and not (null where null is refused).
   */
  lemma BaseChecksPass(p: AbstractProperty)
    ensures AllPass(p.ValidationMethods(), BaseHandlers(p)) <==>
      !(p.required && !Truthy(p.val)) && !(!p.allowNull && p.val == Null)
  {
    var ms := p.ValidationMethods();
    var h := BaseHandlers(p);
    assert Fails(ms[0], h) <==> p.required && !Truthy(p.val);
    assert !Fails(ms[1], h);
    assert Fails(ms[2], h) <==> !p.allowNull && p.val == Null;
  }
}
