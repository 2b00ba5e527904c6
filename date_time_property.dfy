/**
 * The date-time property: a property whose value is null or a date-time
 * object. Multiple values are refused; blank input becomes null (or is
 * refused when null is not allowed); strings are parsed into date-times;
 * optional `min` and `max` bounds are checked by two extra validation rules.
 *
 * A date-time is `Date(instant)`, an integer standing for a point on the
 * time line. PHP's `DateTime` parser and `format()` are not modelled: they
 * are the parameters `parse` (a string to an instant, or nothing when
 * `new DateTime($s)` throws) and `fmt` (a format string and an instant to
 * the formatted text).
 */
module DateTimeProp {
  import opened PhpValues
  import opened PhpStrings
  import opened PropertyValidation
  import opened PropertyBase

  type Parser = string -> Option<int>
  type Formatter = (string, int) -> string

  /** `DEFAULT_FORMAT`, and the fixed format of `inputVal` and `storageVal`. */
  const DefaultFormat: string := "Y-m-d H:i:s"
  /** `DateTime::ATOM`, the format of `jsonSerialize`. */
  const AtomFormat: string := "Y-m-d\\TH:i:sP"

  /** `strlen($v)` is truthy (an array or an object gives null, with a warning). */
  predicate HasLength(v: Value) {
    match v
    case Null => false
    case Bool(b) => b
    case Int(_) => true
    case Str(s) => |s| > 0
    case Arr(_) => false
    case Date(_) => false
  }

  /**
   * The blank inputs of `dateTimeVal`: null, a string that is empty once
   * trimmed, or an array none of whose elements has a length.
   */
  predicate IsBlank(v: Value) {
    || v == Null
    || (v.Str? && Trim(v.s) == "")
    || (v.Arr? && forall i :: 0 <= i < |v.entries| ==> !HasLength(v.entries[i].val))
  }

  /**
   * `dateTimeVal($v)`: null for blank input (when null is allowed), the
   * date-time itself, or the parse of a string. An unparsable string
   * escapes as the plain exception thrown by `new DateTime`.
   */
  function DateTimeVal(allowNull: bool, parse: Parser, v: Value): (r: Result<Value>)
    ensures r.Ok? ==> r.value == Null || r.value.Date?
    ensures r.Ok? && r.value == Null <==> allowNull && IsBlank(v)
    ensures !allowNull && IsBlank(v) ==> r == Err(InvalidArgumentException)
    ensures v.Date? ==> r == Ok(v)
    ensures v.Str? && !IsBlank(v) ==>
      r == if parse(v.s).Some? then Ok(Date(parse(v.s).value)) else Err(PlainException)
    ensures !IsBlank(v) && !v.Str? && !v.Date? ==> r == Err(InvalidArgumentException)
  {
    if IsBlank(v) then
      if allowNull then Ok(Null) else Err(InvalidArgumentException)
    else if v.Str? then
      match parse(v.s)
      case None => Err(PlainException)
      case Some(t) => Ok(Date(t))
    else if v.Date? then Ok(v)
    else Err(InvalidArgumentException)
  }

  /** Coercing a coerced value again changes nothing: what `setVal` stores is a fixpoint. */
  lemma DateTimeValIdempotent(allowNull: bool, parse: Parser, v: Value)
    requires DateTimeVal(allowNull, parse, v).Ok?
    ensures DateTimeVal(allowNull, parse, DateTimeVal(allowNull, parse, v).value) == DateTimeVal(allowNull, parse, v)
  {
  }

  /** An array of empty strings, nulls and `false`s is blank, as an empty one is. */
  lemma EmptyFragmentsAreBlank(allowNull: bool, parse: Parser, xs: seq<Value>)
    requires forall i :: 0 <= i < |xs| ==> xs[i] == Str("") || xs[i] == Null || xs[i] == Bool(false)
    ensures DateTimeVal(allowNull, parse, List(xs)) ==
      if allowNull then Ok(Null) else Err(InvalidArgumentException)
  {
    var v := List(xs);
    assert forall i :: 0 <= i < |v.entries| ==> v.entries[i].val == xs[i];
  }

  /** An array with one non-empty fragment is not a date-time: it is refused. */
  lemma FragmentsAreRefused(allowNull: bool, parse: Parser, s: string)
    requires |s| > 0
    ensures DateTimeVal(allowNull, parse, List([Str(s)])) == Err(InvalidArgumentException)
  {
    var v := List([Str(s)]);
    assert HasLength(v.entries[0].val);
  }

  /**
   * `setMin($b)`/`setMax($b)`: null clears the bound; a string is parsed, and
   * a parse failure is rethrown as an invalid argument; a date-time is kept.
   */
  function BoundOf(parse: Parser, b: Value): (r: Result<Option<int>>)
    ensures b == Null ==> r == Ok(None)
    ensures b.Date? ==> r == Ok(Some(b.instant))
    ensures b.Str? ==> r == if parse(b.s).Some? then Ok(Some(parse(b.s).value)) else Err(InvalidArgumentException)
    ensures r.Err? ==> r.error == InvalidArgumentException
    ensures r.Ok? && r.value.None? ==> b == Null
  {
    if b == Null then Ok(None)
    else if b.Str? then
      match parse(b.s)
      case None => Err(InvalidArgumentException)
      case Some(t) => Ok(Some(t))
    else if b.Date? then Ok(Some(b.instant))
    else Err(InvalidArgumentException)
  }

  /**
   * A non-blank string accepted as a bound stands for the same instant as
   * when it is given as the value; the two differ only in the exception
   * raised for an unparsable string.
   */
  lemma BoundAgreesWithValue(allowNull: bool, parse: Parser, s: string)
    requires Trim(s) != ""
    ensures BoundOf(parse, Str(s)).Ok? <==> DateTimeVal(allowNull, parse, Str(s)).Ok?
    ensures BoundOf(parse, Str(s)).Ok? ==>
      DateTimeVal(allowNull, parse, Str(s)) == Ok(Date(BoundOf(parse, Str(s)).value.value))
    ensures BoundOf(parse, Str(s)).Err? ==>
      BoundOf(parse, Str(s)).error == InvalidArgumentException &&
      DateTimeVal(allowNull, parse, Str(s)).error == PlainException
  {
  }

  /**
   * `validateMin()`: passes without a minimum; otherwise `$val >= $min`
   * under PHP's comparison, where null against an object compares as
   * `false >= true`, so a null value fails.
   */
  function MinCheck(min: Option<int>, val: Value): (r: Verdict)
    requires val == Null || val.Date?
    ensures r.Fail? ==> r.code == "min"
    ensures min.None? ==> r == Pass
    ensures min.Some? && val.Date? ==> (r == Pass <==> val.instant >= min.value)
    ensures min.Some? && val == Null ==> r.Fail?
  {
    match min
    case None => Pass
    case Some(m) => if val.Date? && val.instant >= m then Pass else Fail("min")
  }

  /**
   * `validateMax()`: passes without a maximum; otherwise `$val <= $max`,
   * where null against an object compares as `false <= true`, so a null
   * value passes.
   */
  function MaxCheck(max: Option<int>, val: Value): (r: Verdict)
    requires val == Null || val.Date?
    ensures r.Fail? ==> r.code == "max"
    ensures max.None? ==> r == Pass
    ensures max.Some? && val.Date? ==> (r == Pass <==> val.instant <= max.value)
    ensures val == Null ==> r == Pass
  {
    match max
    case None => Pass
    case Some(m) => if val == Null || val.instant <= m then Pass else Fail("max")
  }

  /** With both bounds set, a date-time passes both checks exactly when it lies between them. */
  lemma BoundsAreAnInterval(lo: int, hi: int, t: int)
    ensures MinCheck(Some(lo), Date(t)) == Pass && MaxCheck(Some(hi), Date(t)) == Pass <==> lo <= t <= hi
  {
  }

  /** Bounds in the wrong order reject every date-time, while a null value fails only the minimum. */
  lemma InvertedBoundsRejectAll(lo: int, hi: int, v: Value)
    requires hi < lo
    requires v == Null || v.Date?
    ensures MinCheck(Some(lo), v).Fail? || MaxCheck(Some(hi), v).Fail?
    ensures v == Null ==> MinCheck(Some(lo), v).Fail? && MaxCheck(Some(hi), v) == Pass
  {
  }

  /**
   * `inputVal($v)` as written: the argument is coerced, but then the
   * property's OWN value is formatted, so a date-time argument on a
   * property whose value is null calls `format()` on null.
   */
  function InputValAsWritten(allowNull: bool, current: Value, parse: Parser, fmt: Formatter, v: Value): (r: Result<Value>)
    ensures DateTimeVal(allowNull, parse, v).Err? ==> r == Err(DateTimeVal(allowNull, parse, v).error)
    ensures DateTimeVal(allowNull, parse, v) == Ok(Null) ==> r == Ok(Str(""))
    ensures DateTimeVal(allowNull, parse, v).Ok? && DateTimeVal(allowNull, parse, v).value.Date? ==>
      r == if current.Date? then Ok(Str(fmt(DefaultFormat, current.instant))) else Err(NullMethodCall)
  {
    match DateTimeVal(allowNull, parse, v)
    case Err(e) => Err(e)
    case Ok(d) =>
      if d.Date? then
        if current.Date? then Ok(Str(fmt(DefaultFormat, current.instant))) else Err(NullMethodCall)
      else Ok(Str(""))
  }

  /** `inputVal($v)` as evidently intended: the coerced argument is formatted. */
  function InputValIntended(allowNull: bool, parse: Parser, fmt: Formatter, v: Value): (r: Result<Value>)
    ensures DateTimeVal(allowNull, parse, v).Err? ==> r == Err(DateTimeVal(allowNull, parse, v).error)
    ensures r.Ok? ==> r.value.Str?
    ensures DateTimeVal(allowNull, parse, v).Ok? && DateTimeVal(allowNull, parse, v).value.Date? ==>
      r == Ok(Str(fmt(DefaultFormat, DateTimeVal(allowNull, parse, v).value.instant)))
    ensures v.Date? ==> r == Ok(Str(fmt(DefaultFormat, v.instant)))
    ensures allowNull && IsBlank(v) ==> r == Ok(Str(""))
  {
    match DateTimeVal(allowNull, parse, v)
    case Err(e) => Err(e)
    case Ok(d) => if d.Date? then Ok(Str(fmt(DefaultFormat, d.instant))) else Ok(Str(""))
  }

  /**
   * `storageVal($v)` as written: as `inputVal`, the property's own value
   * is formatted; a blank argument gives null (it cannot reach the
   * `throw`, since `dateTimeVal` has already refused blank input when null
   * is not allowed).
   */
  function StorageValAsWritten(allowNull: bool, current: Value, parse: Parser, fmt: Formatter, v: Value): (r: Result<Value>)
    ensures DateTimeVal(allowNull, parse, v).Err? ==> r == Err(DateTimeVal(allowNull, parse, v).error)
    ensures DateTimeVal(allowNull, parse, v) == Ok(Null) ==> r == Ok(Null)
    ensures DateTimeVal(allowNull, parse, v).Ok? && DateTimeVal(allowNull, parse, v).value.Date? ==>
      r == if current.Date? then Ok(Str(fmt(DefaultFormat, current.instant))) else Err(NullMethodCall)
  {
    match DateTimeVal(allowNull, parse, v)
    case Err(e) => Err(e)
    case Ok(d) =>
      if d.Date? then
        if current.Date? then Ok(Str(fmt(DefaultFormat, current.instant))) else Err(NullMethodCall)
      else if allowNull then Ok(Null)
      else Err(PlainException)
  }

  /** `storageVal($v)` as evidently intended: the coerced argument is formatted for storage. */
  function StorageValIntended(allowNull: bool, parse: Parser, fmt: Formatter, v: Value): (r: Result<Value>)
    ensures DateTimeVal(allowNull, parse, v).Err? ==> r == Err(DateTimeVal(allowNull, parse, v).error)
    ensures r.Ok? ==> r.value == Null || r.value.Str?
    ensures r.Ok? && r.value == Null <==> allowNull && IsBlank(v)
    ensures v.Date? ==> r == Ok(Str(fmt(DefaultFormat, v.instant)))
  {
    match DateTimeVal(allowNull, parse, v)
    case Err(e) => Err(e)
    case Ok(d) => if d.Date? then Ok(Str(fmt(DefaultFormat, d.instant))) else Ok(Null)
  }

  /**
   * `inputVal` and `storageVal` as written ignore their argument: on a
   * property with no value, a date-time argument makes them call `format()`
   * on null, where the argument was meant to be formatted.
   */
  lemma FormatsStoredValue(allowNull: bool, parse: Parser, fmt: Formatter, t: int)
    ensures InputValAsWritten(allowNull, Null, parse, fmt, Date(t)) == Err(NullMethodCall)
    ensures StorageValAsWritten(allowNull, Null, parse, fmt, Date(t)) == Err(NullMethodCall)
    ensures InputValIntended(allowNull, parse, fmt, Date(t)) == Ok(Str(fmt(DefaultFormat, t)))
    ensures StorageValIntended(allowNull, parse, fmt, Date(t)) == Ok(Str(fmt(DefaultFormat, t)))
  {
  }

  /**
   * With the stored value a different instant, the written `inputVal` and
   * `storageVal` return the stored instant's text whenever the formatter
   * tells the two instants apart.
   */
  lemma FormatsStoredInstant(allowNull: bool, parse: Parser, fmt: Formatter, stored: int, t: int)
    requires fmt(DefaultFormat, stored) != fmt(DefaultFormat, t)
    ensures InputValAsWritten(allowNull, Date(stored), parse, fmt, Date(t)) != InputValIntended(allowNull, parse, fmt, Date(t))
    ensures StorageValAsWritten(allowNull, Date(stored), parse, fmt, Date(t)) != StorageValIntended(allowNull, parse, fmt, Date(t))
  {
  }

  /**
   * The intended `storageVal` round-trips through `setVal`: when the parser
   * reads back what the storage format writes, storing the text gives the
   * same instant again.
   */
  lemma StorageValRoundTrip(allowNull: bool, parse: Parser, fmt: Formatter, v: Value)
    requires StorageValIntended(allowNull, parse, fmt, v).Ok?
    requires forall t :: parse(fmt(DefaultFormat, t)) == Some(t) && Trim(fmt(DefaultFormat, t)) != ""
    ensures DateTimeVal(allowNull, parse, StorageValIntended(allowNull, parse, fmt, v).value) == DateTimeVal(allowNull, parse, v)
  {
    var d := DateTimeVal(allowNull, parse, v).value;
    if d.Date? {
      assert parse(fmt(DefaultFormat, d.instant)) == Some(d.instant);
      assert Trim(fmt(DefaultFormat, d.instant)) != "";
    }
  }

  /**
   * `displayVal($v)`: the coerced argument in the property's display
   * format; `''` when it is null. The stored value is not consulted.
   */
  function DateDisplayVal(allowNull: bool, format: string, parse: Parser, fmt: Formatter, v: Value): (r: Result<string>)
    ensures DateTimeVal(allowNull, parse, v).Err? ==> r == Err(DateTimeVal(allowNull, parse, v).error)
    ensures DateTimeVal(allowNull, parse, v).Ok? && DateTimeVal(allowNull, parse, v).value.Date? ==>
      r == Ok(fmt(format, DateTimeVal(allowNull, parse, v).value.instant))
    ensures v.Date? ==> r == Ok(fmt(format, v.instant))
    ensures allowNull && IsBlank(v) ==> r == Ok("")
  {
    match DateTimeVal(allowNull, parse, v)
    case Err(e) => Err(e)
    case Ok(d) => if d.Date? then Ok(fmt(format, d.instant)) else Ok("")
  }

  /**
   * Displaying depends only on the coerced value: displaying what `setVal`
   * would store gives the same text as displaying the raw argument.
   */
  lemma DisplayValOfCoerced(allowNull: bool, format: string, parse: Parser, fmt: Formatter, v: Value)
    requires DateTimeVal(allowNull, parse, v).Ok?
    ensures DateDisplayVal(allowNull, format, parse, fmt, DateTimeVal(allowNull, parse, v).value) ==
      DateDisplayVal(allowNull, format, parse, fmt, v)
  {
    DateTimeValIdempotent(allowNull, parse, v);
  }

  /**
   * In the default format, `displayVal` gives the text the intended
   * `inputVal` gives, and both refuse the same arguments.
   */
  lemma DisplayValIsIntendedInputVal(allowNull: bool, parse: Parser, fmt: Formatter, v: Value)
    ensures DateDisplayVal(allowNull, DefaultFormat, parse, fmt, v).Ok? <==> InputValIntended(allowNull, parse, fmt, v).Ok?
    ensures DateDisplayVal(allowNull, DefaultFormat, parse, fmt, v).Ok? ==>
      InputValIntended(allowNull, parse, fmt, v) == Ok(Str(DateDisplayVal(allowNull, DefaultFormat, parse, fmt, v).value))
  {
  }

  /** `jsonSerialize()`: null stays null, a date-time is written in the ATOM format. */
  function JsonOf(fmt: Formatter, val: Value): (r: Value)
    ensures val == Null ==> r == Null
    ensures val.Date? ==> r == Str(fmt(AtomFormat, val.instant))
    ensures !val.Date? ==> r == val
  {
    if val.Date? then Str(fmt(AtomFormat, val.instant)) else val
  }

  const DateTimeValidationMethods: seq<string> := BaseValidationMethods + ["min", "max"]

  class DateTimeProperty {
    const base: AbstractProperty
    var min: Option<int>
    var max: Option<int>
    var format: string

    /** The value is null or a date-time, and the multiple flag is never raised. */
    ghost predicate Valid()
      reads this, base
    {
      !base.multiple && (base.val == Null || base.val.Date?)
    }

    constructor ()
      ensures fresh(base) && Valid()
      ensures base.Snapshot() == State("", Null, None, false, false, false, None, false, false, true,
                                       true, true, "", "", [])
      ensures min.None? && max.None? && format == DefaultFormat
    {
      base := new AbstractProperty();
      min, max := None, None;
      format := DefaultFormat;
    }

    /** `setMultiple($m)`: a truthy argument is refused; nothing is ever stored. */
    method SetMultiple(m: Value) returns (r: Result<()>)
      ensures r.Ok? <==> !Truthy(m)
      ensures r.Err? ==> r.error == InvalidArgumentException
    {
      if Truthy(m) {
        return Err(InvalidArgumentException);
      }
      return Ok(());
    }

    /** `multiple()`: always false. */
    function Multiple(): (b: bool)
      ensures !b
    {
      false
    }

    /** `setVal($v)`: store the coerced date-time, or throw and keep the value. */
    method SetVal(raw: Value, parse: Parser) returns (r: Result<()>)
      modifies base
      ensures var c := DateTimeVal(old(base.allowNull), parse, raw);
        (r.Ok? <==> c.Ok?) &&
        base.Snapshot() == if c.Ok? then old(base.Snapshot()).(val := c.value) else old(base.Snapshot())
      ensures old(Valid()) ==> Valid()
    {
      var c := DateTimeVal(base.allowNull, parse, raw);
      if c.Err? {
        return Err(c.error);
      }
      base.val := c.value;
      return Ok(());
    }

    /** `setMin($b)`: the bound, cleared by null; refused input keeps the old bound. */
    method SetMin(b: Value, parse: Parser) returns (r: Result<()>)
      modifies this
      ensures var c := BoundOf(parse, b);
        (r.Ok? <==> c.Ok?) && min == (if c.Ok? then c.value else old(min))
      ensures max == old(max) && format == old(format)
    {
      var c := BoundOf(parse, b);
      if c.Err? {
        return Err(c.error);
      }
      min := c.value;
      return Ok(());
    }

    /** `setMax($b)`: as `setMin`, for the upper bound. */
    method SetMax(b: Value, parse: Parser) returns (r: Result<()>)
      modifies this
      ensures var c := BoundOf(parse, b);
        (r.Ok? <==> c.Ok?) && max == (if c.Ok? then c.value else old(max))
      ensures min == old(min) && format == old(format)
    {
      var c := BoundOf(parse, b);
      if c.Err? {
        return Err(c.error);
      }
      max := c.value;
      return Ok(());
    }

    /** `setFormat($f)`: only a string is accepted. */
    method SetFormat(f: Value) returns (r: Result<()>)
      modifies this
      ensures r.Ok? <==> f.Str?
      ensures format == if f.Str? then f.s else old(format)
      ensures min == old(min) && max == old(max)
    {
      if !f.Str? {
        return Err(InvalidArgumentException);
      }
      format := f.s;
      return Ok(());
    }

    /**
     * `inputVal($v)`, as written: a date-time argument gives the STORED
     * value in the fixed format, and blank input gives `''`.
     */
    function InputVal(v: Value, parse: Parser, fmt: Formatter): (r: Result<Value>)
      reads this, base
      ensures DateTimeVal(base.allowNull, parse, v).Err? ==> r == Err(DateTimeVal(base.allowNull, parse, v).error)
      ensures base.allowNull && IsBlank(v) ==> r == Ok(Str(""))
      ensures v.Date? && base.val.Date? ==> r == Ok(Str(fmt(DefaultFormat, base.val.instant)))
      ensures v.Date? && base.val == Null ==> r == Err(NullMethodCall)
    {
      InputValAsWritten(base.allowNull, base.val, parse, fmt, v)
    }

    /**
     * `storageVal($v)`, as written: a date-time argument gives the STORED
     * value in the fixed format, and blank input gives null.
     */
    function StorageVal(v: Value, parse: Parser, fmt: Formatter): (r: Result<Value>)
      reads this, base
      ensures DateTimeVal(base.allowNull, parse, v).Err? ==> r == Err(DateTimeVal(base.allowNull, parse, v).error)
      ensures base.allowNull && IsBlank(v) ==> r == Ok(Null)
      ensures v.Date? && base.val.Date? ==> r == Ok(Str(fmt(DefaultFormat, base.val.instant)))
      ensures v.Date? && base.val == Null ==> r == Err(NullMethodCall)
    {
      StorageValAsWritten(base.allowNull, base.val, parse, fmt, v)
    }

    /** `displayVal($v)`: the argument in the property's own display format. */
    function DisplayVal(v: Value, parse: Parser, fmt: Formatter): (r: Result<string>)
      reads this, base
      ensures DateTimeVal(base.allowNull, parse, v).Err? ==> r == Err(DateTimeVal(base.allowNull, parse, v).error)
      ensures DateTimeVal(base.allowNull, parse, v).Ok? && DateTimeVal(base.allowNull, parse, v).value.Date? ==>
        r == Ok(fmt(format, DateTimeVal(base.allowNull, parse, v).value.instant))
      ensures v.Date? ==> r == Ok(fmt(format, v.instant))
      ensures base.allowNull && IsBlank(v) ==> r == Ok("")
      ensures !base.allowNull && IsBlank(v) ==> r == Err(InvalidArgumentException)
    {
      DateDisplayVal(base.allowNull, format, parse, fmt, v)
    }

    /** `jsonSerialize()`: null, or the stored date-time in the ATOM format. */
    function JsonSerialize(fmt: Formatter): (r: Value)
      reads this, base
      ensures base.val == Null ==> r == Null
      ensures base.val.Date? ==> r == Str(fmt(AtomFormat, base.val.instant))
      ensures !base.val.Date? ==> r == base.val
    {
      JsonOf(fmt, base.val)
    }

    /** `validationMethods()`: the base checks, then `min` and `max`. */
    function ValidationMethods(): (r: seq<string>)
      reads this, base
      ensures |r| == |base.ValidationMethods()| + 2
      ensures r[..|base.ValidationMethods()|] == base.ValidationMethods()
      ensures r[|base.ValidationMethods()|..] == ["min", "max"]
    {
      base.ValidationMethods() + ["min", "max"]
    }

    /** `validateMin()`: a stored date-time passes exactly when it is not before the minimum. */
    function ValidateMin(): (r: Verdict)
      reads this, base
      requires Valid()
      ensures r.Fail? ==> r.code == "min"
      ensures min.None? ==> r == Pass
      ensures min.Some? && base.val.Date? ==> (r == Pass <==> base.val.instant >= min.value)
      ensures min.Some? && base.val == Null ==> r.Fail?
    {
      MinCheck(min, base.val)
    }

    /** `validateMax()`: a stored date-time passes exactly when it is not after the maximum. */
    function ValidateMax(): (r: Verdict)
      reads this, base
      requires Valid()
      ensures r.Fail? ==> r.code == "max"
      ensures max.None? ==> r == Pass
      ensures max.Some? && base.val.Date? ==> (r == Pass <==> base.val.instant <= max.value)
      ensures base.val == Null ==> r == Pass
    {
      MaxCheck(max, base.val)
    }
  }

  /** The handlers of a date-time property's checks, under the names the validator looks up. */
  function DateTimeHandlers(p: DateTimeProperty): (h: map<string, Verdict>)
    reads p, p.base
    requires p.Valid()
    ensures forall m :: m in DateTimeValidationMethods ==> Callable(m, h)
  {
    BaseHandlers(p.base)[HandlerName("min") := p.ValidateMin()][HandlerName("max") := p.ValidateMax()]
  }

  /** Five checks with distinct handler names pass exactly when none of their verdicts fails. */
  lemma FiveHandlersPass(ms: seq<string>, vs: seq<Verdict>)
    requires |ms| == 5 && |vs| == 5
    requires forall i, j :: 0 <= i < j < 5 ==> HandlerName(ms[i]) != HandlerName(ms[j])
    ensures var h := map[HandlerName(ms[0]) := vs[0], HandlerName(ms[1]) := vs[1], HandlerName(ms[2]) := vs[2],
                         HandlerName(ms[3]) := vs[3], HandlerName(ms[4]) := vs[4]];
      AllPass(ms, h) <==> forall i :: 0 <= i < 5 ==> vs[i].Pass?
  {
    var h := map[HandlerName(ms[0]) := vs[0], HandlerName(ms[1]) := vs[1], HandlerName(ms[2]) := vs[2],
                 HandlerName(ms[3]) := vs[3], HandlerName(ms[4]) := vs[4]];
    assert forall i :: 0 <= i < 5 ==> h[HandlerName(ms[i])] == vs[i];
  }

  /** The date-time check names have pairwise distinct handler names. */
  lemma DateTimeHandlerNamesDistinct()
    ensures var ms := BaseValidationMethods + ["min", "max"];
      |ms| == 5 && forall i, j :: 0 <= i < j < 5 ==> HandlerName(ms[i]) != HandlerName(ms[j])
  {
    var ms := BaseValidationMethods + ["min", "max"];
    assert ms == ["required", "unique", "allowNull", "min", "max"];
    assert |ms[0]| == 8 && |ms[1]| == 6 && |ms[2]| == 9 && |ms[3]| == 3 && |ms[4]| == 3;
    assert ms[3][1] != ms[4][1];
    assert HandlerName(ms[3])[10] == ms[3][1] && HandlerName(ms[4])[10] == ms[4][1];
  }

  /**
   * Validating a date-time property passes exactly when the base checks
   * pass and the value lies within the bounds that are set.
   */
  lemma DateTimeChecksPass(p: DateTimeProperty)
    requires p.Valid()
    ensures AllPass(p.ValidationMethods(), DateTimeHandlers(p)) <==>
      !(p.base.required && !Truthy(p.base.val)) && !(!p.base.allowNull && p.base.val == Null) &&
      p.ValidateMin() == Pass && p.ValidateMax() == Pass
  {
    var ms := BaseValidationMethods + ["min", "max"];
    var vs := [p.base.ValidateRequired(), p.base.ValidateUnique(), p.base.ValidateAllowNull(),
               p.ValidateMin(), p.ValidateMax()];
    DateTimeHandlerNamesDistinct();
    FiveHandlersPass(ms, vs);
    assert DateTimeHandlers(p) == map[HandlerName(ms[0]) := vs[0], HandlerName(ms[1]) := vs[1],
                                      HandlerName(ms[2]) := vs[2], HandlerName(ms[3]) := vs[3],
                                      HandlerName(ms[4]) := vs[4]];
  }
}
