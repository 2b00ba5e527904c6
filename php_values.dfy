/**
 * The PHP values that the property layer handles: scalars, ordered arrays
 * and date-time objects, with PHP 7's truthiness and the conversions the
 * property classes rely on (string casts, integer casts, isset on a key).
 *
 * A PHP array is an ordered list of key/value entries; a "list" is an array
 * whose keys are 0, 1, 2, ... in order. Date-time objects carry only their
 * instant, an integer standing for a point on the time line, so that the
 * ordering of instants is the ordering of integers.
 */
module PhpValues {

  datatype Option<T> = None | Some(value: T)

  /** The exceptions and engine errors the property classes can raise. */
  datatype Exception =
    | InvalidArgumentException   // \InvalidArgumentException
    | PlainException             // \Exception
    | ConversionError            // an object that has no string form used as a string
    | TypeError                  // a value passed to a parameter declared `array`
    | NullMethodCall             // a method called on null
    | StackOverflow              // unbounded recursion

  datatype Result<T> = Ok(value: T) | Err(error: Exception) {
    predicate IsFailure() { Err? }
    function PropagateFailure<U>(): Result<U>
      requires Err?
    {
      Err(error)
    }
    function Extract(): T
      requires Ok?
    {
      value
    }
  }

  datatype Key = IKey(i: int) | SKey(s: string)

  datatype Value =
    | Null
    | Bool(b: bool)
    | Int(i: int)
    | Str(s: string)
    | Arr(entries: seq<Entry>)
    | Date(instant: int)

  datatype Entry = Entry(key: Key, val: Value)

  /** The PHP list `[v0, v1, ...]`: keys 0, 1, ... in order. */
  function List(items: seq<Value>): (r: Value)
    ensures r.Arr? && |r.entries| == |items|
    ensures forall i :: 0 <= i < |items| ==> r.entries[i] == Entry(IKey(i), items[i])
  {
    Arr(seq(|items|, i requires 0 <= i < |items| => Entry(IKey(i), items[i])))
  }

  /** The values of an array, in order (what `foreach` visits). */
  function ValuesOf(entries: seq<Entry>): (vs: seq<Value>)
    ensures |vs| == |entries|
    ensures forall i :: 0 <= i < |entries| ==> vs[i] == entries[i].val
  {
    seq(|entries|, i requires 0 <= i < |entries| => entries[i].val)
  }

  lemma ValuesOfList(items: seq<Value>)
    ensures ValuesOf(List(items).entries) == items
  {
  }

  /** The entry stored under key `k`, if any. */
  function Lookup(entries: seq<Entry>, k: Key): (r: Option<Value>)
    ensures r.Some? <==> exists i :: 0 <= i < |entries| && entries[i].key == k
    ensures r.Some? ==> exists i :: 0 <= i < |entries| && entries[i] == Entry(k, r.value)
  {
    if |entries| == 0 then None
    else if entries[0].key == k then Some(entries[0].val)
    else
      var r := Lookup(entries[1..], k);
      assert forall i :: 1 <= i < |entries| ==> entries[i] == entries[1..][i - 1];
      r
  }

  /** `isset($v[$k])`: `$v` is an array with a non-null entry under `k`. */
  predicate IsSet(v: Value, k: Key) {
    v.Arr? && Lookup(v.entries, k).Some? && Lookup(v.entries, k).value != Null
  }

  /** `$v[$k]` on an array, null (with a notice) when the key is missing. */
  function Get(v: Value, k: Key): (r: Value)
    ensures IsSet(v, k) ==> r != Null
    ensures !v.Arr? ==> r == Null
  {
    if v.Arr? then
      match Lookup(v.entries, k)
      case Some(x) => x
      case None => Null
    else Null
  }

  /** `count($v)` of an array. */
  function Count(v: Value): nat {
    if v.Arr? then |v.entries| else 1
  }

  /** PHP truthiness: `!$v` is `!Truthy(v)`. Objects are always truthy. */
  predicate Truthy(v: Value) {
    match v
    case Null => false
    case Bool(b) => b
    case Int(i) => i != 0
    case Str(s) => s != "" && s != "0"
    case Arr(es) => |es| > 0
    case Date(_) => true
  }

  /** `is_scalar($v)`: booleans, integers and strings (null is not scalar). */
  predicate IsScalar(v: Value) {
    v.Bool? || v.Int? || v.Str?
  }

  function DigitChar(d: int): (c: char)
    requires 0 <= d < 10
    ensures '0' <= c <= '9' && c as int - '0' as int == d
  {
    ('0' as int + d) as char
  }

  function NatToDecimal(n: nat): (s: string)
    ensures |s| >= 1
    ensures forall i :: 0 <= i < |s| ==> '0' <= s[i] <= '9'
    decreases n
  {
    if n < 10 then [DigitChar(n)] else NatToDecimal(n / 10) + [DigitChar(n % 10)]
  }

  /** Decimal notation of an integer, as `(string)$i` and `%d` print it. */
  function IntToDecimal(i: int): (s: string)
    ensures |s| >= 1
    ensures i >= 0 ==> s == NatToDecimal(i)
    ensures i < 0 ==> s == "-" + NatToDecimal(-i)
  {
    if i >= 0 then NatToDecimal(i) else "-" + NatToDecimal(-i)
  }

  /**
   * `(string)$v`. Arrays print as "Array" (with a notice); a date-time object
   * has no string form and raises an engine error.
   */
  function StrCast(v: Value): (r: Result<string>)
    ensures r.Err? <==> v.Date?
    ensures v.Str? ==> r == Ok(v.s)
    ensures v == Null ==> r == Ok("")
  {
    match v
    case Null => Ok("")
    case Bool(b) => Ok(if b then "1" else "")
    case Int(i) => Ok(IntToDecimal(i))
    case Str(s) => Ok(s)
    case Arr(_) => Ok("Array")
    case Date(_) => Err(ConversionError)
  }

  const PHP_INT_MAX: int := 0x7FFF_FFFF_FFFF_FFFF
  const PHP_INT_MIN: int := -0x8000_0000_0000_0000

  predicate IsDigit(c: char) { '0' <= c <= '9' }

  /** The whitespace PHP skips before a number in a numeric string. */
  predicate IsNumericSpace(c: char) {
    c == ' ' || c == '\t' || c == '\n' || c == '\r' || c == '\U{0B}' || c == '\U{0C}'
  }

  /** The value of the longest run of digits at the start of `s`. */
  function LeadingDigits(s: string, acc: nat): (n: nat)
    ensures n >= acc
    decreases |s|
  {
    if |s| > 0 && IsDigit(s[0]) then LeadingDigits(s[1..], acc * 10 + (s[0] as int - '0' as int))
    else acc
  }

  function Clamp64(n: int): (r: int)
    ensures PHP_INT_MIN <= r <= PHP_INT_MAX
    ensures PHP_INT_MIN <= n <= PHP_INT_MAX ==> r == n
  {
    if n > PHP_INT_MAX then PHP_INT_MAX else if n < PHP_INT_MIN then PHP_INT_MIN else n
  }

  /** `(int)$s` of a string: leading whitespace, an optional sign, then digits; saturates at 64 bits. */
  function StringToInt(s: string): int
    decreases |s|
  {
    if |s| > 0 && IsNumericSpace(s[0]) then StringToInt(s[1..])
    else if |s| > 0 && s[0] == '-' then Clamp64(-(LeadingDigits(s[1..], 0) as int))
    else if |s| > 0 && s[0] == '+' then Clamp64(LeadingDigits(s[1..], 0))
    else Clamp64(LeadingDigits(s, 0))
  }

  /** `(int)$v`. An object casts to 1 (with a notice), an array to 0 or 1. */
  function IntCast(v: Value): (r: int)
    ensures v.Int? ==> r == v.i
    ensures v == Null ==> r == 0
  {
    match v
    case Null => 0
    case Bool(b) => if b then 1 else 0
    case Int(i) => i
    case Str(s) => StringToInt(s)
    case Arr(es) => if |es| > 0 then 1 else 0
    case Date(_) => 1
  }

  lemma {:induction false} LeadingDigitsSnoc(d: string, c: char, acc: nat)
    requires forall i :: 0 <= i < |d| ==> IsDigit(d[i])
    requires IsDigit(c)
    ensures LeadingDigits(d + [c], acc) == LeadingDigits(d, acc) * 10 + (c as int - '0' as int)
    decreases |d|
  {
    if |d| == 0 {
      assert (d + [c])[1..] == [];
    } else {
      assert (d + [c])[1..] == d[1..] + [c];
      LeadingDigitsSnoc(d[1..], c, acc * 10 + (d[0] as int - '0' as int));
    }
  }

  lemma {:induction false} LeadingDigitsOfDecimal(n: nat)
    ensures LeadingDigits(NatToDecimal(n), 0) == n
    decreases n
  {
    if n < 10 {
      assert NatToDecimal(n)[1..] == [];
    } else {
      LeadingDigitsOfDecimal(n / 10);
      LeadingDigitsSnoc(NatToDecimal(n / 10), DigitChar(n % 10), 0);
    }
  }

  /** `(int)(string)$i == $i` for every 64-bit integer. */
  lemma StringToIntOfDecimal(i: int)
    requires PHP_INT_MIN <= i <= PHP_INT_MAX
    ensures StringToInt(IntToDecimal(i)) == i
  {
    if i >= 0 {
      LeadingDigitsOfDecimal(i);
    } else {
      var s := IntToDecimal(i);
      assert s[1..] == NatToDecimal(-i);
      LeadingDigitsOfDecimal(-i);
    }
  }
}
