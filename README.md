# charcoal/property: value lifecycle, in Dafny

This project models the value lifecycle of the `charcoal/property` PHP library and proves properties of the model. It covers how a property:

- stores a raw value (`setVal`: the null rules, multiple values split on a separator);
- projects that value for input and display (`inputVal`, `displayVal`);
- runs its validation methods (`PropertyValidator::validate`).

It also covers the value rules of several concrete properties:

- colours: parsing hexadecimal, `rgb()`, `rgba()` and named colours, and normalising them to `#RRGGBB` or `rgba(r,g,b,a)`;
- dates: coercing to an instant, min and max bounds, input and storage formats, JSON;
- files: sanitising file names, the upload path, collision-free upload targets, and the mimetype and size checks;
- model structures: the registry of structure interfaces, cached structure metadata, and building structure models from a value;
- number and generic properties: their SQL column types.

Modules:

| file | module | models |
|---|---|---|
| `php_values.dfy` | `PhpValues` | PHP values: arrays as ordered key/value lists, truthiness, `(string)` and `(int)` casts, `Result`/`Option` |
| `php_strings.dfy` | `PhpStrings` | `explode`/`implode`, `str_replace`, `strtolower`, `trim`, hex conversion, used as the source uses them |
| `property_validator.dfy` | `PropertyValidation` | `PropertyValidator::validate` as a class with a loop, plus a specification of which handlers run and which errors are recorded |
| `abstract_property.dfy` | `PropertyBase` | `AbstractProperty`: the flags, `setVal`, `inputVal`, `displayVal`, `label`, `viewOptions`, and the base validation methods |
| `color_property.dfy` | `ColorProp` | `ColorProperty` |
| `date_time_property.dfy` | `DateTimeProp` | `DateTimeProperty` |
| `file_property.dfy` | `FileProp` | `FileProperty` |
| `model_structure_property.dfy` | `ModelStructureProp` | `ModelStructureProperty` |
| `number_property.dfy`, `generic_property.dfy` | `NumberProp`, `GenericProp` | `NumberProperty`, `GenericProperty` |

Modelling choices:

- Subclasses hold their `AbstractProperty` part as a field (`base`).
- Setters are methods on classes. Each setter states the whole new state through a `Snapshot()` value.
- What a setter computes is a pure function, and the lemmas are proved about those functions.
- Parsing and formatting dates, encoding JSON, sniffing mimetypes, reading file sizes, loading metadata and listing existing files all need the outside world. They are function parameters.
- A validation handler is a `Verdict` (`Pass` or `Fail(code)`), found in a map keyed by `validate_<name>`.

Where the code and its documentation disagree, the model follows the code:

- `PropertyValidator::validate` stops calling handlers after the first failure, because of `&&` at `PropertyValidator.php:26`. It does not run every handler.
- `DateTimeProperty::dateTimeVal` refuses a non-blank array. It does not assemble a date from fragments (`DateTimeProperty.php:160-186`).

Each class method models the code as written. Where the code is evidently wrong, a corrected member sits beside it (see "## Findings").

## Model

| member | source | states |
|---|---|---|
| PropertyValidation.HandlerName | src/Charcoal/Property/PropertyValidator.php:22 | the handler for method `m` is `validate_` followed by `m`, so distinct methods have distinct handlers |
| PropertyValidation.CallableNames | src/Charcoal/Property/PropertyValidator.php:21-29 | lists only methods that have a handler |
| PropertyValidation.Invoked | src/Charcoal/Property/PropertyValidator.php:21-29 | lists only callable methods, in order, stopping at the first failing one |
| PropertyValidation.FirstFailure | src/Charcoal/Property/PropertyValidator.php:21-29 | records at most one error, and none exactly when every handler passes |
| PropertyValidation.AllFailures | src/Charcoal/Property/PropertyValidator.php:21-29 | is empty exactly when every invoked handler passes |
| PropertyValidation.AllPassPrefix | src/Charcoal/Property/PropertyValidator.php:21-29 | when all methods pass, every prefix of them passes |
| PropertyValidation.AllInvokedWhenAllPass | src/Charcoal/Property/PropertyValidator.php:21-29 | when nothing fails, every callable handler is called |
| PropertyValidation.NothingInvokedAfterFailure | src/Charcoal/Property/PropertyValidator.php:26 | after the first failing handler, no further handler is called |
| PropertyValidation.InvokedPassBeforeLast | src/Charcoal/Property/PropertyValidator.php:21-29 | every called handler except the last passed; on failure, the last one called is the one that failed |
| PropertyValidation.ResultIsConjunctionOfInvoked | src/Charcoal/Property/PropertyValidator.php:20-30 | the result is true exactly when every called handler passed |
| PropertyValidation.AllPassExtend | src/Charcoal/Property/PropertyValidator.php:21-29 | one more method passes the whole list exactly when the prefix passes and the new method does not fail |
| PropertyValidation.InvokedExtend | src/Charcoal/Property/PropertyValidator.php:21-29 | one loop iteration adds the method to the calls only while nothing has failed and it is callable |
| PropertyValidation.CallableExtend | src/Charcoal/Property/PropertyValidator.php:21-29 | one iteration of the every-handler loop adds the method to the calls exactly when it is callable, and its code to the errors exactly when it fails |
| PropertyValidation.PropertyValidator.Validate | src/Charcoal/Property/PropertyValidator.php:16-30 | returns whether all handlers pass; appends exactly the handlers it calls and the first failure's error |
| PropertyValidation.PropertyValidator.ValidateAll | src/Charcoal/Property/PropertyValidator.php:16-30 | the corrected loop: returns the same verdict, calls every callable handler and records every failure |
| PropertyValidation.ShortCircuitLosesErrors | src/Charcoal/Property/PropertyValidator.php:26 | with two failing handlers, the loop as written records one error and the corrected loop records two |
| PropertyValidation.SameErrorsWithOneFailure | src/Charcoal/Property/PropertyValidator.php:16-30 | with at most one failure, both loops record the same errors |
| PropertyBase.MergeMultipleOptions | src/Charcoal/Property/AbstractProperty.php:466-472 | each of separator, min and max is taken from the given options when present, from the defaults otherwise |
| PropertyBase.ExplodeValue | src/Charcoal/Property/AbstractProperty.php:260-262 | a non-empty separator yields the list of pieces; an empty one yields no array |
| PropertyBase.CoerceVal | src/Charcoal/Property/AbstractProperty.php:245-274 | null or `''` becomes null when null is allowed; null is refused otherwise; a multiple property keeps arrays, splits strings and refuses anything else; a single property keeps the value |
| PropertyBase.MultipleStringIsSplit | src/Charcoal/Property/AbstractProperty.php:259-269 | a string given to a multiple property is stored as its separator-delimited pieces, or refused when the separator is empty |
| PropertyBase.CoerceIdempotent | src/Charcoal/Property/AbstractProperty.php:245-274 | storing the stored value again changes nothing, which is what makes unserialize after serialize restore it |
| PropertyBase.StrCastAll | src/Charcoal/Property/AbstractProperty.php:329-333 | succeeds exactly when no element is a date object; each piece is the element's `(string)` cast |
| PropertyBase.Projected | src/Charcoal/Property/AbstractProperty.php:305-333 | a null argument falls back to the stored value, and nothing to show gives null; with l10n the language's entry is taken (`''` when missing); with multiple an array is joined with the separator, which fails exactly when an element is a date object; anything else passes through |
| PropertyBase.InputValOf | src/Charcoal/Property/AbstractProperty.php:305-340 | `''` when there is no value; the projected value when it is a scalar, its `json` encoding otherwise, and the projection's error; a missing translation gives `''`; the result is always a scalar |
| PropertyBase.DisplayValOf | src/Charcoal/Property/AbstractProperty.php:347-370 | `''` when there is no value; otherwise the `(string)` cast of the projected value (with l10n, of the language's entry), or the projection's error |
| PropertyBase.TranslationRoundTrip | src/Charcoal/Property/AbstractProperty.php:245-370 | a translation map stored with l10n on is kept, and `inputVal`/`displayVal` for a language give that language's string |
| PropertyBase.TranslatedListIsJoined | src/Charcoal/Property/AbstractProperty.php:305-370 | with l10n and multiple on, a language's list of strings is shown joined with the separator |
| PropertyBase.SetValThenInputVal | src/Charcoal/Property/AbstractProperty.php:245-340 | a string stored on a multiple property comes back unchanged from `inputVal` |
| PropertyBase.SetValThenDisplayVal | src/Charcoal/Property/AbstractProperty.php:245-370 | a string stored on a multiple property comes back unchanged from `displayVal` |
| PropertyBase.JoinThenSetVal | src/Charcoal/Property/AbstractProperty.php:245-274 | pieces free of a one-character separator, joined and stored, come back as the same list |
| PropertyBase.SemicolonExample | src/Charcoal/Property/AbstractProperty.php:245-340 | `"a;b;c"` is stored as three strings and shown again as `"a;b;c"` |
| PropertyBase.DefaultLabel | src/Charcoal/Property/AbstractProperty.php:385-391 | the default label has the ident's length |
| PropertyBase.DefaultLabelCharwise | src/Charcoal/Property/AbstractProperty.php:385-391 | the default label has the ident's length; each character is the ident's, with `.` and `_` turned into spaces and word starts capitalised |
| PropertyBase.LabelSpaces | src/Charcoal/Property/AbstractProperty.php:385-391 | replacing `.` and `_` by spaces keeps the length and changes only those characters |
| PropertyBase.DefaultLabelHasNoBreaks | src/Charcoal/Property/AbstractProperty.php:385-391 | the default label contains no `.` and no `_` |
| PropertyBase.ArrayKey | src/Charcoal/Property/AbstractProperty.php:815-834 | ints and strings are usable array keys; arrays and objects are not |
| PropertyBase.AbstractProperty.constructor | src/Charcoal/Property/AbstractProperty.php:60-138 | the defaults: empty ident, no value, not multiple, not required, null allowed, storable, active |
| PropertyBase.AbstractProperty.SetIdent | src/Charcoal/Property/AbstractProperty.php:218-227 | a string becomes the ident; anything else is refused and nothing changes |
| PropertyBase.AbstractProperty.SetL10n | src/Charcoal/Property/AbstractProperty.php:397-401 | only the l10n flag changes, to the argument's truthiness |
| PropertyBase.AbstractProperty.SetHidden | src/Charcoal/Property/AbstractProperty.php:417-421 | only the hidden flag changes |
| PropertyBase.AbstractProperty.SetMultiple | src/Charcoal/Property/AbstractProperty.php:435-439 | only the multiple flag changes |
| PropertyBase.AbstractProperty.SetRequired | src/Charcoal/Property/AbstractProperty.php:536-540 | only the required flag changes |
| PropertyBase.AbstractProperty.SetUnique | src/Charcoal/Property/AbstractProperty.php:559-563 | only the unique flag changes |
| PropertyBase.AbstractProperty.SetAllowNull | src/Charcoal/Property/AbstractProperty.php:513-517 | only the allowNull flag changes |
| PropertyBase.AbstractProperty.SetStorable | src/Charcoal/Property/AbstractProperty.php:595-599 | only the storable flag changes |
| PropertyBase.AbstractProperty.SetActive | src/Charcoal/Property/AbstractProperty.php:577-581 | only the active flag changes |
| PropertyBase.AbstractProperty.SetLabel | src/Charcoal/Property/AbstractProperty.php:376-380 | only the explicit label changes |
| PropertyBase.AbstractProperty.SetDescription | src/Charcoal/Property/AbstractProperty.php:613-617 | only the description changes |
| PropertyBase.AbstractProperty.SetNotes | src/Charcoal/Property/AbstractProperty.php:631-635 | only the notes change |
| PropertyBase.AbstractProperty.SetViewOptions | src/Charcoal/Property/AbstractProperty.php:842-846 | only the view options change |
| PropertyBase.AbstractProperty.SetMultipleOptions | src/Charcoal/Property/AbstractProperty.php:466-498 | the options become the given ones merged over the defaults `,`, 0, 0 |
| PropertyBase.AbstractProperty.MultipleOptionsOf | src/Charcoal/Property/AbstractProperty.php:480-486 | unset options read as the defaults, set ones as stored |
| PropertyBase.AbstractProperty.MultipleSeparator | src/Charcoal/Property/AbstractProperty.php:503-507 | `,` until options are set, then the separator they hold |
| PropertyBase.AbstractProperty.SetVal | src/Charcoal/Property/AbstractProperty.php:245-274 | stores the coerced value or reports its exception, leaving the value unchanged on error |
| PropertyBase.AbstractProperty.Serialize | src/Charcoal/Property/AbstractProperty.php:753-757 | only the stored value is externalised |
| PropertyBase.AbstractProperty.ParseVal | src/Charcoal/Property/AbstractProperty.php:295-298 | the base parser returns its argument unchanged |
| PropertyBase.AbstractProperty.Unserialize | src/Charcoal/Property/AbstractProperty.php:764-768 | unserializing is `setVal` of the data |
| PropertyBase.AbstractProperty.InputVal | src/Charcoal/Property/AbstractProperty.php:305-340 | `InputValOf` under the property's flags and separator: always a scalar, `''` with no value |
| PropertyBase.AbstractProperty.DisplayVal | src/Charcoal/Property/AbstractProperty.php:347-370 | `DisplayValOf` under the property's flags and separator: `''` with no value |
| PropertyBase.AbstractProperty.Label | src/Charcoal/Property/AbstractProperty.php:385-391 | the explicit label when set, else the label derived from the ident |
| PropertyBase.AbstractProperty.ViewOptions | src/Charcoal/Property/AbstractProperty.php:815-834 | all options without an ident; with one, the entry under that ident (or an empty array) |
| PropertyBase.AbstractProperty.ValidationMethods | src/Charcoal/Property/AbstractProperty.php:659-666 | the base methods are `required`, `unique`, `allowNull` |
| PropertyBase.AbstractProperty.ValidateRequired | src/Charcoal/Property/AbstractProperty.php:671-679 | fails, with code `required`, exactly when required and the value is falsy |
| PropertyBase.AbstractProperty.ValidateUnique | src/Charcoal/Property/AbstractProperty.php:684-692 | always passes |
| PropertyBase.AbstractProperty.ValidateAllowNull | src/Charcoal/Property/AbstractProperty.php:697-704 | fails, with code `allowNull`, exactly when null is not allowed and the value is null |
| PropertyBase.SetValKeepsNonNull | src/Charcoal/Property/AbstractProperty.php:247-257 | when null is not allowed, a successful `setVal` never leaves a null value, so the allowNull check passes |
| PropertyBase.StoreThenRestore | src/Charcoal/Property/AbstractProperty.php:245-768 | `unserialize(serialize())` after a successful `setVal` leaves the property exactly as `setVal` left it |
| PropertyBase.BaseHandlers | src/Charcoal/Property/AbstractProperty.php:659-704 | every base validation method has a handler |
| PropertyBase.BaseChecksPass | src/Charcoal/Property/AbstractProperty.php:659-704 | the base checks all pass exactly when the required and null rules hold |
| ColorProp.ParseArray | src/Charcoal/Property/ColorProperty.php:191-216 | fewer than three entries is refused; keyed `r`,`g`,`b`,`a` or positional entries are read and cast to int |
| ColorProp.ParseHexadecimal | src/Charcoal/Property/ColorProperty.php:251-272 | every component is a byte and the alpha is 0; the readings of each length are HexPairs, ShortHexPairs, LongHexIgnoresTail and ThreeDigitInput |
| ColorProp.Hexdec2 | src/Charcoal/Property/ColorProperty.php:265-267 | two hex digits read as a byte |
| ColorProp.MatchPrefix | src/Charcoal/Property/ColorProperty.php:280 | a match yields one all-digit capture per group |
| ColorProp.Search | src/Charcoal/Property/ColorProperty.php:280 | an unanchored search yields one all-digit capture per group, and a match at the start is the one found |
| ColorProp.RgbPatternGroups | src/Charcoal/Property/ColorProperty.php:280-301 | the rgb pattern has three groups and the rgba pattern four |
| ColorProp.ParseRgb | src/Charcoal/Property/ColorProperty.php:278-293 | refused exactly when the `rgb(` pattern finds no match; the alpha is 0 |
| ColorProp.ParseRgba | src/Charcoal/Property/ColorProperty.php:299-313 | as written, every string is refused |
| ColorProp.ParseRgbaIntended | src/Charcoal/Property/ColorProperty.php:299-313 | refused exactly when the intended `rgba(` pattern finds no match; the alpha is the fourth capture |
| ColorProp.NotationOf | src/Charcoal/Property/ColorProperty.php:223-245 | hexadecimal exactly for hex-digit strings; named only when no functional prefix occurs |
| ColorProp.VisitShrinks | src/Charcoal/Property/ColorProperty.php:344-355 | following one named colour leaves fewer unvisited names, so lookups terminate |
| ColorProp.ParseVal | src/Charcoal/Property/ColorProperty.php:177-184 | arrays are parsed as arrays |
| ColorProp.ParseString | src/Charcoal/Property/ColorProperty.php:223-245 | dispatches on the notation: hex, rgb, rgba, hsl (unsupported exception), named; non-strings are refused |
| ColorProp.ParseNamedColor | src/Charcoal/Property/ColorProperty.php:344-355 | an unknown name is refused; a name already being resolved is a stack overflow |
| ColorProp.HexByte | src/Charcoal/Property/ColorProperty.php:121-123 | a byte as two hex digits that read back as the byte |
| ColorProp.PaddedDechex | src/Charcoal/Property/ColorProperty.php:121-123 | `str_pad(dechex(n), 2, '0', STR_PAD_LEFT)` is the two-digit byte |
| ColorProp.RgbToHexadecimal | src/Charcoal/Property/ColorProperty.php:118-125 | bytes become six upper-case hex digits |
| ColorProp.ColorVal | src/Charcoal/Property/ColorProperty.php:93-110 | falsy values pass through; a parse error is reported; otherwise the result is a string (its form is stated by ColorValWithoutAlpha and ColorValWithAlpha) |
| ColorProp.ConvertEach | src/Charcoal/Property/ColorProperty.php:78-82 | converting each value in order succeeds exactly when every conversion does, giving the converted values in order |
| ColorProp.ConvertEachKeepsFirstError | src/Charcoal/Property/ColorProperty.php:78-82 | once a prefix fails, the whole conversion fails with the prefix's error |
| ColorProp.ColorVals | src/Charcoal/Property/ColorProperty.php:78-82 | succeeds exactly when every element converts, giving the converted elements in order |
| ColorProp.ColorValsKeepsFirstError | src/Charcoal/Property/ColorProperty.php:78-82 | the first failing element decides the error |
| ColorProp.CoerceColor | src/Charcoal/Property/ColorProperty.php:57-87 | `setVal`'s null rule, the multiple split and per-element conversion, single conversion otherwise |
| ColorProp.HexBytes | src/Charcoal/Property/ColorProperty.php:251-272 | six hex digits |
| ColorProp.NormalizeHexOutput | src/Charcoal/Property/ColorProperty.php:99-100 | normalising the `#RRGGBB` output gives its lower-case digits |
| ColorProp.ParseHexBytes | src/Charcoal/Property/ColorProperty.php:251-272 | parsing the six digits gives back the bytes |
| ColorProp.HexOutputIsFixpoint | src/Charcoal/Property/ColorProperty.php:93-110 | converting a `#RRGGBB` output again gives the same output |
| ColorProp.SixDigitInput | src/Charcoal/Property/ColorProperty.php:251-272 | any spelling of six hex digits converts to `#` and the upper-case digits |
| ColorProp.ThreeDigitInput | src/Charcoal/Property/ColorProperty.php:255-262 | three hex digits are doubled into six |
| ColorProp.HexPairs | src/Charcoal/Property/ColorProperty.php:263-270 | for any length but 3, the bytes are the pairs of digits at offsets 0, 2 and 4 |
| ColorProp.ShortHexPairs | src/Charcoal/Property/ColorProperty.php:263-270 | with 1, 2, 4 or 5 digits a pair past the end reads as 0 and a half pair as its one digit; 6 digits are three full pairs |
| ColorProp.LongHexIgnoresTail | src/Charcoal/Property/ColorProperty.php:231-270 | digits past the sixth are ignored: a longer hex string reads as its first six digits |
| ColorProp.TwoDigitExample | src/Charcoal/Property/ColorProperty.php:263-270 | `ab` reads as red 171, green 0, blue 0 |
| ColorProp.LongRedExample | src/Charcoal/Property/ColorProperty.php:93-110 | `#ff0000` reads as red |
| ColorProp.ShortRedExample | src/Charcoal/Property/ColorProperty.php:255-262 | `F00` reads as red |
| ColorProp.MatchNotation | src/Charcoal/Property/ColorProperty.php:280 | `name(d1,d2,...)` matches the pattern with the digits as captures |
| ColorProp.MatchFormatRgb | src/Charcoal/Property/ColorProperty.php:280 | `rgb(r,g,b)` matches the rgb pattern |
| ColorProp.ParseFormatRgb | src/Charcoal/Property/ColorProperty.php:278-293 | `rgb(r,g,b)` parses back to r, g, b |
| ColorProp.HexOutputParses | src/Charcoal/Property/ColorProperty.php:177-272 | the hex output parses back to its bytes |
| ColorProp.HexStringParses | src/Charcoal/Property/ColorProperty.php:223-272 | any string normalising to the six digits parses to the bytes |
| ColorProp.AlphaOutputParseFails | src/Charcoal/Property/ColorProperty.php:299-313 | as written, the `rgba(r,g,b,0)` output is refused by the parser |
| ColorProp.AlphaOutputParsesWhenFixed | src/Charcoal/Property/ColorProperty.php:299-313 | with the intended pattern, the `rgba(r,g,b,0)` output parses back |
| ColorProp.ColorValWithAlpha | src/Charcoal/Property/ColorProperty.php:101-109 | with alpha support, the output is `rgba(r,g,b,a)` |
| ColorProp.ColorValWithoutAlpha | src/Charcoal/Property/ColorProperty.php:99-100 | without alpha support, a parsed colour becomes `#RRGGBB` whatever its alpha |
| ColorProp.RedArrayParses | src/Charcoal/Property/ColorProperty.php:191-215 | the list `[255, 0, 0]` has no `r` key, so it is read by position as red 255, green 0, blue 0 and alpha 0 |
| ColorProp.ArrayRedExample | src/Charcoal/Property/ColorProperty.php:191-216 | the array `[255, 0, 0]` is read by position and stored as `#FF0000` |
| ColorProp.AlphaOutputOfHex | src/Charcoal/Property/ColorProperty.php:101-109 | with alpha support, a hex colour becomes `rgba(r,g,b,0)` |
| ColorProp.AlphaOutputRejected | src/Charcoal/Property/ColorProperty.php:301 | as written, the value an alpha colour property stores cannot be stored again |
| ColorProp.AlphaOutputIsFixpointWhenFixed | src/Charcoal/Property/ColorProperty.php:301 | with the intended pattern, storing the stored `rgba` value again gives it back |
| ColorProp.NamedColorStep | src/Charcoal/Property/ColorProperty.php:344-355 | a known name is resolved by parsing its table entry |
| ColorProp.NamedColorLookup | src/Charcoal/Property/ColorProperty.php:344-355 | a name whose entry is a hex colour converts to that colour's `#RRGGBB` |
| ColorProp.NamedColorCycle | src/Charcoal/Property/ColorProperty.php:344-355 | a name whose entry is itself is a stack overflow |
| ColorProp.ColorProperty.constructor | src/Charcoal/Property/ColorProperty.php:23 | alpha support is off |
| ColorProp.ColorProperty.SetSupportAlpha | src/Charcoal/Property/ColorProperty.php:37-41 | alpha support becomes the argument's truthiness |
| ColorProp.ColorProperty.ColorValsLoop | src/Charcoal/Property/ColorProperty.php:78-82 | the loop converts the elements exactly as `ColorVals` specifies |
| ColorProp.ColorProperty.Coerce | src/Charcoal/Property/ColorProperty.php:57-87 | computes `CoerceColor` under the current flags |
| ColorProp.ColorProperty.SetVal | src/Charcoal/Property/ColorProperty.php:57-87 | stores the coerced colour or reports its exception |
| ColorProp.ColorProperty.SqlType | src/Charcoal/Property/ColorProperty.php:142-155 | `TEXT` when multiple, else `VARCHAR(32)` with alpha and `CHAR(7)` without |
| DateTimeProp.DateTimeVal | src/Charcoal/Property/DateTimeProperty.php:160-186 | blank gives null when allowed and an exception otherwise; dates pass; strings are parsed; anything else is refused |
| DateTimeProp.DateTimeValIdempotent | src/Charcoal/Property/DateTimeProperty.php:160-186 | coercing a coerced value changes nothing |
| DateTimeProp.EmptyFragmentsAreBlank | src/Charcoal/Property/DateTimeProperty.php:162-167 | an array whose every element is `''`, null or `false` counts as blank |
| DateTimeProp.FragmentsAreRefused | src/Charcoal/Property/DateTimeProperty.php:162-183 | an array with a non-empty fragment is refused |
| DateTimeProp.BoundOf | src/Charcoal/Property/DateTimeProperty.php:193-215 | null clears the bound; a date or parseable string sets it; otherwise an exception |
| DateTimeProp.BoundAgreesWithValue | src/Charcoal/Property/DateTimeProperty.php:160-215 | a bound string is accepted exactly when it is accepted as a value, and gives the same instant |
| DateTimeProp.MinCheck | src/Charcoal/Property/DateTimeProperty.php:315-326 | without a minimum, pass; with one, a date passes exactly when not earlier, and null fails |
| DateTimeProp.MaxCheck | src/Charcoal/Property/DateTimeProperty.php:331-342 | without a maximum, pass; with one, a date passes exactly when not later, and null passes |
| DateTimeProp.BoundsAreAnInterval | src/Charcoal/Property/DateTimeProperty.php:315-342 | both checks pass exactly for instants between the bounds |
| DateTimeProp.InvertedBoundsRejectAll | src/Charcoal/Property/DateTimeProperty.php:315-342 | with the minimum after the maximum, every value fails a check |
| DateTimeProp.InputValAsWritten | src/Charcoal/Property/DateTimeProperty.php:100-111 | as written: a date argument is answered by formatting the stored value |
| DateTimeProp.InputValIntended | src/Charcoal/Property/DateTimeProperty.php:100-111 | the coerced argument's instant, a given date or a parsed non-blank string, is formatted in the fixed format; blank gives `''`; a coercion error is passed on |
| DateTimeProp.StorageValAsWritten | src/Charcoal/Property/DateTimeProperty.php:120-133 | as written: a date argument is answered by formatting the stored value |
| DateTimeProp.StorageValIntended | src/Charcoal/Property/DateTimeProperty.php:120-133 | the argument's instant formatted; null exactly for allowed blank input |
| DateTimeProp.FormatsStoredValue | src/Charcoal/Property/DateTimeProperty.php:100-133 | as written, with no stored value a date argument is a method call on null; the intended versions format it |
| DateTimeProp.FormatsStoredInstant | src/Charcoal/Property/DateTimeProperty.php:100-133 | as written, the answer differs from the intended one whenever the stored and given instants format differently |
| DateTimeProp.StorageValRoundTrip | src/Charcoal/Property/DateTimeProperty.php:120-186 | the intended storage string reads back as the same value, given a parser that inverts the formatter |
| DateTimeProp.DateDisplayVal | src/Charcoal/Property/DateTimeProperty.php:144-153 | the coerced argument, a given date or a parsed non-blank string, is shown in the configured format; blank as `''`; a coercion error is passed on |
| DateTimeProp.DisplayValOfCoerced | src/Charcoal/Property/DateTimeProperty.php:144-153 | displaying the value `setVal` would store gives the same text as displaying the raw argument |
| DateTimeProp.DisplayValIsIntendedInputVal | src/Charcoal/Property/DateTimeProperty.php:100-111 | in the default format, `displayVal` and the intended `inputVal` refuse the same arguments and give the same text |
| DateTimeProp.JsonOf | src/Charcoal/Property/DateTimeProperty.php:373-385 | dates serialise in ATOM format; other values unchanged |
| DateTimeProp.DateTimeProperty.constructor | src/Charcoal/Property/DateTimeProperty.php:29-37 | no bounds, default format |
| DateTimeProp.DateTimeProperty.SetMultiple | src/Charcoal/Property/DateTimeProperty.php:56-65 | only a falsy flag is accepted |
| DateTimeProp.DateTimeProperty.Multiple | src/Charcoal/Property/DateTimeProperty.php:74-77 | never multiple |
| DateTimeProp.DateTimeProperty.SetVal | src/Charcoal/Property/DateTimeProperty.php:86-90 | stores the coerced date or reports its exception |
| DateTimeProp.DateTimeProperty.SetMin | src/Charcoal/Property/DateTimeProperty.php:193-215 | the minimum becomes the bound; other settings unchanged |
| DateTimeProp.DateTimeProperty.SetMax | src/Charcoal/Property/DateTimeProperty.php:233-255 | the maximum becomes the bound; other settings unchanged |
| DateTimeProp.DateTimeProperty.SetFormat | src/Charcoal/Property/DateTimeProperty.php:273-282 | a string becomes the format; anything else is refused |
| DateTimeProp.DateTimeProperty.InputVal | src/Charcoal/Property/DateTimeProperty.php:100-111 | as written: blank input gives `''`; a date argument gives the stored date in `Y-m-d H:i:s`, or a method call on null when nothing is stored |
| DateTimeProp.DateTimeProperty.StorageVal | src/Charcoal/Property/DateTimeProperty.php:120-133 | as written: blank input gives null; a date argument gives the stored date in `Y-m-d H:i:s`, or a method call on null when nothing is stored |
| DateTimeProp.DateTimeProperty.DisplayVal | src/Charcoal/Property/DateTimeProperty.php:144-153 | a date or parsed string argument in the property's format; blank gives `''`, or is refused when null is not allowed; a coercion error is passed on |
| DateTimeProp.DateTimeProperty.JsonSerialize | src/Charcoal/Property/DateTimeProperty.php:373-385 | null stays null; a stored date is written in the ATOM format |
| DateTimeProp.DateTimeProperty.ValidateMin | src/Charcoal/Property/DateTimeProperty.php:315-326 | no minimum passes; a stored date passes exactly when not earlier; null fails; the code is `min` |
| DateTimeProp.DateTimeProperty.ValidateMax | src/Charcoal/Property/DateTimeProperty.php:331-342 | no maximum passes; a stored date passes exactly when not later; null passes; the code is `max` |
| DateTimeProp.DateTimeProperty.ValidationMethods | src/Charcoal/Property/DateTimeProperty.php:306-310 | the base methods followed by `min`, `max` |
| DateTimeProp.DateTimeHandlers | src/Charcoal/Property/DateTimeProperty.php:306-342 | every date-time validation method has a handler |
| DateTimeProp.FiveHandlersPass | src/Charcoal/Property/PropertyValidator.php:21-29 | five distinct handlers all pass exactly when each verdict passes |
| DateTimeProp.DateTimeHandlerNamesDistinct | src/Charcoal/Property/DateTimeProperty.php:306-310 | the five date-time methods have distinct handlers |
| DateTimeProp.DateTimeChecksPass | src/Charcoal/Property/DateTimeProperty.php:306-342 | validation passes exactly when the required, null, min and max rules hold |
| FileProp.Masked | src/Charcoal/Property/FileProperty.php:587-588 | each blacklisted character becomes `_`, the rest are kept |
| FileProp.MaskedTwice | src/Charcoal/Property/FileProperty.php:587-588 | masking with two lists in turn is masking with both |
| FileProp.ReplaceEachAppend | src/Charcoal/Property/FileProperty.php:588 | `str_replace` with a list applies its entries in order |
| FileProp.ReplaceEachSingles | src/Charcoal/Property/FileProperty.php:588 | replacing one-character entries is masking their characters |
| FileProp.Sanitized | src/Charcoal/Property/FileProperty.php:584-594 | no blacklisted character remains, the result does not start with `.`, and only leading dots are dropped |
| FileProp.SanitizedIdempotent | src/Charcoal/Property/FileProperty.php:584-594 | sanitising twice is sanitising once |
| FileProp.MaskedWithDeadEntry | src/Charcoal/Property/FileProperty.php:587 | a multi-character entry whose first character was already replaced changes nothing |
| FileProp.BlacklistChars | src/Charcoal/Property/FileProperty.php:587 | the written list lacks the NUL character; the intended list has it |
| FileProp.WrittenBlacklistMasks | src/Charcoal/Property/FileProperty.php:587-588 | the written list masks its one-character entries only |
| FileProp.IntendedBlacklistMasks | src/Charcoal/Property/FileProperty.php:587-588 | the intended list masks all its characters |
| FileProp.SanitizeFilenameAsWritten | src/Charcoal/Property/FileProperty.php:584-594 | as written, the name is sanitised against the list's one-character entries |
| FileProp.SanitizeFilename | src/Charcoal/Property/FileProperty.php:584-594 | no NUL and no blacklisted character remains |
| FileProp.SanitizeFilenameIdempotent | src/Charcoal/Property/FileProperty.php:584-594 | both versions are idempotent |
| FileProp.NulIsKept | src/Charcoal/Property/FileProperty.php:587 | as written, a NUL character survives sanitising; the intended version removes it |
| FileProp.UploadPathOf | src/Charcoal/Property/FileProperty.php:97-107 | the path ends in exactly one `/` and keeps the given prefix |
| FileProp.UploadPathIdempotent | src/Charcoal/Property/FileProperty.php:97-107 | normalising twice is normalising once |
| FileProp.AfterLast | src/Charcoal/Property/FileProperty.php:536 | the suffix after the last occurrence of a character |
| FileProp.Basename | src/Charcoal/Property/FileProperty.php:536 | the base name has no `/` |
| FileProp.LastIndex | src/Charcoal/Property/FileProperty.php:536 | the last position of a character, or none exactly when it is absent |
| FileProp.Pathinfo | src/Charcoal/Property/FileProperty.php:536 | the file name and extension reassemble the base name |
| FileProp.RenamedInfo | src/Charcoal/Property/FileProperty.php:536-540 | the file name, `-` and the unique id, then `.` and the extension exactly when it is truthy |
| FileProp.Renamed | src/Charcoal/Property/FileProperty.php:536-540 | the renamed file starts with the old file name and `-`, and has no `/` when the unique id has none |
| FileProp.RenamedNoSlash | src/Charcoal/Property/FileProperty.php:536-542 | renaming introduces no `/` |
| FileProp.RenamedDiffers | src/Charcoal/Property/FileProperty.php:536-542 | the renamed file differs from the original name |
| FileProp.GenerateFilename | src/Charcoal/Property/FileProperty.php:599-609 | the title, a space and the timestamp, then `.` and the extension when it is truthy |
| FileProp.ChosenFilename | src/Charcoal/Property/FileProperty.php:513 | as written: a truthy name is sanitised by the written blacklist (no longer, no `/`, no leading `.`); otherwise the generated name |
| FileProp.ChosenFilenameIntended | src/Charcoal/Property/FileProperty.php:513 | with the intended blacklist: a truthy name loses every NUL as well; otherwise the same generated name |
| FileProp.FileExists | src/Charcoal/Property/FileProperty.php:559-576 | true exactly when the file is among the existing ones |
| FileProp.MimetypeCheck | src/Charcoal/Property/FileProperty.php:254-284 | no accepted list passes; otherwise pass exactly when the known or sniffed mimetype is accepted |
| FileProp.SizeOf | src/Charcoal/Property/FileProperty.php:229-240 | a known size is used; no value gives 0; otherwise the size the file system reports for the value, or 0 when the file is missing or unreadable |
| FileProp.MaxFilesizeCheck | src/Charcoal/Property/FileProperty.php:289-304 | fails, with code `maxFilesize`, exactly when a limit is set and exceeded |
| FileProp.FileProperty.constructor | src/Charcoal/Property/FileProperty.php:26-64 | the defaults: private, `uploads/`, no overwrite, no accepted list, 134220000 bytes, no known mimetype or size |
| FileProp.FileProperty.SetPublicAccess | src/Charcoal/Property/FileProperty.php:78-82 | the public flag becomes the argument's truthiness; every other file field is unchanged |
| FileProp.FileProperty.SetOverwrite | src/Charcoal/Property/FileProperty.php:121-125 | the overwrite flag becomes the argument's truthiness; every other file field is unchanged |
| FileProp.FileProperty.SetUploadPath | src/Charcoal/Property/FileProperty.php:97-107 | a string becomes the normalised path; anything else is refused and changes nothing; every other file field is unchanged |
| FileProp.FileProperty.SetAcceptedMimetypes | src/Charcoal/Property/FileProperty.php:139-143 | the accepted list is replaced; every other file field is unchanged |
| FileProp.FileProperty.SetMaxFilesize | src/Charcoal/Property/FileProperty.php:158-167 | an int becomes the limit; anything else is refused and changes nothing; every other file field is unchanged |
| FileProp.FileProperty.SetMimetype | src/Charcoal/Property/FileProperty.php:182-191 | a string becomes the mimetype; anything else is refused and changes nothing; every other file field is unchanged |
| FileProp.FileProperty.SetFilesize | src/Charcoal/Property/FileProperty.php:215-224 | an int becomes the size; anything else is refused and changes nothing; every other file field is unchanged |
| FileProp.FileProperty.Mimetype | src/Charcoal/Property/FileProperty.php:196-208 | a known mimetype is returned; otherwise the value is sniffed, and the result is cached only when the value is truthy; every other file field is unchanged |
| FileProp.FileProperty.Filesize | src/Charcoal/Property/FileProperty.php:229-240 | the known size, else the size on disk, else 0; only a size read from disk is cached; every other file field is unchanged |
| FileProp.FileProperty.ValidateAcceptedMimetypes | src/Charcoal/Property/FileProperty.php:254-284 | the loop decides exactly as `MimetypeCheck` |
| FileProp.FileProperty.ValidateMaxFilesize | src/Charcoal/Property/FileProperty.php:289-304 | decides exactly as `MaxFilesizeCheck` on the known or read size; a read size is cached only when a limit is set; every other file field is unchanged |
| FileProp.FileProperty.GenerateExtension | src/Charcoal/Property/FileProperty.php:614-617 | the base extension is empty |
| FileProp.FileProperty.UploadTarget | src/Charcoal/Property/FileProperty.php:504-547 | as written (NUL kept in the name): an unwritable directory throws; the target is the directory and the chosen name, renamed with the unique id when it exists and overwriting is off |
| FileProp.FileProperty.PlaceUpload | src/Charcoal/Property/FileProperty.php:523-546 | an unwritable directory throws; an existing target is kept only when overwriting, otherwise renamed with the unique id |
| FileProp.FileProperty.UploadTargetIntended | src/Charcoal/Property/FileProperty.php:504-547 | the same placement of the name chosen with the intended blacklist |
| FileProp.FileProperty.ValidationMethods | src/Charcoal/Property/FileProperty.php:245-249 | the base methods followed by `accepted_mimetypes`, `max_filesize` |
| FileProp.FileProperty.SqlType | src/Charcoal/Property/FileProperty.php:321-329 | `TEXT` when multiple, else `VARCHAR(255)` |
| FileProp.UploadTargetAvoidsCollision | src/Charcoal/Property/FileProperty.php:529-546 | the first-choice target is kept only when no such file exists or overwriting is on |
| ModelStructureProp.Hyphenate | src/Charcoal/Property/ModelStructureProperty.php:380 | never shorter and keeps the first character |
| ModelStructureProp.HyphenateSeparates | src/Charcoal/Property/ModelStructureProperty.php:380 | no lower-upper pair is left |
| ModelStructureProp.HyphenateLength | src/Charcoal/Property/ModelStructureProperty.php:380 | one hyphen per boundary |
| ModelStructureProp.HyphenateOnlyAddsHyphens | src/Charcoal/Property/ModelStructureProperty.php:380 | removing hyphens undoes it |
| ModelStructureProp.HyphenateNoUpper | src/Charcoal/Property/ModelStructureProperty.php:380 | a string without capitals is unchanged |
| ModelStructureProp.HyphenateKeepsDots | src/Charcoal/Property/ModelStructureProperty.php:380 | dots are neither added nor removed |
| ModelStructureProp.ParseStructureInterface | src/Charcoal/Property/ModelStructureProperty.php:378-384 | as written: lower case, no backslash, never shorter, dots kept |
| ModelStructureProp.ParseStructureInterfaceIdempotent | src/Charcoal/Property/ModelStructureProperty.php:378-384 | parsing an ident again changes nothing |
| ModelStructureProp.ParseStructureInterfaceHyphens | src/Charcoal/Property/ModelStructureProperty.php:378-384 | the ident is longer by the number of case boundaries |
| ModelStructureProp.ParseStructureInterfaceIntended | src/Charcoal/Property/ModelStructureProperty.php:373-384 | also maps `.` to `/`: no dot remains |
| ModelStructureProp.ParseStructureInterfaceIntendedIdempotent | src/Charcoal/Property/ModelStructureProperty.php:373-384 | the intended parse is idempotent |
| ModelStructureProp.DotIsKept | src/Charcoal/Property/ModelStructureProperty.php:373-384 | for a dotted interface, the code's ident keeps the dot and differs from the intended ident |
| ModelStructureProp.Register | src/Charcoal/Property/ModelStructureProperty.php:361-364 | registers the ident once, keeps earlier ones in place, adds nothing else |
| ModelStructureProp.AddInterface | src/Charcoal/Property/ModelStructureProperty.php:351-368 | refuses non-strings; ignores falsy strings; otherwise registers the ident |
| ModelStructureProp.AddAll | src/Charcoal/Property/ModelStructureProperty.php:335-342 | keeps earlier entries and stays duplicate-free |
| ModelStructureProp.AddAllStep | src/Charcoal/Property/ModelStructureProperty.php:337-339 | one iteration of adding |
| ModelStructureProp.AddAllMembers | src/Charcoal/Property/ModelStructureProperty.php:335-342 | an ident is registered exactly when it was before or comes from a truthy interface |
| ModelStructureProp.AddAllRegistered | src/Charcoal/Property/ModelStructureProperty.php:335-368 | adding already registered interfaces changes nothing |
| ModelStructureProp.AddAllIdempotent | src/Charcoal/Property/ModelStructureProperty.php:335-368 | adding the same interfaces twice is adding them once |
| ModelStructureProp.LoadedMetadata | src/Charcoal/Property/ModelStructureProperty.php:278-298 | terminal metadata wins; with no interfaces only it is used; other keys come from the loader |
| ModelStructureProp.DefaultData | src/Charcoal/Property/ModelStructureProperty.php:522-533 | unset gives an empty array; `true` gives the metadata defaults; an array is used as given |
| ModelStructureProp.ModelsOf | src/Charcoal/Property/ModelStructureProperty.php:429-451 | one model per element when multiple (a type error if one is not an array); one model otherwise |
| ModelStructureProp.ModelStructureProperty.constructor | src/Charcoal/Property/ModelStructureProperty.php:105-147 | not finalized, no interfaces, no metadata, the default model class |
| ModelStructureProp.ModelStructureProperty.StructureInterfaces | src/Charcoal/Property/ModelStructureProperty.php:305-312 | the registered idents, without duplicates |
| ModelStructureProp.ModelStructureProperty.SetStructureMetadata | src/Charcoal/Property/ModelStructureProperty.php:246-271 | null clears, arrays and metadata set the terminal metadata, anything else is refused |
| ModelStructureProp.ModelStructureProperty.LoadStructureMetadata | src/Charcoal/Property/ModelStructureProperty.php:278-298 | loads through the loader only when not finalized, then marks finalized |
| ModelStructureProp.ModelStructureProperty.StructureMetadata | src/Charcoal/Property/ModelStructureProperty.php:230-237 | returns the current metadata and caches it |
| ModelStructureProp.ModelStructureProperty.AddStructureInterface | src/Charcoal/Property/ModelStructureProperty.php:351-368 | refuses non-strings; a truthy string is registered and clears the finalized flag |
| ModelStructureProp.ModelStructureProperty.AddStructureInterfaces | src/Charcoal/Property/ModelStructureProperty.php:335-342 | the loop registers as `AddAll`, stopping at the first non-string |
| ModelStructureProp.ModelStructureProperty.SetStructureInterfaces | src/Charcoal/Property/ModelStructureProperty.php:320-327 | as written: empties the registry, then adds; the finalized flag is cleared only when something is added |
| ModelStructureProp.ModelStructureProperty.SetStructureInterfacesIntended | src/Charcoal/Property/ModelStructureProperty.php:320-327 | also clears the finalized flag |
| ModelStructureProp.ModelStructureProperty.SetStructureModelClass | src/Charcoal/Property/ModelStructureProperty.php:480-491 | a string becomes the class; anything else is refused |
| ModelStructureProp.ModelStructureProperty.StructureVal | src/Charcoal/Property/ModelStructureProperty.php:514-547 | null gives no structure; otherwise the models built from the parsed value and the default data |
| ModelStructureProp.StaleMetadataAfterClearing | src/Charcoal/Property/ModelStructureProperty.php:230-237 | as written: for any interface, after its metadata is loaded and the interfaces are cleared, the stale metadata is still returned |
| ModelStructureProp.FreshMetadataAfterClearing | src/Charcoal/Property/ModelStructureProperty.php:320-327 | with the intended setter, for any interface, the metadata is rebuilt and empty |
| ModelStructureProp.CachedMetadataIsStable | src/Charcoal/Property/ModelStructureProperty.php:230-237 | two calls return the same metadata |
| NumberProp.NumberProperty.Type | src/Charcoal/Property/NumberProperty.php:19-22 | the type is `number` |
| NumberProp.NumberProperty.SqlType | src/Charcoal/Property/NumberProperty.php:39-47 | `TEXT` exactly when multiple, `DOUBLE` otherwise |
| NumberProp.NumberProperty.SqlExtra | src/Charcoal/Property/NumberProperty.php:27-30 | no extra SQL |
| NumberProp.NumberProperty.SqlPdoType | src/Charcoal/Property/NumberProperty.php:52-55 | bound as a string parameter |
| NumberProp.NumberProperty.Save | src/Charcoal/Property/NumberProperty.php:60-63 | saving returns the value |
| GenericProp.GenericProperty.Type | src/Charcoal/Property/GenericProperty.php:19-22 | the type is `generic` |
| GenericProp.GenericProperty.SqlType | src/Charcoal/Property/GenericProperty.php:35-42 | `TEXT` exactly when multiple, `VARCHAR(255)` otherwise |
| GenericProp.GenericProperty.SqlExtra | src/Charcoal/Property/GenericProperty.php:27-30 | no extra SQL |
| GenericProp.GenericProperty.SqlPdoType | src/Charcoal/Property/GenericProperty.php:47-50 | bound as a string parameter |

## Left out

- Translation objects (`TranslationString`), the translator and the `l10n` language list are left out. A translated value is an array keyed by language.
- Dependency injection is not modelled: the constructors' `$data` options, the metadata loader object, the model factory and the logger. The loader and the factory are function parameters.
- `json_encode` and the `JSON_PRETTY_PRINT` layout are a `json` function parameter.
- PHP turns numeric-string array keys into integers. The model keeps keys as given.
- Date parsing (`new DateTime($s)`) and formatting (`format`) are the `Parser` and `Formatter` parameters. Instants are integers, and time zones are not modelled.
- Colour: the named-colour table (`colors.php`) is a map parameter. `hsl()`/`hsla()` are modelled only as the unsupported-notation exception. `type`, `sqlExtra` and `sqlPdoType` are constant-returning accessors, and `save` returns `val()` unchanged; none of the four is modelled.
- Colour: PHP's `(int)` cast of captures beyond 64 bits saturates. This is modelled by `Clamp64`, and ParseFormatRgb assumes components of at most `PHP_INT_MAX`.
- File: the upload functions (`save`, `dataUpload`, `fileUpload`, `move_uploaded_file`, `file_put_contents`) and `finfo` mimetype sniffing need the file system. `finfo` sniffing and disk size are function parameters. The set of existing files and directory writability are parameters of `UploadTarget`.
- File: `mimetype` and `filesize` start as PHP `null`. The model starts them at `""` and `0`, which the code treats the same way, since it tests them for falsiness.
- FileProp.MimetypeCheck: the accepted list holds strings, compared with `==` on strings. PHP's loose `==` at `FileProperty.php:274` also equates numeric strings with the same number (`"1e3" == "1000"`) and accepts entries that are not strings; neither is modelled.
- FileProp.Basename: only `/` separates path components, as on Unix; PHP on Windows also splits on `\`.
- File: `setAcceptedMimetypes` takes a list of strings. The source does not constrain the element types.
- Values: PHP floats are not modelled. A fractional alpha such as `rgba(255,0,0,0.5)` is refused by both `rgba` patterns, since the corrected pattern keeps `(\d+)` for the alpha.
- PropertyBase.BaseHandlers and DateTimeProp.DateTimeHandlers: the validator calls the method named `'validate_'.$m` when `is_callable` says it exists (`PropertyValidator.php:24-25`). The visible classes define `validateRequired`, `validateMin`, `validateAcceptedMimetypes` and similar camel-case methods, not `validate_required` or `validate_min`. The two maps bind each `validate_` name to the matching check. That binding holds only if code outside this model routes the names to those methods; otherwise `is_callable` fails for every name and validation passes without running any check. BaseChecksPass and DateTimeChecksPass describe the program under that assumption.
- `setMultipleOptions` and `setViewOptions` declare `array` parameters. The model's parameter types are already structured, so the `TypeError` for a non-array argument is not modelled.
- Colour: `ColorProperty::parseVal` is `private`, while the parent's `parseVal` is `public`. PHP refuses to load a class that narrows an inherited method's visibility. The model treats it as the colour parser the code evidently means.
- Strings: every string is a sequence of code points, and every PHP string function of the model works on them as PHP's functions work on bytes: `strlen` in `HasLength`, `substr`, `trim`, `strtolower`/`strtoupper`, `ucwords`, `str_replace`, `explode` and `sanitizeFilename`. For a multi-byte UTF-8 string PHP counts and cuts bytes, which the model does not capture.
- ModelStructure: `toStructure`, `structureProto`, `save`, `createStructureMetadata`'s class choice and `createStructureModel`'s `UnexpectedValueException` and `RuntimeException` are not modelled. The metadata merge is the loader's own map union.
- ModelStructureProp.ModelStructureProperty.StructureVal: the parent `parseVal` and the metadata defaults are function parameters.
- The `displayType`, `viewOptions` rendering and `PropertyMetadata` are not part of this model.
- `HtmlProperty.php`, `PropertyInterface.php` and the test files are not part of this model, except as background for the modelled behaviour.

## Findings

| source | as written | input that shows it | evidently intended | confidence | as-written member | corrected member |
|---|---|---|---|---|---|---|
| src/Charcoal/Property/ColorProperty.php:301 | the `rgba` pattern has `\(` where the comma before the alpha belongs, so no rgba string matches | `rgba(255,0,0,0)`, the value an alpha colour property itself stores | `\s*,\s*(\d+)` before the closing parenthesis | high, not executed | ColorProp.AlphaOutputRejected | ColorProp.AlphaOutputIsFixpointWhenFixed |
| src/Charcoal/Property/PropertyValidator.php:26 | `$ret = $ret && call_user_func($fn)` skips every handler after the first failure, so later errors are never recorded | two failing handlers `required` and `min` | call each handler and combine the results | medium, not executed | PropertyValidation.ShortCircuitLosesErrors | PropertyValidation.PropertyValidator.ValidateAll |
| src/Charcoal/Property/FileProperty.php:587 | `'\0'` in single quotes is the two characters backslash and zero, not NUL, so NUL survives | a file name containing the NUL character | `"\0"`, the NUL character | high, not executed | FileProp.NulIsKept | FileProp.SanitizeFilename |
| src/Charcoal/Property/ModelStructureProperty.php:373-381 | the comment says `.` becomes `/`, but only `\` is replaced | `foo.bar` | `foo/bar` | low, not executed (the comment may be stale) | ModelStructureProp.DotIsKept | ModelStructureProp.ParseStructureInterfaceIntended |
| src/Charcoal/Property/DateTimeProperty.php:100-133 | `inputVal`/`storageVal` format `$this->val` instead of the coerced argument | a date argument while the stored value is null, or is a different date | format the coerced argument | high, not executed | DateTimeProp.FormatsStoredInstant | DateTimeProp.StorageValRoundTrip |
| src/Charcoal/Property/ModelStructureProperty.php:320-327 | `setStructureInterfaces([])` empties the registry without clearing the finalized flag, so `structureMetadata()` keeps returning the metadata of the old interfaces | add any non-empty interface such as `Foo\Bar`, load metadata, set the interfaces to `[]`, load again | clear the finalized flag whenever the registry is replaced | medium, not executed | ModelStructureProp.StaleMetadataAfterClearing | ModelStructureProp.FreshMetadataAfterClearing |
