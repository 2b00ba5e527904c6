/**
 * The model-structure property: a registry of metadata interfaces, a cached
 * structure metadata built from those interfaces and from the property's own
 * "terminal" metadata, and the conversion of a value into structure models.
 *
 * Metadata is a map from field names to values; merging is right-biased (a
 * later merge wins on a shared key). The metadata loader, the model factory
 * and the parent class's `parseVal` are parameters.
 */
module ModelStructureProp {
  import opened PhpValues
  import opened PhpStrings
  import opened PropertyBase

  const TypeName: string := "model-structure"

  /** `Model::class`, the default structure model class. */
  const DefaultModelClass: string := "Charcoal\\Model\\Model"

  predicate IsLowerAscii(c: char) { 'a' <= c <= 'z' }
  predicate IsUpperAscii(c: char) { 'A' <= c <= 'Z' }

  predicate NoUpper(s: string) {
    forall i :: 0 <= i < |s| ==> !IsUpperAscii(s[i])
  }

  /** A lowercase letter directly followed by an uppercase one at `i`. */
  predicate BoundaryAt(s: string, i: int) {
    0 <= i < |s| - 1 && IsLowerAscii(s[i]) && IsUpperAscii(s[i + 1])
  }

  /** The number of camel-case boundaries, counted position by position. */
  function Boundaries(s: string): nat
    decreases |s|
  {
    if |s| < 2 then 0 else (if BoundaryAt(s, 0) then 1 else 0) + Boundaries(s[1..])
  }

  /** The string without its `-` characters. */
  function Dehyphen(s: string): string
    decreases |s|
  {
    if |s| == 0 then [] else (if s[0] == '-' then [] else [s[0]]) + Dehyphen(s[1..])
  }

  /**
   * `preg_replace('/([a-z])([A-Z])/', '$1-$2', s)`: the pattern is scanned
   * left to right and each match resumes after the uppercase letter.
   */
  function Hyphenate(s: string): (r: string)
    ensures |r| >= |s|
    ensures |s| > 0 ==> |r| > 0 && r[0] == s[0]
    decreases |s|
  {
    if |s| < 2 then s
    else if IsLowerAscii(s[0]) && IsUpperAscii(s[1]) then [s[0], '-', s[1]] + Hyphenate(s[2..])
    else [s[0]] + Hyphenate(s[1..])
  }

  /** After hyphenation no lowercase letter is followed by an uppercase one. */
  lemma {:induction false} HyphenateSeparates(s: string)
    ensures forall i :: !BoundaryAt(Hyphenate(s), i)
    decreases |s|
  {
    var r := Hyphenate(s);
    if |s| < 2 {
    } else if IsLowerAscii(s[0]) && IsUpperAscii(s[1]) {
      var t := Hyphenate(s[2..]);
      HyphenateSeparates(s[2..]);
      assert r == [s[0], '-', s[1]] + t;
      forall i | 0 <= i < |r| - 1
        ensures !BoundaryAt(r, i)
      {
        if i >= 3 {
          assert r[i] == t[i - 3] && r[i + 1] == t[i - 2];
          assert !BoundaryAt(t, i - 3);
        }
      }
    } else {
      var t := Hyphenate(s[1..]);
      HyphenateSeparates(s[1..]);
      assert r == [s[0]] + t;
      forall i | 0 <= i < |r| - 1
        ensures !BoundaryAt(r, i)
      {
        if i >= 1 {
          assert r[i] == t[i - 1] && r[i + 1] == t[i];
          assert !BoundaryAt(t, i - 1);
        } else {
          assert r[1] == t[0] == s[1];
        }
      }
    }
  }

  /** Hyphenation inserts one character per camel-case boundary. */
  lemma {:induction false} HyphenateLength(s: string)
    ensures |Hyphenate(s)| == |s| + Boundaries(s)
    decreases |s|
  {
    if |s| < 2 {
    } else if IsLowerAscii(s[0]) && IsUpperAscii(s[1]) {
      HyphenateLength(s[2..]);
      assert s[1..][1..] == s[2..];
      if |s| >= 3 {
        assert !BoundaryAt(s[1..], 0);
      }
    } else {
      HyphenateLength(s[1..]);
    }
  }

  /** The characters hyphenation inserts are all `-`: the rest is the input, in order. */
  lemma {:induction false} HyphenateOnlyAddsHyphens(s: string)
    ensures Dehyphen(Hyphenate(s)) == Dehyphen(s)
    decreases |s|
  {
    if |s| < 2 {
    } else if IsLowerAscii(s[0]) && IsUpperAscii(s[1]) {
      var t := Hyphenate(s[2..]);
      HyphenateOnlyAddsHyphens(s[2..]);
      var r := [s[0], '-', s[1]] + t;
      assert r[1..] == ['-', s[1]] + t;
      assert r[1..][1..] == [s[1]] + t;
      assert ([s[1]] + t)[1..] == t;
      assert s[1..][1..] == s[2..];
      var c1: string := if s[1] == '-' then [] else [s[1]];
      var c0: string := if s[0] == '-' then [] else [s[0]];
      assert Dehyphen(s[1..]) == c1 + Dehyphen(s[2..]);
      assert Dehyphen([s[1]] + t) == c1 + Dehyphen(t);
      assert Dehyphen(r[1..]) == Dehyphen([s[1]] + t);
      assert Dehyphen(r) == c0 + Dehyphen(r[1..]);
    } else {
      var t := Hyphenate(s[1..]);
      HyphenateOnlyAddsHyphens(s[1..]);
      assert ([s[0]] + t)[1..] == t;
    }
  }

  /** A string without uppercase letters has nothing to hyphenate. */
  lemma {:induction false} HyphenateNoUpper(s: string)
    requires NoUpper(s)
    ensures Hyphenate(s) == s
    decreases |s|
  {
    if |s| >= 2 {
      assert !IsUpperAscii(s[1]);
      assert NoUpper(s[1..]);
      HyphenateNoUpper(s[1..]);
      assert s == [s[0]] + s[1..];
    }
  }

  /** A `.` survives hyphenation, and none is introduced. */
  lemma {:induction false} HyphenateKeepsDots(s: string)
    ensures '.' in Hyphenate(s) <==> '.' in s
    decreases |s|
  {
    if |s| >= 2 {
      if IsLowerAscii(s[0]) && IsUpperAscii(s[1]) {
        HyphenateKeepsDots(s[2..]);
        assert s == [s[0], s[1]] + s[2..];
      } else {
        HyphenateKeepsDots(s[1..]);
        assert s == [s[0]] + s[1..];
      }
    }
  }

  lemma ToLowerNoUpper(s: string)
    requires NoUpper(s)
    ensures ToLower(s) == s
  {
    assert forall i :: 0 <= i < |s| ==> ToLower(s)[i] == s[i];
  }

  lemma ReplaceCharAbsent(s: string, c: char, r: char)
    requires c !in s
    ensures ReplaceChar(s, c, r) == s
  {
    assert forall i :: 0 <= i < |s| ==> ReplaceChar(s, c, r)[i] == s[i];
  }

  /**
   * `parseStructureInterface` as written: camel-case boundaries get a `-`,
   * `\` becomes `/`, and the result is lowercased. A `.` is kept.
   */
  function ParseStructureInterface(s: string): (r: string)
    ensures |r| >= |s|
    ensures NoUpper(r) && '\\' !in r
    ensures '.' in r <==> '.' in s
  {
    var h := Hyphenate(s);
    var t := ReplaceChar(h, '\\', '/');
    var r := ToLower(t);
    HyphenateKeepsDots(s);
    assert forall i :: 0 <= i < |h| ==> (h[i] == '.' <==> r[i] == '.');
    assert forall i :: 0 <= i < |r| ==> r[i] != '\\';
    r
  }

  /** The idents the parser produces are the ones it leaves as they are. */
  lemma ParseStructureInterfaceIdempotent(s: string)
    ensures ParseStructureInterface(ParseStructureInterface(s)) == ParseStructureInterface(s)
  {
    var r := ParseStructureInterface(s);
    HyphenateNoUpper(r);
    ReplaceCharAbsent(r, '\\', '/');
    ToLowerNoUpper(r);
  }

  /** Every camel-case boundary of the interface name is marked by a `-` in the ident. */
  lemma ParseStructureInterfaceHyphens(s: string)
    ensures |ParseStructureInterface(s)| == |s| + Boundaries(s)
  {
    HyphenateLength(s);
  }

  /** The documented conversion: `\` and `.` both become `/`, then lowercase. */
  function ParseStructureInterfaceIntended(s: string): (r: string)
    ensures |r| >= |s|
    ensures NoUpper(r) && '\\' !in r && '.' !in r
  {
    var t := ReplaceChar(ReplaceChar(Hyphenate(s), '\\', '/'), '.', '/');
    var r := ToLower(t);
    assert forall i :: 0 <= i < |r| ==> r[i] != '\\' && r[i] != '.';
    r
  }

  lemma ParseStructureInterfaceIntendedIdempotent(s: string)
    ensures ParseStructureInterfaceIntended(ParseStructureInterfaceIntended(s)) == ParseStructureInterfaceIntended(s)
  {
    var r := ParseStructureInterfaceIntended(s);
    HyphenateNoUpper(r);
    ReplaceCharAbsent(r, '\\', '/');
    ReplaceCharAbsent(r, '.', '/');
    ToLowerNoUpper(r);
  }

  /** An interface written with dots keeps them as written, unlike the documented conversion. */
  lemma DotIsKept(s: string)
    requires '.' in s
    ensures '.' in ParseStructureInterface(s)
    ensures '.' !in ParseStructureInterfaceIntended(s)
    ensures ParseStructureInterface(s) != ParseStructureInterfaceIntended(s)
  {
  }

  // ---------------------------------------------------------------------
  // The interface registry

  predicate NoDuplicates(reg: seq<string>) {
    forall i, j :: 0 <= i < j < |reg| ==> reg[i] != reg[j]
  }

  /** An ident as the registry stores it: non-empty and already parsed. */
  predicate IsIdent(x: string) {
    x != "" && ParseStructureInterface(x) == x
  }

  predicate AllIdents(reg: seq<string>) {
    forall i :: 0 <= i < |reg| ==> IsIdent(reg[i])
  }

  /** `$this->structureInterfaces[$ident] = true` on an ordered array: a new key goes last. */
  function Register(reg: seq<string>, s: string): (r: seq<string>)
    requires s != ""
    ensures ParseStructureInterface(s) in r
    ensures |r| >= |reg| && r[..|reg|] == reg
    ensures forall x :: x in r ==> x in reg || x == ParseStructureInterface(s)
    ensures NoDuplicates(reg) ==> NoDuplicates(r)
    ensures AllIdents(reg) ==> AllIdents(r)
  {
    var p := ParseStructureInterface(s);
    ParseStructureInterfaceIdempotent(s);
    if p in reg then reg else reg + [p]
  }

  /** `addStructureInterface($v)` on the registry: a non-string throws, an empty one is ignored. */
  function AddInterface(reg: seq<string>, v: Value): (r: Result<seq<string>>)
    ensures r.Err? <==> !v.Str?
    ensures r.Ok? && !Truthy(v) ==> r.value == reg
    ensures r.Ok? && Truthy(v) ==> ParseStructureInterface(v.s) in r.value
  {
    if !v.Str? then Err(InvalidArgumentException)
    else if !Truthy(v) then Ok(reg)
    else Ok(Register(reg, v.s))
  }

  predicate AllStrings(vs: seq<Value>) {
    forall j :: 0 <= j < |vs| ==> vs[j].Str?
  }

  /**
   * The registry after `addStructureInterfaces($vs)`: the `foreach` adds the
   * items in order and stops at the first non-string, which throws.
   */
  function AddAll(reg: seq<string>, vs: seq<Value>): (r: seq<string>)
    ensures |r| >= |reg| && r[..|reg|] == reg
    ensures NoDuplicates(reg) ==> NoDuplicates(r)
    ensures AllIdents(reg) ==> AllIdents(r)
    decreases |vs|
  {
    if |vs| == 0 || !vs[0].Str? then reg
    else
      var next := AddInterface(reg, vs[0]).value;
      var r := AddAll(next, vs[1..]);
      assert r[..|reg|] == r[..|next|][..|reg|];
      r
  }

  /** Whether `addStructureInterfaces($vs)` registers anything, which clears the finalized flag. */
  predicate Touches(vs: seq<Value>)
    decreases |vs|
  {
    |vs| > 0 && vs[0].Str? && (Truthy(vs[0]) || Touches(vs[1..]))
  }

  /** One step of the `foreach`: item `i`, a string, is added and the rest is still to come. */
  lemma AddAllStep(reg: seq<string>, finalized: bool, vs: seq<Value>, i: nat)
    requires i < |vs| && vs[i].Str?
    ensures var next := AddInterface(reg, vs[i]).value;
      AddAll(next, vs[i + 1..]) == AddAll(reg, vs[i..]) &&
      ((finalized && !Truthy(vs[i])) && !Touches(vs[i + 1..])) == (finalized && !Touches(vs[i..]))
  {
    assert vs[i..][1..] == vs[i + 1..];
  }

  /** The registry holds exactly the old idents and the parsed non-empty items. */
  lemma {:induction false} AddAllMembers(reg: seq<string>, vs: seq<Value>, x: string)
    requires AllStrings(vs)
    ensures x in AddAll(reg, vs) <==>
      x in reg || exists j :: 0 <= j < |vs| && Truthy(vs[j]) && ParseStructureInterface(vs[j].s) == x
    decreases |vs|
  {
    if |vs| > 0 {
      var next := AddInterface(reg, vs[0]).value;
      AddAllMembers(next, vs[1..], x);
      assert forall j :: 1 <= j < |vs| ==> vs[j] == vs[1..][j - 1];
      if x in AddAll(reg, vs) && x !in reg && x !in next {
        var j :| 0 <= j < |vs[1..]| && Truthy(vs[1..][j]) && ParseStructureInterface(vs[1..][j].s) == x;
        assert vs[j + 1] == vs[1..][j];
      }
    }
  }

  /** Items whose idents are all registered already leave the registry as it is. */
  lemma {:induction false} AddAllRegistered(reg: seq<string>, vs: seq<Value>)
    requires forall j :: 0 <= j < |vs| && vs[j].Str? && Truthy(vs[j]) ==> ParseStructureInterface(vs[j].s) in reg
    ensures AddAll(reg, vs) == reg
    decreases |vs|
  {
    if |vs| > 0 && vs[0].Str? {
      assert forall j :: 1 <= j < |vs| ==> vs[j] == vs[1..][j - 1];
      AddAllRegistered(reg, vs[1..]);
    }
  }

  /** Adding the same interfaces twice registers them once. */
  lemma AddAllIdempotent(reg: seq<string>, vs: seq<Value>)
    requires AllStrings(vs)
    ensures AddAll(AddAll(reg, vs), vs) == AddAll(reg, vs)
  {
    var r := AddAll(reg, vs);
    forall j | 0 <= j < |vs| && vs[j].Str? && Truthy(vs[j])
      ensures ParseStructureInterface(vs[j].s) in r
    {
      AddAllMembers(reg, vs, ParseStructureInterface(vs[j].s));
    }
    AddAllRegistered(r, vs);
  }

  // ---------------------------------------------------------------------
  // Structure metadata

  type Metadata = map<string, Value>

  /** The metadata loader: `load($ident, $struct, $paths)`. */
  type Loader = (string, Metadata, seq<string>) -> Metadata

  /** The argument of `setStructureMetadata`. */
  datatype StructureArg =
    | NullArg
    | ArrayArg(fields: Metadata)
    | MetadataArg(fields: Metadata)   // a MetadataInterface instance
    | OtherArg(v: Value)              // anything else

  /** The ident under which the loader looks up the interfaces. */
  function LoaderIdent(ident: string): string {
    "property/structure/" + ident
  }

  /**
   * What `loadStructureMetadata` builds on an unfinalized property: the
   * interfaces' data when there are interfaces, then the terminal metadata
   * merged over it.
   */
  function LoadedMetadata(ident: string, paths: seq<string>, terminal: Option<Metadata>, loader: Loader): (m: Metadata)
    ensures terminal.Some? ==> forall k :: k in terminal.value ==> k in m && m[k] == terminal.value[k]
    ensures |paths| == 0 ==> m == if terminal.Some? then terminal.value else map[]
    ensures |paths| > 0 ==> forall k :: k in m && (terminal.None? || k !in terminal.value) ==>
      k in loader(LoaderIdent(ident), map[], paths) && m[k] == loader(LoaderIdent(ident), map[], paths)[k]
  {
    var empty: Metadata := map[];
    var loaded := if |paths| > 0 then loader(LoaderIdent(ident), empty, paths) else empty;
    if terminal.Some? then loaded + terminal.value else loaded
  }

  datatype StructureState = StructureState(
    finalized: bool, interfaces: seq<string>, cache: Option<Metadata>, terminal: Option<Metadata>, modelClass: string)

  /** A structure model: its class, its metadata and the datasets applied to it, in order. */
  datatype StructureModel = StructureModel(modelClass: string, metadata: Metadata, datasets: seq<Value>)

  /** What `structureVal` returns: null, one model, or a list of models. */
  datatype Structured = NoStructure | Single(model: StructureModel) | Many(models: seq<StructureModel>)

  /** The `default_data` option: `true` takes the metadata's defaults, an array is used as given. */
  function DefaultData(options: Value, m: Metadata, defaultsOf: Metadata -> seq<Entry>): (d: Value)
    ensures d.Arr?
    ensures !IsSet(options, SKey("default_data")) ==> d == List([])
    ensures Get(options, SKey("default_data")) == Bool(true) ==> d == Arr(defaultsOf(m))
    ensures Get(options, SKey("default_data")).Arr? ==> d == Get(options, SKey("default_data"))
  {
    var o := Get(options, SKey("default_data"));
    if !IsSet(options, SKey("default_data")) then List([])
    else if o.Bool? then (if o.b then Arr(defaultsOf(m)) else List([]))
    else if o.Arr? then o
    else List([])
  }

  /** The elements `foreach` visits: none for a non-array. */
  function Elements(v: Value): seq<Value> {
    if v.Arr? then ValuesOf(v.entries) else []
  }

  /**
   * The models built from a parsed value: one per element when `multiple`
   * is on, else one for the value, each given the defaults first and its own
   * data second. A dataset that is not an array fails the `array` type.
   */
  function ModelsOf(modelClass: string, m: Metadata, defaults: Value, parsed: Value, multiple: bool): (r: Result<Structured>)
    ensures multiple && r.Ok? ==> r.value.Many? && |r.value.models| == |Elements(parsed)|
    ensures multiple && r.Ok? ==> forall i :: 0 <= i < |Elements(parsed)| ==>
      r.value.models[i] == StructureModel(modelClass, m, [defaults, Elements(parsed)[i]])
    ensures multiple ==> (r.Err? <==> exists i :: 0 <= i < |Elements(parsed)| && !Elements(parsed)[i].Arr?)
    ensures !multiple ==> r == if parsed.Arr? && defaults.Arr? then Ok(Single(StructureModel(modelClass, m, [defaults, parsed]))) else Err(TypeError)
  {
    var items := Elements(parsed);
    if multiple then
      if exists i :: 0 <= i < |items| && !items[i].Arr? then Err(TypeError)
      else Ok(Many(seq(|items|, i requires 0 <= i < |items| => StructureModel(modelClass, m, [defaults, items[i]]))))
    else if parsed.Arr? && defaults.Arr? then Ok(Single(StructureModel(modelClass, m, [defaults, parsed])))
    else Err(TypeError)
  }

  class ModelStructureProperty {
    const base: AbstractProperty
    var isStructureFinalized: bool
    /** The keys of the `structureInterfaces` array, in insertion order. */
    var structureInterfaces: seq<string>
    var structureMetadata: Option<Metadata>
    var terminalStructureMetadata: Option<Metadata>
    var structureModelClass: string

    function Snapshot(): StructureState
      reads this
    {
      StructureState(isStructureFinalized, structureInterfaces, structureMetadata, terminalStructureMetadata,
                     structureModelClass)
    }

    /** Registered idents are parsed and distinct, and a finalized property has metadata. */
    ghost predicate Valid()
      reads this
    {
      NoDuplicates(structureInterfaces) && AllIdents(structureInterfaces) &&
      (isStructureFinalized ==> structureMetadata.Some?)
    }

    constructor ()
      ensures fresh(base) && Valid()
      ensures Snapshot() == StructureState(false, [], None, None, DefaultModelClass)
      ensures base.Snapshot() == State("", Null, None, false, false, false, None, false, false, true,
                                       true, true, "", "", [])
    {
      base := new AbstractProperty();
      isStructureFinalized := false;
      structureInterfaces := [];
      structureMetadata, terminalStructureMetadata := None, None;
      structureModelClass := DefaultModelClass;
    }

    /** `structureInterfaces()`: the registered idents, in order. */
    function StructureInterfaces(): (r: seq<string>)
      reads this
      ensures Valid() ==> NoDuplicates(r) && AllIdents(r)
      ensures r == structureInterfaces
    {
      structureInterfaces
    }

    /** The metadata `structureMetadata()` returns: the cache when finalized, else a fresh build. */
    function CurrentMetadata(loader: Loader): Metadata
      reads this, base
    {
      if structureMetadata.Some? && isStructureFinalized then structureMetadata.value
      else LoadedMetadata(base.ident, structureInterfaces, terminalStructureMetadata, loader)
    }

    /**
     * `setStructureMetadata($data)`: null, an array or a metadata object is
     * stored as both the current and the terminal metadata; anything else
     * throws. The finalized flag is cleared on success.
     */
    method SetStructureMetadata(arg: StructureArg) returns (r: Result<()>)
      requires Valid()
      modifies this
      ensures Valid()
      ensures r.Err? <==> arg.OtherArg?
      ensures arg.NullArg? ==> Snapshot() == old(Snapshot()).(cache := None, terminal := None, finalized := false)
      ensures (arg.ArrayArg? || arg.MetadataArg?) ==>
        Snapshot() == old(Snapshot()).(cache := Some(arg.fields), terminal := Some(arg.fields), finalized := false)
      ensures arg.OtherArg? ==> Snapshot() == old(Snapshot())
    {
      match arg {
      case NullArg =>
        structureMetadata, terminalStructureMetadata := None, None;
      case ArrayArg(data) =>
        var struct: Metadata := map[];
        assert struct + data == data;
        structureMetadata := Some(struct + data);
        terminalStructureMetadata := Some(data);
      case MetadataArg(data) =>
        structureMetadata, terminalStructureMetadata := Some(data), Some(data);
      case OtherArg(_) =>
        return Err(InvalidArgumentException);
      }
      isStructureFinalized := false;
      return Ok(());
    }

    /**
     * `loadStructureMetadata()`: on an unfinalized property, set the flag and
     * load the interfaces if there are any; then merge the terminal metadata.
     */
    method LoadStructureMetadata(loader: Loader) returns (m: Metadata)
      modifies this
      ensures Snapshot() == old(Snapshot()).(finalized := true)
      ensures !old(isStructureFinalized) ==>
        m == LoadedMetadata(base.ident, structureInterfaces, terminalStructureMetadata, loader)
      ensures old(isStructureFinalized) ==> m == LoadedMetadata(base.ident, [], terminalStructureMetadata, loader)
    {
      m := map[];
      if !isStructureFinalized {
        isStructureFinalized := true;
        if |structureInterfaces| > 0 {
          m := loader(LoaderIdent(base.ident), m, structureInterfaces);
        }
      }
      if terminalStructureMetadata.Some? {
        m := m + terminalStructureMetadata.value;
      }
    }

    /** `structureMetadata()`: rebuild when there is no cache or it is not finalized, else reuse it. */
    method StructureMetadata(loader: Loader) returns (m: Metadata)
      requires Valid()
      modifies this
      ensures Valid()
      ensures m == old(CurrentMetadata(loader))
      ensures Snapshot() == old(Snapshot()).(finalized := true, cache := Some(m))
    {
      if structureMetadata.None? || !isStructureFinalized {
        var loaded := LoadStructureMetadata(loader);
        structureMetadata := Some(loaded);
      }
      m := structureMetadata.value;
    }

    /** `addStructureInterface($v)`: register the parsed ident of a non-empty string. */
    method AddStructureInterface(v: Value) returns (r: Result<()>)
      requires Valid()
      modifies this
      ensures Valid()
      ensures r.Err? <==> !v.Str?
      ensures Snapshot() == if v.Str? && Truthy(v)
        then old(Snapshot()).(interfaces := Register(old(structureInterfaces), v.s), finalized := false)
        else old(Snapshot())
    {
      if !v.Str? {
        return Err(InvalidArgumentException);
      }
      if Truthy(v) {
        structureInterfaces := Register(structureInterfaces, v.s);
        isStructureFinalized := false;
      }
      return Ok(());
    }

    /** `addStructureInterfaces(array $vs)`: add each item in turn, stopping at the first that throws. */
    method AddStructureInterfaces(items: Value) returns (r: Result<()>)
      requires Valid()
      modifies this
      ensures Valid()
      ensures r.Err? <==> !items.Arr? || !AllStrings(ValuesOf(items.entries))
      ensures !items.Arr? ==> Snapshot() == old(Snapshot())
      ensures items.Arr? ==> var vs := ValuesOf(items.entries);
        Snapshot() == old(Snapshot()).(interfaces := AddAll(old(structureInterfaces), vs),
                                       finalized := old(isStructureFinalized) && !Touches(vs))
    {
      if !items.Arr? {
        return Err(TypeError);
      }
      var vs := ValuesOf(items.entries);
      var i := 0;
      while i < |vs|
        invariant 0 <= i <= |vs|
        invariant Valid()
        invariant AllStrings(vs[..i])
        invariant AddAll(structureInterfaces, vs[i..]) == AddAll(old(structureInterfaces), vs)
        invariant (isStructureFinalized && !Touches(vs[i..])) == (old(isStructureFinalized) && !Touches(vs))
        invariant structureMetadata == old(structureMetadata)
        invariant terminalStructureMetadata == old(terminalStructureMetadata)
        invariant structureModelClass == old(structureModelClass)
      {
        var before, finalized := structureInterfaces, isStructureFinalized;
        var x := AddStructureInterface(vs[i]);
        if x.Err? {
          return x;
        }
        AddAllStep(before, finalized, vs, i);
        assert vs[..i + 1] == vs[..i] + [vs[i]];
        i := i + 1;
      }
      assert vs[..i] == vs;
      return Ok(());
    }

    /**
     * `setStructureInterfaces(array $vs)`: empty the registry, then add the
     * items. The finalized flag is left as it was unless an item is added.
     */
    method SetStructureInterfaces(items: Value) returns (r: Result<()>)
      requires Valid()
      modifies this
      ensures Valid()
      ensures r.Err? <==> !items.Arr? || !AllStrings(ValuesOf(items.entries))
      ensures !items.Arr? ==> Snapshot() == old(Snapshot())
      ensures items.Arr? ==> var vs := ValuesOf(items.entries);
        Snapshot() == old(Snapshot()).(interfaces := AddAll([], vs),
                                       finalized := old(isStructureFinalized) && !Touches(vs))
    {
      if !items.Arr? {
        return Err(TypeError);
      }
      structureInterfaces := [];
      r := AddStructureInterfaces(items);
    }

    /** `setStructureInterfaces` that also invalidates the cached metadata. */
    method SetStructureInterfacesIntended(items: Value) returns (r: Result<()>)
      requires Valid()
      modifies this
      ensures Valid()
      ensures r.Err? <==> !items.Arr? || !AllStrings(ValuesOf(items.entries))
      ensures !items.Arr? ==> Snapshot() == old(Snapshot())
      ensures items.Arr? ==>
        Snapshot() == old(Snapshot()).(interfaces := AddAll([], ValuesOf(items.entries)), finalized := false)
    {
      if !items.Arr? {
        return Err(TypeError);
      }
      structureInterfaces := [];
      isStructureFinalized := false;
      r := AddStructureInterfaces(items);
    }

    /** `setStructureModelClass($v)`: only a string is accepted. */
    method SetStructureModelClass(v: Value) returns (r: Result<()>)
      modifies this
      ensures r.Err? <==> !v.Str?
      ensures Snapshot() == if v.Str? then old(Snapshot()).(modelClass := v.s) else old(Snapshot())
    {
      if !v.Str? {
        return Err(InvalidArgumentException);
      }
      structureModelClass := v.s;
      return Ok(());
    }

    /**
     * `structureVal($val, $options)`: null gives an empty list or null;
     * otherwise the metadata is loaded and the parsed value becomes models.
     */
    method StructureVal(val: Value, options: Value, loader: Loader, parse: Value -> Value,
                        defaultsOf: Metadata -> seq<Entry>) returns (r: Result<Structured>)
      requires Valid()
      modifies this
      ensures Valid()
      ensures val == Null ==> r == Ok(if base.multiple then Many([]) else NoStructure)
      ensures val == Null ==> Snapshot() == old(Snapshot())
      ensures val != Null ==> var m := old(CurrentMetadata(loader));
        Snapshot() == old(Snapshot()).(finalized := true, cache := Some(m)) &&
        r == ModelsOf(structureModelClass, m, DefaultData(options, m, defaultsOf), parse(val), base.multiple)
    {
      if val == Null {
        return Ok(if base.multiple then Many([]) else NoStructure);
      }
      var m := StructureMetadata(loader);
      var defaults := DefaultData(options, m, defaultsOf);
      var parsed := parse(val);
      if !base.multiple {
        if !parsed.Arr? {
          return Err(TypeError);
        }
        return Ok(Single(StructureModel(structureModelClass, m, [defaults, parsed])));
      }
      var items := Elements(parsed);
      var cls := structureModelClass;
      var models: seq<StructureModel> := [];
      var i := 0;
      while i < |items|
        invariant 0 <= i <= |items|
        invariant |models| == i
        invariant forall j :: 0 <= j < i ==> items[j].Arr?
        invariant forall j :: 0 <= j < i ==> models[j] == StructureModel(cls, m, [defaults, items[j]])
      {
        if !items[i].Arr? {
          return Err(TypeError);
        }
        models := models + [StructureModel(cls, m, [defaults, items[i]])];
        i := i + 1;
      }
      assert models == seq(|items|, j requires 0 <= j < |items| => StructureModel(cls, m, [defaults, items[j]]));
      return Ok(Many(models));
    }
  }

  /** A loader that contributes one field, whatever it is asked. */
  function TitleLoader(ident: string, m: Metadata, paths: seq<string>): Metadata {
    map["title" := Bool(true)]
  }

  /**
   * Emptying the registry of a property whose metadata was already loaded
   * leaves the loaded metadata in place: the interface's field survives.
   */
  method StaleMetadataAfterClearing(iface: string) returns (m: Metadata)
    requires Truthy(Str(iface))
    ensures m == map["title" := Bool(true)]
  {
    var p := new ModelStructureProperty();
    var _ := p.AddStructureInterface(Str(iface));
    assert |p.structureInterfaces| > 0 && p.terminalStructureMetadata.None?;
    var loaded := p.StructureMetadata(TitleLoader);
    assert loaded == map["title" := Bool(true)] && p.isStructureFinalized;
    var _ := p.SetStructureInterfaces(List([]));
    assert p.structureMetadata == Some(loaded) && p.isStructureFinalized;
    m := p.StructureMetadata(TitleLoader);
  }

  /** With the intended setter the metadata is rebuilt without the interfaces. */
  method FreshMetadataAfterClearing(iface: string) returns (m: Metadata)
    requires Truthy(Str(iface))
    ensures m == map[]
  {
    var p := new ModelStructureProperty();
    var _ := p.AddStructureInterface(Str(iface));
    var _ := p.StructureMetadata(TitleLoader);
    var _ := p.SetStructureInterfacesIntended(List([]));
    assert p.structureInterfaces == [] && !p.isStructureFinalized && p.terminalStructureMetadata.None?;
    m := p.StructureMetadata(TitleLoader);
  }

  /** Once loaded, the metadata is served from the cache, whatever the loader. */
  method CachedMetadataIsStable(p: ModelStructureProperty, first: Loader, second: Loader) returns (m1: Metadata, m2: Metadata)
    requires p.Valid()
    modifies p
    ensures m1 == m2
  {
    m1 := p.StructureMetadata(first);
    m2 := p.StructureMetadata(second);
  }
}
