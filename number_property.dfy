/**
 * The number property: a property with numeric storage. Its value handling
 * is the base property's; only its storage description differs.
 */
module NumberProp {
  import opened PhpValues
  import opened PropertyBase

  const TypeName: string := "number"

  /** `PDO::PARAM_STR`. */
  const PdoParamStr: int := 2

  class NumberProperty {
    const base: AbstractProperty

    constructor ()
      ensures fresh(base)
      ensures base.Snapshot() == State("", Null, None, false, false, false, None, false, false, true,
                                       true, true, "", "", [])
    {
      base := new AbstractProperty();
    }

    function Type(): (t: string)
      ensures t == "number"
    {
      TypeName
    }

    /** A list of numbers has no fixed length and is stored as text; a single number as a double. */
    function SqlType(): (t: string)
      reads base
      ensures base.multiple <==> t == "TEXT"
      ensures !base.multiple <==> t == "DOUBLE"
    {
      if base.multiple then "TEXT" else "DOUBLE"
    }

    function SqlExtra(): (e: string)
      ensures e == ""
    {
      ""
    }

    /** Numbers are bound to statements as strings. */
    function SqlPdoType(): (k: int)
      ensures k == PdoParamStr
    {
      PdoParamStr
    }

    /** `save()`: the value is stored as it is. */
    function Save(): (v: Value)
      reads base
      ensures v == base.val
    {
      base.val
    }
  }
}
