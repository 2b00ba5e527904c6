/**
 * The generic property: the plainest concrete property, storing its value
 * as a string column.
 */
module GenericProp {
  import opened PhpValues
  import opened PropertyBase

  const TypeName: string := "generic"

  /** `PDO::PARAM_STR`. */
  const PdoParamStr: int := 2

  class GenericProperty {
    const base: AbstractProperty

    constructor ()
      ensures fresh(base)
      ensures base.Snapshot() == State("", Null, None, false, false, false, None, false, false, true,
                                       true, true, "", "", [])
    {
      base := new AbstractProperty();
    }

    function Type(): (t: string)
      ensures t == "generic"
    {
      TypeName
    }

    /** A list is stored as text; a single value in a 255-character column. */
    function SqlType(): (t: string)
      reads base
      ensures base.multiple <==> t == "TEXT"
      ensures !base.multiple <==> t == "VARCHAR(255)"
    {
      if base.multiple then "TEXT" else "VARCHAR(255)"
    }

    function SqlExtra(): (e: string)
      ensures e == ""
    {
      ""
    }

    function SqlPdoType(): (k: int)
      ensures k == PdoParamStr
    {
      PdoParamStr
    }
  }
}
