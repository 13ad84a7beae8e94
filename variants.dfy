/** The subset of `vtkVariant` the record layer stores: no value (an invalid
  * variant, SQL NULL), a string or an integer. */
module Variants {
  import opened Text

  datatype Variant = Null | Str(s: string) | Int(i: int)
  {
    /** `vtkVariant::IsValid`: false only for the empty variant. */
    predicate IsValid() { !Null? }

    /** `vtkVariant::ToString`: the empty string for an invalid variant. */
    function ToString(): string
    {
      match this
      case Null => ""
      case Str(s) => s
      case Int(i) => IntToString(i)
    }

    /** `vtkVariant::ToInt`: 0 for an invalid variant, stream extraction for a
      * string. */
    function ToInt(): int
    {
      match this
      case Null => 0
      case Str(s) => StreamInt(s)
      case Int(i) => i
    }
  }

  /** Rendering any variant as text and reading the text back as an integer
    * gives the variant's integer value: an integer survives the trip through
    * a string column, and a string keeps its stream-extracted value. */
  lemma ToIntOfToString(v: Variant)
    ensures Str(v.ToString()).ToInt() == v.ToInt()
  {
    match v
    case Null =>
      assert DropSpaces("") == "";
    case Str(s) =>
    case Int(i) =>
      StreamIntOfIntToString(i);
  }
}
