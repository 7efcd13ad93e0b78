/** `util::create_parameter`: the factory from a type tag to a fresh cell.
    The tag is the integer underneath the C++ enum `parameter_type`, so a
    value outside the five enumerators can reach the factory's default
    branch, which yields no cell. */
module Util {
  import opened Options
  import opened Parameters

  // The enumerator values of `parameter_type`.
  const NONE: int := 0
  const INTEGER: int := 1
  const STRING: int := 2
  const FLOAT: int := 3
  const BOOL: int := 4

  /** The factory's `switch`: which variant a tag selects, if any. */
  function TypeOfTag(tag: int): (r: Option<ParamType>)
    ensures r.Some? <==> NONE <= tag <= BOOL
  {
    if tag == NONE then Some(NoneType)
    else if tag == INTEGER then Some(IntegerType)
    else if tag == STRING then Some(StringType)
    else if tag == FLOAT then Some(FloatType)
    else if tag == BOOL then Some(BoolType)
    else None
  }

  /** The enumerator of each variant. */
  function TagOf(t: ParamType): (tag: int)
    ensures NONE <= tag <= BOOL
  {
    match t
    case NoneType => NONE
    case IntegerType => INTEGER
    case StringType => STRING
    case FloatType => FLOAT
    case BoolType => BOOL
  }

  /** Tag and variant are in one-to-one correspondence: every variant is
      reached by its own enumerator and by no other tag. */
  lemma TagRoundTrip(t: ParamType, tag: int)
    ensures TypeOfTag(TagOf(t)) == Some(t)
    ensures TypeOfTag(tag) == Some(t) ==> tag == TagOf(t)
  {
  }

  /** The cell `util::create_parameter(short_name, name, description, type)`
      builds: a fresh cell of the tagged variant, not required, with the
      names and description passed through unchanged and the variant's
      initial value (integer cells get base 10, signed); `None` for a tag
      outside the five enumerators. */
  function NewCell(shortName: string, name: string, description: string, tag: int): (r: Option<Cell>)
    ensures r.Some? <==> NONE <= tag <= BOOL
    ensures r.Some? ==> r.value.Valid() && !r.value.required
    ensures r.Some? ==> TypeOfTag(tag) == Some(r.value.ptype) && r.value.value == InitialValue(r.value.ptype)
    ensures r.Some? ==> r.value.shortName == shortName && r.value.name == name && r.value.description == description
  {
    match TypeOfTag(tag)
    case None => None
    case Some(t) => Some(Cell(shortName, name, description, t, 10, true, false, InitialValue(t)))
  }

  /** The factory itself: `null` exactly when `NewCell` gives no cell,
      otherwise a fresh object in the state `NewCell` describes. The tag
      defaults to `NONE`, as in the header. */
  method CreateParameter(shortName: string, name: string, description: string, tag: int := NONE)
    returns (p: Parameter?)
    ensures p == null <==> NewCell(shortName, name, description, tag).None?
    ensures p != null ==> fresh(p) && p.Valid()
    ensures p != null ==> p.View() == NewCell(shortName, name, description, tag).value
  {
    match TypeOfTag(tag)
    case Some(t) =>
      p := new Parameter(shortName, name, description, t);
    case None =>
      p := null;
  }

  /** Every variant the factory can build, with its fresh state: a NONE or
      BOOL cell reads false, an INTEGER cell 0 (base 10, signed), a STRING
      cell the empty string. */
  lemma FreshCells(shortName: string, name: string, description: string)
    ensures NewCell(shortName, name, description, NONE).value.value == FlagValue(false)
    ensures NewCell(shortName, name, description, INTEGER).value.value == IntegerValue(0)
    ensures NewCell(shortName, name, description, INTEGER).value.base == 10
    ensures NewCell(shortName, name, description, INTEGER).value.isSigned
    ensures NewCell(shortName, name, description, STRING).value.value == StringValue("")
    ensures NewCell(shortName, name, description, BOOL).value.value == BoolValue(false)
  {
  }
}
