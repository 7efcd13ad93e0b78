/** A parameter cell: the base class `parameter` together with its five
    variants `parameter_none`, `parameter_integer`, `parameter_string`,
    `parameter_float` and `parameter_bool`, folded into one class tagged by
    its type. The untyped `get_value_to(void*)` becomes a typed `Value`. */
module Parameters {
  import IntegerParsing
  import BoolParsing

  /** The enumerators of `parameter_type`, in declaration order. */
  datatype ParamType = NoneType | IntegerType | StringType | FloatType | BoolType

  /** What a cell holds, tagged by variant. */
  datatype Value =
    | FlagValue(isSet: bool)     // parameter_none: present or not
    | IntegerValue(n: int)       // parameter_integer: the i64 field
    | StringValue(s: string)     // parameter_string: the text verbatim
    | FloatValue(text: string)   // parameter_float: the literal, not its f64
    | BoolValue(b: bool)         // parameter_bool

  type ConvError = IntegerParsing.ConvError
  type Result<T> = IntegerParsing.Result<T>

  predicate HasType(v: Value, t: ParamType) {
    match t
    case NoneType => v.FlagValue?
    case IntegerType => v.IntegerValue? && IntegerParsing.I64_MIN <= v.n <= IntegerParsing.I64_MAX
    case StringType => v.StringValue?
    case FloatType => v.FloatValue?
    case BoolType => v.BoolValue?
  }

  /** The value each variant's constructor stores. */
  function InitialValue(t: ParamType): (v: Value)
    ensures HasType(v, t)
  {
    match t
    case NoneType => FlagValue(false)
    case IntegerType => IntegerValue(0)
    case StringType => StringValue("")
    case FloatType => FloatValue("0.0")
    case BoolType => BoolValue(false)
  }

  /** The value each variant's `set(s)` stores, or the exception it throws;
      only the integer variant can fail. */
  function Convert(t: ParamType, base: int, isSigned: bool, s: string): (r: Result<Value>)
    requires 2 <= base <= 36
    ensures r.Ok? ==> HasType(r.value, t)
    ensures r.Err? ==> t == IntegerType
  {
    match t
    case NoneType => IntegerParsing.Ok(FlagValue(true))
    case IntegerType =>
      (match IntegerParsing.ConvertInteger(s, base, isSigned)
       case Ok(n) => IntegerParsing.Ok(IntegerValue(n))
       case Err(e) => IntegerParsing.Err(e))
    case StringType => IntegerParsing.Ok(StringValue(s))
    case FloatType => IntegerParsing.Ok(FloatValue(s))
    case BoolType => IntegerParsing.Ok(BoolValue(BoolParsing.IsTruthy(s)))
  }

  /** The state of one cell, as a value. */
  datatype Cell = Cell(shortName: string, name: string, description: string,
                       ptype: ParamType, base: int, isSigned: bool,
                       required: bool, value: Value)
  {
    ghost predicate Valid() {
      2 <= base <= 36 && HasType(value, ptype)
    }
  }

  /** `set(s)` on a cell's state: the new state, or the exception with the
      state left as it was. */
  function SetCell(c: Cell, s: string): (r: Result<Cell>)
    requires c.Valid()
    ensures r.Ok? ==> r.value.Valid() && r.value == c.(value := r.value.value)
  {
    match Convert(c.ptype, c.base, c.isSigned, s)
    case Ok(v) => IntegerParsing.Ok(c.(value := v))
    case Err(e) => IntegerParsing.Err(e)
  }

  class Parameter {
    const shortName: string
    const name: string
    const description: string
    const ptype: ParamType
    const base: int
    const isSigned: bool
    var required: bool
    var value: Value

    ghost predicate Valid()
      reads this
    {
      View().Valid()
    }

    /** The cell's state as a value. */
    function View(): Cell
      reads this
    {
      Cell(shortName, name, description, ptype, base, isSigned, required, value)
    }

    /** The constructors of the five variants; `base` and `isSigned` are the
        extra arguments of `parameter_integer`'s constructor. */
    constructor (shortName: string, name: string, description: string, ptype: ParamType,
                 base: int := 10, isSigned: bool := true)
      requires 2 <= base <= 36
      ensures Valid()
      ensures View() == Cell(shortName, name, description, ptype, base, isSigned, false, InitialValue(ptype))
    {
      this.shortName := shortName;
      this.name := name;
      this.description := description;
      this.ptype := ptype;
      this.base := base;
      this.isSigned := isSigned;
      this.required := false;
      this.value := InitialValue(ptype);
    }

    method SetRequired(required: bool)
      modifies this`required
      ensures View() == old(View()).(required := required)
    {
      this.required := required;
    }

    /** `set(s)`: on success the cell holds the converted value; when the
        conversion throws, the cell is unchanged and the error is returned. */
    method Set(s: string) returns (r: Result<()>)
      requires Valid()
      modifies this`value
      ensures Valid()
      ensures match SetCell(old(View()), s)
              case Ok(c) => r.Ok? && View() == c
              case Err(e) => r == IntegerParsing.Err(e) && View() == old(View())
    {
      match ptype
      case NoneType =>
        value := FlagValue(true);
        r := IntegerParsing.Ok(());
      case IntegerType =>
        var n := IntegerParsing.ConvertInteger(s, base, isSigned);
        if n.Ok? {
          value := IntegerValue(n.value);
          r := IntegerParsing.Ok(());
        } else {
          r := IntegerParsing.Err(n.error);
        }
      case StringType =>
        value := StringValue(s);
        r := IntegerParsing.Ok(());
      case FloatType =>
        value := FloatValue(s);
        r := IntegerParsing.Ok(());
      case BoolType =>
        var b := BoolParsing.DecideBool(s);
        value := BoolValue(b);
        r := IntegerParsing.Ok(());
    }

    /** `get_value_to`: reports the value without changing the cell. */
    method GetValue() returns (v: Value)
      requires Valid()
      ensures v == value && HasType(v, ptype)
    {
      v := value;
    }
  }

  /** Applies `set` to each argument in turn, stopping at the first failure. */
  function SetAll(c: Cell, args: seq<string>): (r: Result<Cell>)
    requires c.Valid()
    ensures r.Ok? ==> r.value.Valid()
    decreases |args|
  {
    if args == [] then IntegerParsing.Ok(c)
    else match SetCell(c, args[0])
      case Ok(c') => SetAll(c', args[1..])
      case Err(e) => IntegerParsing.Err(e)
  }

  /** Last set wins: after a run of successful sets the cell holds what the
      last one converted, whatever it held before and whatever came between. */
  lemma {:induction false} LastSetWins(c: Cell, args: seq<string>)
    requires c.Valid() && args != []
    requires SetAll(c, args).Ok?
    ensures Convert(c.ptype, c.base, c.isSigned, args[|args| - 1]).Ok?
    ensures SetAll(c, args).value ==
            c.(value := Convert(c.ptype, c.base, c.isSigned, args[|args| - 1]).value)
    decreases |args|
  {
    var first := SetCell(c, args[0]);
    assert first.Ok?;
    var c' := first.value;
    assert SetAll(c, args) == SetAll(c', args[1..]);
    if |args| > 1 {
      LastSetWins(c', args[1..]);
      assert args[1..][|args[1..]| - 1] == args[|args| - 1];
    }
  }

  /** Only an integer cell's `set` can fail; the others accept any text. */
  lemma SetTotalUnlessInteger(c: Cell, s: string)
    requires c.Valid() && c.ptype != IntegerType
    ensures SetCell(c, s).Ok?
  {
  }

  /** A presence flag ignores its argument, stays set once set, and never
      goes back to false. */
  lemma {:induction false} FlagStaysSet(c: Cell, args: seq<string>)
    requires c.Valid() && c.ptype == NoneType && args != []
    ensures SetAll(c, args) == IntegerParsing.Ok(c.(value := FlagValue(true)))
    decreases |args|
  {
    if |args| > 1 {
      FlagStaysSet(c.(value := FlagValue(true)), args[1..]);
    }
  }

  /** A string cell reads back exactly what was set, the empty string included. */
  lemma StringRoundTrip(c: Cell, s: string)
    requires c.Valid() && c.ptype == StringType
    ensures SetCell(c, s) == IntegerParsing.Ok(c.(value := StringValue(s)))
  {
  }

  /** A bool cell reads true exactly for the four tokens up to case. */
  lemma BoolSetMeaning(c: Cell, s: string)
    requires c.Valid() && c.ptype == BoolType
    ensures SetCell(c, s) == IntegerParsing.Ok(c.(value := BoolValue(BoolParsing.IsTruthy(s))))
  {
  }

  /** An integer cell, signed or not, stores exactly the value whose text
      in its base it is given. */
  lemma IntegerRoundTrip(c: Cell, n: int)
    requires c.Valid() && c.ptype == IntegerType
    requires IntegerParsing.I64_MIN <= n <= IntegerParsing.I64_MAX
    ensures SetCell(c, IntegerParsing.Format(n, c.base)) == IntegerParsing.Ok(c.(value := IntegerValue(n)))
  {
    if c.isSigned {
      IntegerParsing.StoLLFormat(n, c.base);
    } else {
      IntegerParsing.UnsignedRoundTrip(n, c.base);
    }
  }

  /** An integer cell whose text has no digit fails with
      `std::invalid_argument`, signed or not. */
  lemma IntegerNoDigits(c: Cell, s: string)
    requires c.Valid() && c.ptype == IntegerType
    requires IntegerParsing.SplitLiteral(s, c.base).None?
    ensures SetCell(c, s) == IntegerParsing.Err(IntegerParsing.InvalidArgument)
  {
  }
}
