/** `argparse::parser`: the registry of cells, the two name indexes, the
    program name and the auto-help switch, with the operations that
    register parameters, parse a command line, render the help message and
    read values back. Printing the help and exiting the process become the
    outcome `HelpExit`; the diagnostics written to `std::cerr` are dropped. */
module Argparse {
  import opened Options
  import opened Parameters
  import opened Registry
  import opened Scanning
  import opened Help
  import BoolParsing
  import Util
  import Sequences

  /** How `parse` ends. */
  datatype ParseOutcome =
    | Success                    // returns true
    | Failed(error: ParseError)  // returns false (auto-help off)
    | HelpExit(message: string)  // `print_help_and_exit`: the message on stdout, then exit(0)
    | Aborted(error: ParseError) // `set` threw; the exception leaves `parse`

  /** The outcome of a scan: a thrown conversion leaves `parse` whatever the
      switch says; any other failure, and a clean scan that asked for help,
      print the help and exit when auto-help is on; otherwise a failure
      returns false and a clean scan returns true. */
  function Decide(autoHelp: bool, error: Option<ParseError>, helpRequested: bool, help: string): (r: ParseOutcome)
    ensures r.Aborted? <==> error.Some? && error.value.ConversionFailed?
    ensures r.Failed? <==> !autoHelp && error.Some? && !error.value.ConversionFailed?
    ensures r.Success? <==> error.None? && !(autoHelp && helpRequested)
    ensures r.HelpExit? <==> autoHelp && (error.Some? ==> !error.value.ConversionFailed?) &&
                             (error.None? ==> helpRequested)
    ensures r.HelpExit? ==> r.message == help
    ensures r.Failed? || r.Aborted? ==> r.error == error.value
  {
    match error
    case Some(e) =>
      if e.ConversionFailed? then Aborted(e)
      else if autoHelp then HelpExit(help)
      else Failed(e)
    case None =>
      if autoHelp && helpRequested then HelpExit(help) else Success
  }

  /** The program name, the cells and the outcome a `parse` leaves. */
  datatype Run = Run(programName: string, cells: seq<Cell>, outcome: ParseOutcome)

  /** `parse(args)` on the tables `t`. */
  function ParseRun(t: Tables, autoHelp: bool, args: seq<string>): (r: Run)
    requires |args| >= 1 && AllValid(t.cells)
    ensures r.programName == BaseName(args[0])
    ensures AllValid(r.cells) && SameShape(t.cells, r.cells)
  {
    var prog := BaseName(args[0]);
    var s := Scan(t.cells, t.shortIndex, t.longIndex, args[1..]);
    Run(prog, s.cells,
        Decide(autoHelp, s.error, HelpRequested(s.cells, t.shortIndex, t.longIndex), HelpText(prog, s.cells)))
  }

  /** The result of `add_parameter`: the cell was stored, the tag named no
      variant, or `set(default_value)` threw and nothing was stored. */
  datatype Registration = Registered | UnknownType | DefaultRejected(error: ConvError)

  /** The cell `add_parameter` is about to store, before it is stored. */
  datatype Prepared = NoCell | Rejected(error: ConvError) | Ready(cell: Cell)

  /** `add_parameter`'s first half: create the cell, apply the default to
      every variant but NONE, then record `required`. */
  function Prepare(shortName: string, name: string, description: string, tag: int,
                   required: bool, defaultValue: string): (r: Prepared)
    ensures r.NoCell? <==> Util.NewCell(shortName, name, description, tag).None?
    ensures r.Rejected? ==> tag == Util.INTEGER
    ensures r.Ready? ==> r.cell.Valid() && r.cell.required == required &&
                         r.cell.shortName == shortName && r.cell.name == name &&
                         r.cell.description == description &&
                         Util.TypeOfTag(tag) == Some(r.cell.ptype)
  {
    match Util.NewCell(shortName, name, description, tag)
    case None => NoCell
    case Some(c) =>
      if tag != Util.NONE then
        match SetCell(c, defaultValue)
        case Err(e) => Rejected(e)
        case Ok(d) => Ready(d.(required := required))
      else Ready(c.(required := required))
  }

  /** The defaults `add_parameter` applies: a NONE cell starts absent
      whatever the default text, a STRING cell holds the text verbatim, a
      BOOL cell reads it with the truthy test, a FLOAT cell keeps its text,
      and only an INTEGER cell can reject it. */
  lemma PrepareDefaults(shortName: string, name: string, description: string, tag: int,
                        required: bool, defaultValue: string)
    ensures var r := Prepare(shortName, name, description, tag, required, defaultValue);
            (tag == Util.NONE ==> r.Ready? && r.cell.value == FlagValue(false)) &&
            (tag == Util.STRING ==> r.Ready? && r.cell.value == StringValue(defaultValue)) &&
            (tag == Util.FLOAT ==> r.Ready? && r.cell.value == FloatValue(defaultValue)) &&
            (tag == Util.BOOL ==> r.Ready? && r.cell.value == BoolValue(BoolParsing.IsTruthy(defaultValue))) &&
            (tag == Util.INTEGER ==>
               match IntegerParsing.ConvertInteger(defaultValue, 10, true)
               case Ok(n) => r.Ready? && r.cell.value == IntegerValue(n)
               case Err(e) => r == Rejected(e))
  {
  }

  /** The cell `add_bool` stores. */
  function BoolCell(shortName: string, name: string, description: string, required: bool, defaultValue: bool): (c: Cell)
    ensures c.Valid() && c.ptype == BoolType
  {
    Cell(shortName, name, description, BoolType, 10, true, required, BoolValue(defaultValue))
  }

  /** The states of the cells `ps`, in order. */
  function Views(ps: seq<Parameter>): (cs: seq<Cell>)
    reads ps
    ensures |cs| == |ps|
    ensures forall i :: 0 <= i < |ps| ==> cs[i] == ps[i].View()
  {
    seq(|ps|, i reads ps requires 0 <= i < |ps| => ps[i].View())
  }

  /** Replacing the cells `ps[k..e]` by `p` replaces their states by `p`'s. */
  lemma ViewsSplice(ps: seq<Parameter>, k: nat, e: nat, p: Parameter)
    requires k <= e <= |ps|
    ensures Views(ps[..k] + [p] + ps[e..]) == Views(ps)[..k] + [p.View()] + Views(ps)[e..]
  {
  }

  /** Splicing `p` in where `Insert` puts its state inserts its state. */
  lemma SpliceInsert(ps: seq<Parameter>, p: Parameter, cells: seq<Cell>, k: nat, e: nat)
    requires Views(ps) == cells
    requires k == LowerBound(CellKeys(cells), CellKey(p.View()))
    requires e == SpliceEnd(cells, k, CellKey(p.View()))
    ensures Views(ps[..k] + [p] + ps[e..]) == Insert(cells, p.View())
  {
    ViewsSplice(ps, k, e, p);
    InsertSplice(cells, p.View());
  }

  lemma InsertAllValid(cells: seq<Cell>, c: Cell)
    requires AllValid(cells) && c.Valid()
    ensures AllValid(Insert(cells, c))
  {
    var r := Insert(cells, c);
    forall i | 0 <= i < |r| ensures r[i].Valid() {
      assert r[i] in r;
    }
  }

  class Parser {
    var parameters: seq<Parameter>
    var programName: string
    var shortNameQuery: map<string, string>
    var nameQuery: map<string, string>
    var autoHelpEnabled: bool

    /** The cells' states, in registry order. */
    function Cells(): (cs: seq<Cell>)
      reads this`parameters, parameters
      ensures |cs| == |parameters|
      ensures forall i :: 0 <= i < |parameters| ==> cs[i] == parameters[i].View()
    {
      Views(parameters)
    }

    /** The three tables as values. */
    function Model(): Tables
      reads this`parameters, this`shortNameQuery, this`nameQuery, parameters
    {
      Tables(Cells(), shortNameQuery, nameQuery)
    }

    ghost predicate Valid()
      reads this`parameters, this`shortNameQuery, this`nameQuery, parameters
    {
      AllValid(Cells()) && TablesOk(Model())
    }

    /** `parser()`: no parameters, no program name yet, auto-help on. */
    constructor ()
      ensures Valid()
      ensures Model() == Tables([], map[], map[]) && programName == "" && autoHelpEnabled
    {
      parameters := [];
      programName := "";
      shortNameQuery := map[];
      nameQuery := map[];
      autoHelpEnabled := true;
    }

    /** Stores `p` under its key and indexes it under its non-empty names. */
    method Store(p: Parameter)
      requires Valid() && p.Valid()
      modifies this`parameters, this`shortNameQuery, this`nameQuery
      ensures Valid()
      ensures Model() == Register(old(Model()), p.View())
    {
      ghost var t := Model();
      var key := p.shortName + "\n" + p.name;
      assert key == CellKey(p.View());
      Splice(p, key);
      IndexNames(p, key);
      RegisterOk(t, p.View());
      InsertAllValid(t.cells, p.View());
    }

    /** `parameters[key] = p`: `p` goes in at its key's place, over the cell
        stored under the same key if there is one. */
    method Splice(p: Parameter, key: string)
      requires key == CellKey(p.View())
      modifies this`parameters
      ensures Cells() == Insert(old(Cells()), p.View())
      ensures shortNameQuery == old(shortNameQuery) && nameQuery == old(nameQuery)
    {
      ghost var cells := Cells();
      var ps := parameters;
      var k := LowerBound(CellKeys(Cells()), key);
      if k < |ps| && ps[k].shortName + "\n" + ps[k].name == key {
        parameters := ps[..k] + [p] + ps[k + 1..];
      } else {
        parameters := ps[..k] + [p] + ps[k..];
      }
      ghost var e := SpliceEnd(cells, k, key);
      assert parameters == ps[..k] + [p] + ps[e..];
      assert Views(ps) == cells;
      SpliceInsert(ps, p, cells, k, e);
    }

    /** `short_name_query[short_name] = key` and `name_query[name] = key`,
        each only for a non-empty name. */
    method IndexNames(p: Parameter, key: string)
      modifies this`shortNameQuery, this`nameQuery
      ensures shortNameQuery == IndexName(old(shortNameQuery), p.shortName, key)
      ensures nameQuery == IndexName(old(nameQuery), p.name, key)
      ensures Cells() == old(Cells())
    {
      if p.shortName != "" {
        shortNameQuery := shortNameQuery[p.shortName := key];
      }
      if p.name != "" {
        nameQuery := nameQuery[p.name := key];
      }
    }

    /** `add_parameter(short_name, name, description, type, required,
        default_value)`, with the header's defaults. */
    method AddParameter(shortName: string, name: string, description: string, tag: int := Util.NONE,
                        required: bool := false, defaultValue: string := "")
      returns (r: Registration)
      requires Valid()
      modifies this`parameters, this`shortNameQuery, this`nameQuery
      ensures Valid()
      ensures match Prepare(shortName, name, description, tag, required, defaultValue)
              case NoCell => r == UnknownType && Model() == old(Model())
              case Rejected(e) => r == DefaultRejected(e) && Model() == old(Model())
              case Ready(c) => r == Registered && Model() == Register(old(Model()), c)
    {
      ghost var m := Model();
      var p := Util.CreateParameter(shortName, name, description, tag);
      if p == null {
        return UnknownType;
      }
      if tag != Util.NONE {
        var s := p.Set(defaultValue);
        if s.Err? {
          return DefaultRejected(s.error);
        }
      }
      p.SetRequired(required);
      assert Model() == m;
      Store(p);
      r := Registered;
    }

    /** `add_bool`: a BOOL cell set from the text "true" or "false". */
    method AddBool(shortName: string, name: string, description: string,
                   required: bool := false, defaultValue: bool := false)
      requires Valid()
      modifies this`parameters, this`shortNameQuery, this`nameQuery
      ensures Valid()
      ensures Model() == Register(old(Model()), BoolCell(shortName, name, description, required, defaultValue))
    {
      ghost var m := Model();
      var p := NewBool(shortName, name, description, required, defaultValue);
      assert Model() == m;
      Store(p);
    }

    /** The cell `add_bool` creates, before it is stored. */
    static method NewBool(shortName: string, name: string, description: string,
                          required: bool, defaultValue: bool) returns (p: Parameter)
      ensures fresh(p) && p.Valid()
      ensures p.View() == BoolCell(shortName, name, description, required, defaultValue)
    {
      p := Util.CreateParameter(shortName, name, description, Util.BOOL);
      var text := if defaultValue then "true" else "false";
      BoolParsing.TruthyTrueFalse();
      assert p.ptype == BoolType;
      BoolSetMeaning(p.View(), text);
      var _ := p.Set(text);
      p.SetRequired(required);
    }

    /** Distinct keys make distinct cells. */
    lemma ParametersDistinct()
      requires Valid()
      ensures forall i, j :: 0 <= i < |parameters| && 0 <= j < |parameters| && i != j ==>
                               parameters[i] != parameters[j]
    {
      forall i, j | 0 <= i < |parameters| && 0 <= j < |parameters| && i != j
        ensures parameters[i] != parameters[j]
      {
        if parameters[i] == parameters[j] {
          var ks := CellKeys(Cells());
          assert ks[i] == ks[j];
          if i < j {
            LessIrreflexive(ks[i]);
          } else {
            LessIrreflexive(ks[j]);
          }
        }
      }
    }

    /** `p_parameter->set(s)` on the cell at position `k` of the registry. */
    method SetAt(k: nat, s: string) returns (r: Result<()>)
      requires Valid() && k < |parameters|
      modifies parameters[k]
      ensures Valid() && unchanged(this)
      ensures match SetCell(old(Cells())[k], s)
              case Ok(c) => r.Ok? && Cells() == old(Cells())[k := c]
              case Err(e) => r == IntegerParsing.Err(e) && Cells() == old(Cells())
    {
      ParametersDistinct();
      ghost var before := Cells();
      r := parameters[k].Set(s);
      assert forall j :: 0 <= j < |parameters| && j != k ==> Cells()[j] == before[j];
      SameShapeKeys(before, Cells());
    }

    /** `get_help_message`: built line by line in registry order, replaced
        by the error text at the first cell with neither name. */
    method GetHelpMessage() returns (message: string)
      requires Valid()
      ensures message == HelpText(programName, Cells())
    {
      ghost var cells := Cells();
      message := "";
      message := message + "Usage: " + programName + " [options]";
      var i := 0;
      while i < |parameters|
        invariant 0 <= i <= |parameters|
        invariant message == Header(programName) + Lines(cells[..i])
        invariant !HasUnnamed(cells[..i])
      {
        var p := parameters[i];
        ghost var before := message;
        message := AppendLine(message, p);
        if p.shortName == "" && p.name == "" {
          assert Unnamed(cells[i]);
          return HELP_ERROR;
        }
        HelpStep(programName, cells, i, before);
        i := i + 1;
      }
      assert cells[..i] == cells;
    }

    /** The appends of one turn of `get_help_message`'s loop: the cell's line. */
    static method AppendLine(message: string, p: Parameter) returns (r: string)
      ensures r == message + Line(p.View())
    {
      r := message + "\n";
      if p.shortName != "" {
        r := r + ("-" + p.shortName);
        r := r + ", ";
        Sequences.ConcatAssoc(message + "\n", "-" + p.shortName, ", ");
      }
      assert r == message + "\n" + ShortPart(p.View());
      if p.name != "" {
        r := r + ("--" + p.name);
      }
      r := r + ("\t" + p.description);
      LinePieces(message, p.View());
    }

    /** `print_help_and_exit`. */
    method PrintHelpAndExit() returns (outcome: ParseOutcome)
      requires Valid()
      ensures outcome == HelpExit(HelpText(programName, Cells()))
    {
      var message := GetHelpMessage();
      outcome := HelpExit(message);
    }

    /** The failure path of `parse`: an exception from `set` leaves `parse`;
        any other failure prints the help and exits when auto-help is on,
        and returns false otherwise. */
    method Reject(error: ParseError) returns (outcome: ParseOutcome)
      requires Valid()
      ensures outcome == Decide(autoHelpEnabled, Some(error), false, HelpText(programName, Cells()))
    {
      if error.ConversionFailed? {
        outcome := Aborted(error);
      } else if autoHelpEnabled {
        outcome := PrintHelpAndExit();
      } else {
        outcome := Failed(error);
      }
    }

    /** The end of a clean scan: the help check, then true. */
    method Finish() returns (outcome: ParseOutcome)
      requires Valid()
      ensures outcome == Decide(autoHelpEnabled, None, HelpRequested(Cells(), shortNameQuery, nameQuery),
                                HelpText(programName, Cells()))
    {
      if autoHelpEnabled {
        var help := IsHelpRequested();
        if help {
          outcome := PrintHelpAndExit();
          return;
        }
      }
      outcome := Success;
    }

    /** `get_parameter_value_to(flag, buffer)`: the value of the cell `flag`
        names, or `None` when it names none (the buffer is then untouched). */
    method GetParameterValue(flag: string) returns (v: Option<Value>)
      requires Valid()
      ensures v == Lookup(Cells(), shortNameQuery, nameQuery, flag)
    {
      var f := flag;
      var key: Option<string>;
      if |f| > 0 && f[0] == '-' {
        f := f[1..];
        if |f| > 0 && f[0] == '-' {
          f := f[1..];
          key := Get(nameQuery, f);
        } else {
          key := Get(shortNameQuery, f);
        }
      } else {
        key := Get(shortNameQuery, f);
        if key.None? {
          key := Get(nameQuery, f);
        }
      }
      if key.None? {
        return None;
      }
      var k := Find(CellKeys(Cells()), key.value);
      if k.None? {
        return None;
      }
      var value := parameters[k.value].GetValue();
      v := Some(value);
    }

    /** `set_auto_help`. */
    method SetAutoHelp(enable: bool)
      modifies this`autoHelpEnabled
      ensures autoHelpEnabled == enable
    {
      autoHelpEnabled := enable;
    }

    /** `is_help_requested`: `h`, then `help`, read as a `bool`. */
    method IsHelpRequested() returns (requested: bool)
      requires Valid()
      ensures requested == HelpRequested(Cells(), shortNameQuery, nameQuery)
    {
      var h := GetParameterValue("h");
      if h.Some? && AsBool(h.value) {
        return true;
      }
      var help := GetParameterValue("help");
      requested := help.Some? && AsBool(help.value);
    }

    /** The name a flag token carries once its dashes are stripped, and the
        position of the cell its key names: `-x` through the short-name
        index, `--x` through the long-name index. */
    method Resolve(token: string) returns (name: string, found: Option<nat>)
      requires Valid() && StartsWithDash(token)
      ensures name == FlagName(token)
      ensures found == Locate(Cells(), shortNameQuery, nameQuery, token)
    {
      var isShort := true;
      name := token[1..];
      if |name| > 0 && name[0] == '-' {
        isShort := false;
        name := name[1..];
      }
      var key := if isShort then Get(shortNameQuery, name) else Get(nameQuery, name);
      if key.None? {
        return name, None;
      }
      found := Find(CellKeys(Cells()), key.value);
    }

    /** What one turn of `parse`'s loop at token `i` achieves, from the cells
        `before`: either the scan goes on at `next` with the cells the turn
        left, or the scan fails here with `error` and the cells as they are. */
    ghost predicate TurnDone(before: seq<Cell>, tokens: seq<string>, i: nat,
                             next: nat, error: Option<ParseError>)
      requires AllValid(before) && i < |tokens|
      reads this, parameters
    {
      AllValid(Cells()) &&
      var s := Scan(before, shortNameQuery, nameQuery, tokens[i..]);
      match error
      case None => i < next <= |tokens| && s == Scan(Cells(), shortNameQuery, nameQuery, tokens[next..])
      case Some(e) => s.error == error && Cells() == s.cells
    }

    /** One turn of `parse`'s loop, at token `i`. */
    method ScanToken(tokens: seq<string>, i: nat) returns (next: nat, error: Option<ParseError>)
      requires Valid() && i < |tokens|
      modifies parameters
      ensures Valid() && unchanged(this)
      ensures TurnDone(old(Cells()), tokens, i, next, error)
    {
      var current := tokens[i];
      if !(|current| > 0 && current[0] == '-') {
        ghost var rest := tokens[i..];
        assert rest[0] == current;
        ScanRejectStep(Cells(), shortNameQuery, nameQuery, rest);
        return i, Some(NotAFlag(current));
      }
      next, error := ScanFlag(tokens, i);
    }

    /** The turn at a flag: the cell it names is found through the index its
        dashes select, or the scan fails with the unknown name. */
    method ScanFlag(tokens: seq<string>, i: nat) returns (next: nat, error: Option<ParseError>)
      requires Valid() && i < |tokens| && StartsWithDash(tokens[i])
      modifies parameters
      ensures Valid() && unchanged(this)
      ensures TurnDone(old(Cells()), tokens, i, next, error)
    {
      var name, found := Resolve(tokens[i]);
      if found.None? {
        ghost var rest := tokens[i..];
        ScanRejectStep(Cells(), shortNameQuery, nameQuery, rest);
        return i, Some(UnknownParameter(name));
      }
      var k := found.value;
      if parameters[k].ptype == NoneType {
        SetFlag(tokens, i, k);
        return i + 1, None;
      }
      next, error := ScanValue(tokens, i, k, name);
    }

    /** The turn at a flag naming the value cell `k`: without a usable next
        token the scan fails there; otherwise that token is converted. */
    method ScanValue(tokens: seq<string>, i: nat, k: nat, name: string) returns (next: nat, error: Option<ParseError>)
      requires Valid() && i < |tokens| && StartsWithDash(tokens[i]) && name == FlagName(tokens[i])
      requires Locate(Cells(), shortNameQuery, nameQuery, tokens[i]) == Some(k)
      requires Cells()[k].ptype != NoneType
      modifies parameters
      ensures Valid() && unchanged(this)
      ensures TurnDone(old(Cells()), tokens, i, next, error)
    {
      ghost var rest := tokens[i..];
      ScanValueFlagStep(Cells(), shortNameQuery, nameQuery, rest, k);
      next := i + 1;
      if next >= |tokens| || (|tokens[next]| > 0 && tokens[next][0] == '-') {
        return next, Some(MissingValue(name));
      }
      next, error := SetValue(tokens, i, k);
    }

    /** A presence flag at token `i` naming cell `k`: `set("")` marks it
        present and the scan goes on at the next token. */
    method SetFlag(tokens: seq<string>, i: nat, k: nat)
      requires Valid() && i < |tokens| && StartsWithDash(tokens[i])
      requires Locate(Cells(), shortNameQuery, nameQuery, tokens[i]) == Some(k)
      requires Cells()[k].ptype == NoneType
      modifies parameters
      ensures Valid() && unchanged(this)
      ensures Scan(old(Cells()), shortNameQuery, nameQuery, tokens[i..]) ==
              Scan(Cells(), shortNameQuery, nameQuery, tokens[i + 1..])
    {
      ghost var rest := tokens[i..];
      ScanFlagStep(Cells(), shortNameQuery, nameQuery, rest, k);
      var _ := SetAt(k, "");
      assert rest[1..] == tokens[i + 1..];
    }

    /** A flag at token `i` naming the value cell `k`, followed by a token
        that does not start with '-': that token is converted into the cell;
        the scan goes on after it, or fails with the exception `set` throws. */
    method SetValue(tokens: seq<string>, i: nat, k: nat) returns (next: nat, error: Option<ParseError>)
      requires Valid() && i + 1 < |tokens| && StartsWithDash(tokens[i]) && !StartsWithDash(tokens[i + 1])
      requires Locate(Cells(), shortNameQuery, nameQuery, tokens[i]) == Some(k)
      requires Cells()[k].ptype != NoneType
      modifies parameters
      ensures Valid() && unchanged(this)
      ensures TurnDone(old(Cells()), tokens, i, next, error)
    {
      ghost var rest := tokens[i..];
      ghost var cells := Cells();
      var current := FlagName(tokens[i]);
      ScanValueFlagStep(cells, shortNameQuery, nameQuery, rest, k);
      assert rest[1] == tokens[i + 1] && rest[2..] == tokens[i + 2..];
      ghost var applied := SetCell(cells[k], tokens[i + 1]);
      var r := SetAt(k, tokens[i + 1]);
      if r.Err? {
        assert applied.Err? && Cells() == cells;
        return i + 1, Some(ConversionFailed(current, tokens[i + 1], r.error));
      }
      assert applied.Ok? && Cells() == cells[k := applied.value];
      return i + 2, None;
    }

    /** `parse(args)`: the program name from `args[0]`, then the scan of the
        remaining tokens, then the help check. */
    method Parse(args: seq<string>) returns (outcome: ParseOutcome)
      requires Valid() && |args| >= 1
      modifies this, parameters
      ensures Valid()
      ensures parameters == old(parameters) && autoHelpEnabled == old(autoHelpEnabled)
      ensures shortNameQuery == old(shortNameQuery) && nameQuery == old(nameQuery)
      ensures Run(programName, Cells(), outcome) == ParseRun(old(Model()), autoHelpEnabled, args)
    {
      programName := BaseName(args[0]);
      var tokens := args[1..];
      ghost var cells0 := Cells();
      var i := 0;
      while i < |tokens|
        invariant 0 <= i <= |tokens|
        invariant Valid()
        invariant parameters == old(parameters) && autoHelpEnabled == old(autoHelpEnabled)
        invariant shortNameQuery == old(shortNameQuery) && nameQuery == old(nameQuery)
        invariant programName == BaseName(args[0])
        invariant Scan(cells0, shortNameQuery, nameQuery, tokens) == Scan(Cells(), shortNameQuery, nameQuery, tokens[i..])
      {
        var next, error := ScanToken(tokens, i);
        if error.Some? {
          outcome := Reject(error.value);
          return;
        }
        i := next;
      }
      assert Scan(Cells(), shortNameQuery, nameQuery, tokens[i..]) == ScanResult(None, Cells());
      outcome := Finish();
    }

    /** `parse(argc, argv)`: copies the `argc` entries of `argv` and parses them. */
    method ParseArgv(argc: int, argv: array<string>) returns (outcome: ParseOutcome)
      requires Valid() && 1 <= argc <= argv.Length
      modifies this, parameters
      ensures Valid()
      ensures parameters == old(parameters) && autoHelpEnabled == old(autoHelpEnabled)
      ensures shortNameQuery == old(shortNameQuery) && nameQuery == old(nameQuery)
      ensures Run(programName, Cells(), outcome) == ParseRun(old(Model()), autoHelpEnabled, argv[..argc])
    {
      var args: seq<string> := [];
      var i := 0;
      while i < argc
        invariant 0 <= i <= argc
        invariant args == argv[..i]
      {
        args := args + [argv[i]];
        i := i + 1;
      }
      outcome := Parse(args);
    }
  }
}
