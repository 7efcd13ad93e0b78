/** What `parser::parse` does to the cells as it walks the tokens after the
    program path, and how `parser::get_parameter_value_to` resolves a name.
    Both are stated over the cells' states in registry order and the two
    name indexes (short name -> key, long name -> key). */
module Scanning {
  import opened Options
  import opened Parameters
  import opened Registry
  import IntegerParsing

  /** `token[0] == '-'`; an empty token reads its terminating '\0' there. */
  predicate StartsWithDash(t: string) {
    |t| > 0 && t[0] == '-'
  }

  /** Two leading dashes select the long-name index. */
  predicate IsLongFlag(t: string)
    requires StartsWithDash(t)
  {
    StartsWithDash(t[1..])
  }

  /** The name a flag token carries: one dash stripped, and a second one if present. */
  function FlagName(t: string): string
    requires StartsWithDash(t)
  {
    if IsLongFlag(t) then t[2..] else t[1..]
  }

  function Get(index: map<string, string>, name: string): Option<string> {
    if name in index then Some(index[name]) else None
  }

  /** The key a flag token resolves to, through the index its dashes select. */
  function TokenKey(t: string, shortIndex: map<string, string>, longIndex: map<string, string>): Option<string>
    requires StartsWithDash(t)
  {
    if IsLongFlag(t) then Get(longIndex, FlagName(t)) else Get(shortIndex, FlagName(t))
  }

  ghost predicate AllValid(cells: seq<Cell>) {
    forall i :: 0 <= i < |cells| ==> cells[i].Valid()
  }

  /** `b` is `a` with, at most, other values in the cells. */
  predicate SameShape(a: seq<Cell>, b: seq<Cell>) {
    |a| == |b| && forall i :: 0 <= i < |a| ==> b[i] == a[i].(value := b[i].value)
  }

  /** Replacing one cell's value keeps the shape. */
  lemma UpdateSameShape(cells: seq<Cell>, i: nat, c: Cell)
    requires i < |cells| && c == cells[i].(value := c.value)
    ensures SameShape(cells, cells[i := c])
    ensures AllValid(cells) && c.Valid() ==> AllValid(cells[i := c])
  {
  }

  lemma SameShapeKeys(a: seq<Cell>, b: seq<Cell>)
    requires SameShape(a, b)
    ensures CellKeys(a) == CellKeys(b)
  {
    assert forall i :: 0 <= i < |a| ==> CellKey(a[i]) == CellKey(b[i]);
  }

  /** The position of the cell a flag token names, if it names one. */
  function Locate(cells: seq<Cell>, shortIndex: map<string, string>, longIndex: map<string, string>,
                  t: string): (r: Option<nat>)
    requires StartsWithDash(t)
    ensures r.Some? ==> r.value < |cells|
  {
    match TokenKey(t, shortIndex, longIndex)
    case None => None
    case Some(k) => Find(CellKeys(cells), k)
  }

  /** The reasons `parse` stops early. */
  datatype ParseError =
    | NotAFlag(token: string)                 // a token not starting with '-'
    | UnknownParameter(name: string)          // "error: unknown parameter <name>"
    | MissingValue(name: string)              // "error: parameter <name> requires a value"
    | ConversionFailed(name: string, raw: string, error: IntegerParsing.ConvError)
                                              // the exception `set` throws

  datatype ScanResult = ScanResult(error: Option<ParseError>, cells: seq<Cell>)

  /** The scan of `parse`'s loop: each token is a flag; a presence flag is
      set without consuming anything, any other flag takes the next token as
      its value; the first failure stops the scan with the cells as the
      tokens before it left them. */
  function Scan(cells: seq<Cell>, shortIndex: map<string, string>, longIndex: map<string, string>,
                tokens: seq<string>): (r: ScanResult)
    requires AllValid(cells)
    ensures AllValid(r.cells) && SameShape(cells, r.cells)
    decreases |tokens|, 0
  {
    if tokens == [] then ScanResult(None, cells)
    else if !StartsWithDash(tokens[0]) then ScanResult(Some(NotAFlag(tokens[0])), cells)
    else
      var name := FlagName(tokens[0]);
      match Locate(cells, shortIndex, longIndex, tokens[0])
      case None => ScanResult(Some(UnknownParameter(name)), cells)
      case Some(i) =>
        if cells[i].ptype == NoneType then
          ScanOn(cells, i, cells[i].(value := FlagValue(true)), shortIndex, longIndex, tokens[1..])
        else if |tokens| == 1 || StartsWithDash(tokens[1]) then
          ScanResult(Some(MissingValue(name)), cells)
        else
          match SetCell(cells[i], tokens[1])
          case Err(e) => ScanResult(Some(ConversionFailed(name, tokens[1], e)), cells)
          case Ok(c) => ScanOn(cells, i, c, shortIndex, longIndex, tokens[2..])
  }

  /** The scan of the remaining tokens once cell `i` holds `c`. */
  function ScanOn(cells: seq<Cell>, i: nat, c: Cell, shortIndex: map<string, string>, longIndex: map<string, string>,
                  tokens: seq<string>): (r: ScanResult)
    requires AllValid(cells) && i < |cells| && c.Valid() && c == cells[i].(value := c.value)
    ensures AllValid(r.cells) && SameShape(cells, r.cells)
    decreases |tokens|, 1
  {
    var next := cells[i := c];
    UpdateSameShape(cells, i, c);
    var r := Scan(next, shortIndex, longIndex, tokens);
    SameShapeTrans(cells, next, r.cells);
    r
  }

  lemma SameShapeTrans(a: seq<Cell>, b: seq<Cell>, c: seq<Cell>)
    requires SameShape(a, b) && SameShape(b, c)
    ensures SameShape(a, c)
  {
  }

  /** One step of the scan at a presence flag: the cell is set and the
      scan goes on with the next token. */
  lemma ScanFlagStep(cells: seq<Cell>, si: map<string, string>, li: map<string, string>,
                     tokens: seq<string>, i: nat)
    requires AllValid(cells) && tokens != [] && StartsWithDash(tokens[0])
    requires Locate(cells, si, li, tokens[0]) == Some(i) && cells[i].ptype == NoneType
    ensures Scan(cells, si, li, tokens) ==
            Scan(cells[i := cells[i].(value := FlagValue(true))], si, li, tokens[1..])
  {
  }

  /** One step of the scan at a value flag: without a usable next token the
      scan fails there; otherwise the next token is converted into the cell,
      and the scan either fails with the conversion error or goes on after
      the value. */
  lemma ScanValueFlagStep(cells: seq<Cell>, si: map<string, string>, li: map<string, string>,
                          tokens: seq<string>, i: nat)
    requires AllValid(cells) && tokens != [] && StartsWithDash(tokens[0])
    requires Locate(cells, si, li, tokens[0]) == Some(i) && cells[i].ptype != NoneType
    ensures |tokens| == 1 || StartsWithDash(tokens[1]) ==>
              Scan(cells, si, li, tokens) == ScanResult(Some(MissingValue(FlagName(tokens[0]))), cells)
    ensures |tokens| > 1 && !StartsWithDash(tokens[1]) && SetCell(cells[i], tokens[1]).Err? ==>
              Scan(cells, si, li, tokens) ==
              ScanResult(Some(ConversionFailed(FlagName(tokens[0]), tokens[1], SetCell(cells[i], tokens[1]).error)), cells)
    ensures |tokens| > 1 && !StartsWithDash(tokens[1]) && SetCell(cells[i], tokens[1]).Ok? ==>
              Scan(cells, si, li, tokens) == Scan(cells[i := SetCell(cells[i], tokens[1]).value], si, li, tokens[2..])
  {
  }

  /** The first token ends the scan when it is no flag or names no cell. */
  lemma ScanRejectStep(cells: seq<Cell>, si: map<string, string>, li: map<string, string>, tokens: seq<string>)
    requires AllValid(cells) && tokens != []
    ensures !StartsWithDash(tokens[0]) ==> Scan(cells, si, li, tokens) == ScanResult(Some(NotAFlag(tokens[0])), cells)
    ensures StartsWithDash(tokens[0]) && Locate(cells, si, li, tokens[0]).None? ==>
              Scan(cells, si, li, tokens) == ScanResult(Some(UnknownParameter(FlagName(tokens[0]))), cells)
  {
  }

  /** Locating a flag depends only on the keys, which scanning never changes. */
  lemma LocateSameShape(a: seq<Cell>, b: seq<Cell>, si: map<string, string>, li: map<string, string>, t: string)
    requires SameShape(a, b) && StartsWithDash(t)
    ensures Locate(a, si, li, t) == Locate(b, si, li, t)
  {
    SameShapeKeys(a, b);
  }

  /** Scanning in two pieces is scanning the whole: when `a` scans without
      failure, `a + b` continues from where `a` left the cells. */
  lemma {:induction false} ScanAppend(cells: seq<Cell>, si: map<string, string>, li: map<string, string>,
                                      a: seq<string>, b: seq<string>)
    requires AllValid(cells)
    requires Scan(cells, si, li, a).error.None?
    ensures Scan(cells, si, li, a + b) == Scan(Scan(cells, si, li, a).cells, si, li, b)
    decreases |a|, 1
  {
    if a == [] {
      assert a + b == b;
    } else {
      ScanRejectStep(cells, si, li, a);
      var i := Locate(cells, si, li, a[0]).value;
      if cells[i].ptype == NoneType {
        AppendFlagCase(cells, si, li, a, b, i);
      } else {
        AppendValueCase(cells, si, li, a, b, i);
      }
    }
  }

  lemma {:induction false} AppendFlagCase(cells: seq<Cell>, si: map<string, string>, li: map<string, string>,
                                          a: seq<string>, b: seq<string>, i: nat)
    requires AllValid(cells) && a != [] && StartsWithDash(a[0])
    requires Locate(cells, si, li, a[0]) == Some(i) && cells[i].ptype == NoneType
    requires Scan(cells, si, li, a).error.None?
    ensures Scan(cells, si, li, a + b) == Scan(Scan(cells, si, li, a).cells, si, li, b)
    decreases |a|, 0
  {
    var next := cells[i := cells[i].(value := FlagValue(true))];
    ScanFlagStep(cells, si, li, a, i);
    AppendFlagStep(cells, si, li, a, b, i);
    ScanAppend(next, si, li, a[1..], b);
  }

  lemma {:induction false} AppendValueCase(cells: seq<Cell>, si: map<string, string>, li: map<string, string>,
                                           a: seq<string>, b: seq<string>, i: nat)
    requires AllValid(cells) && a != [] && StartsWithDash(a[0])
    requires Locate(cells, si, li, a[0]) == Some(i) && cells[i].ptype != NoneType
    requires Scan(cells, si, li, a).error.None?
    ensures Scan(cells, si, li, a + b) == Scan(Scan(cells, si, li, a).cells, si, li, b)
    decreases |a|, 0
  {
    ScanValueFlagStep(cells, si, li, a, i);
    var next := cells[i := SetCell(cells[i], a[1]).value];
    AppendValueStep(cells, si, li, a, b, i);
    ScanAppend(next, si, li, a[2..], b);
  }

  /** `ScanFlagStep` on `a + b` when `a` starts with the presence flag. */
  lemma AppendFlagStep(cells: seq<Cell>, si: map<string, string>, li: map<string, string>,
                       a: seq<string>, b: seq<string>, i: nat)
    requires AllValid(cells) && a != [] && StartsWithDash(a[0])
    requires Locate(cells, si, li, a[0]) == Some(i) && cells[i].ptype == NoneType
    ensures Scan(cells, si, li, a + b) ==
            Scan(cells[i := cells[i].(value := FlagValue(true))], si, li, a[1..] + b)
  {
    assert (a + b)[0] == a[0];
    assert (a + b)[1..] == a[1..] + b;
    ScanFlagStep(cells, si, li, a + b, i);
  }

  /** `ScanValueFlagStep` on `a + b` when `a` starts with a value flag and its value. */
  lemma AppendValueStep(cells: seq<Cell>, si: map<string, string>, li: map<string, string>,
                        a: seq<string>, b: seq<string>, i: nat)
    requires AllValid(cells) && |a| > 1 && StartsWithDash(a[0]) && !StartsWithDash(a[1])
    requires Locate(cells, si, li, a[0]) == Some(i) && cells[i].ptype != NoneType
    requires SetCell(cells[i], a[1]).Ok?
    ensures Scan(cells, si, li, a + b) ==
            Scan(cells[i := SetCell(cells[i], a[1]).value], si, li, a[2..] + b)
  {
    assert (a + b)[0] == a[0] && (a + b)[1] == a[1];
    assert (a + b)[2..] == a[2..] + b;
    ScanValueFlagStep(cells, si, li, a + b, i);
  }

  /** A token that is not a flag, or names no parameter. */
  predicate Rejected(cells: seq<Cell>, si: map<string, string>, li: map<string, string>, t: string) {
    !StartsWithDash(t) || Locate(cells, si, li, t).None?
  }

  /** Fail-fast: a rejected token after a clean prefix makes the scan fail
      with exactly the prefix applied; nothing after it is applied. */
  lemma ScanStopsAtRejected(cells: seq<Cell>, si: map<string, string>, li: map<string, string>,
                            a: seq<string>, t: string, b: seq<string>)
    requires AllValid(cells)
    requires Scan(cells, si, li, a).error.None?
    requires Rejected(Scan(cells, si, li, a).cells, si, li, t)
    ensures Scan(cells, si, li, a + [t] + b).error.Some?
    ensures Scan(cells, si, li, a + [t] + b).cells == Scan(cells, si, li, a).cells
  {
    assert a + [t] + b == a + ([t] + b);
    ScanAppend(cells, si, li, a, [t] + b);
    assert ([t] + b)[0] == t;
  }

  /** The scan moved past its first flag: cell `k`, the one the flag names,
      now holds its new state in `next`, and the scan goes on with `rest`, a
      shorter suffix of the tokens. */
  ghost predicate Stepped(cells: seq<Cell>, si: map<string, string>, li: map<string, string>, tokens: seq<string>,
                    k: nat, next: seq<Cell>, rest: seq<string>)
    requires AllValid(cells)
  {
    tokens != [] && StartsWithDash(tokens[0]) && Locate(cells, si, li, tokens[0]) == Some(k) &&
    k < |cells| == |next| && next == cells[k := next[k]] &&
    AllValid(next) && SameShape(cells, next) &&
    (cells[k].ptype == NoneType ==> next[k].value == FlagValue(true)) &&
    |rest| < |tokens| && rest == tokens[|tokens| - |rest|..] &&
    Scan(cells, si, li, tokens) == Scan(next, si, li, rest)
  }

  /** One step of the scan, whatever the first token: either the scan stops
      there with the cells untouched, or it steps past the first flag. */
  lemma ScanNext(cells: seq<Cell>, si: map<string, string>, li: map<string, string>, tokens: seq<string>)
      returns (stops: bool, k: nat, next: seq<Cell>, rest: seq<string>)
    requires AllValid(cells) && tokens != []
    ensures stops ==> Scan(cells, si, li, tokens).cells == cells
    ensures !stops ==> Stepped(cells, si, li, tokens, k, next, rest)
  {
    stops, k, next, rest := true, 0, cells, tokens;
    ScanRejectStep(cells, si, li, tokens);
    if StartsWithDash(tokens[0]) && Locate(cells, si, li, tokens[0]).Some? {
      k := Locate(cells, si, li, tokens[0]).value;
      if cells[k].ptype == NoneType {
        next, rest := FlagNext(cells, si, li, tokens, k);
        stops := false;
      } else {
        stops, next, rest := ValueNext(cells, si, li, tokens, k);
      }
    }
  }

  lemma FlagNext(cells: seq<Cell>, si: map<string, string>, li: map<string, string>, tokens: seq<string>, k: nat)
      returns (next: seq<Cell>, rest: seq<string>)
    requires AllValid(cells) && tokens != [] && StartsWithDash(tokens[0])
    requires Locate(cells, si, li, tokens[0]) == Some(k) && cells[k].ptype == NoneType
    ensures Stepped(cells, si, li, tokens, k, next, rest)
  {
    ScanFlagStep(cells, si, li, tokens, k);
    var c := cells[k].(value := FlagValue(true));
    UpdateSameShape(cells, k, c);
    next, rest := cells[k := c], tokens[1..];
  }

  lemma ValueNext(cells: seq<Cell>, si: map<string, string>, li: map<string, string>, tokens: seq<string>, k: nat)
      returns (stops: bool, next: seq<Cell>, rest: seq<string>)
    requires AllValid(cells) && tokens != [] && StartsWithDash(tokens[0])
    requires Locate(cells, si, li, tokens[0]) == Some(k) && cells[k].ptype != NoneType
    ensures stops ==> Scan(cells, si, li, tokens).cells == cells
    ensures !stops ==> Stepped(cells, si, li, tokens, k, next, rest)
  {
    stops, next, rest := true, cells, tokens;
    ScanValueFlagStep(cells, si, li, tokens, k);
    if |tokens| > 1 && !StartsWithDash(tokens[1]) && SetCell(cells[k], tokens[1]).Ok? {
      var c := SetCell(cells[k], tokens[1]).value;
      UpdateSameShape(cells, k, c);
      stops, next, rest := false, cells[k := c], tokens[2..];
    }
  }

  /** No flag among the tokens names cell `i`. */
  predicate NeverNamed(cells: seq<Cell>, si: map<string, string>, li: map<string, string>, tokens: seq<string>, i: nat) {
    forall j :: 0 <= j < |tokens| && StartsWithDash(tokens[j]) ==> Locate(cells, si, li, tokens[j]) != Some(i)
  }

  /** Parse never resets a cell: a cell that no flag token names keeps its
      state, whether the scan succeeds or not. */
  lemma {:induction false} ScanFrame(cells: seq<Cell>, si: map<string, string>, li: map<string, string>,
                                     tokens: seq<string>, i: nat)
    requires AllValid(cells) && i < |cells|
    requires NeverNamed(cells, si, li, tokens, i)
    ensures Scan(cells, si, li, tokens).cells[i] == cells[i]
    decreases |tokens|
  {
    if tokens != [] {
      var stops, k, next, rest := ScanNext(cells, si, li, tokens);
      if !stops {
        assert next[i] == cells[i] by {
          assert tokens[0] == tokens[0 + |tokens| - |tokens|];
        }
        forall j | 0 <= j < |rest| && StartsWithDash(rest[j])
          ensures Locate(next, si, li, rest[j]) != Some(i)
        {
          LocateSameShape(cells, next, si, li, rest[j]);
          assert rest[j] == tokens[j + |tokens| - |rest|];
        }
        ScanFrame(next, si, li, rest, i);
      }
    }
  }

  /** A clean scan that starts with a value flag `t` and its value `v`
      converts `v` into the cell `t` names and goes on from there. */
  lemma ScanValueStep(cells: seq<Cell>, si: map<string, string>, li: map<string, string>,
                      t: string, v: string, b: seq<string>, i: nat) returns (c: Cell)
    requires AllValid(cells)
    requires StartsWithDash(t) && Locate(cells, si, li, t) == Some(i)
    requires cells[i].ptype != NoneType
    requires Scan(cells, si, li, [t, v] + b).error.None?
    ensures !StartsWithDash(v) && SetCell(cells[i], v) == IntegerParsing.Ok(c)
    ensures c.Valid() && c == cells[i].(value := c.value)
    ensures Scan(cells, si, li, [t, v] + b) == Scan(cells[i := c], si, li, b)
  {
    assert ([t, v] + b)[0] == t && ([t, v] + b)[1] == v && ([t, v] + b)[2..] == b;
    c := SetCell(cells[i], v).value;
  }

  /** `ScanFrame` for cells that differ from `cells` only in their values. */
  lemma ScanFrameShape(cells: seq<Cell>, after: seq<Cell>, si: map<string, string>, li: map<string, string>,
                       b: seq<string>, i: nat)
    requires SameShape(cells, after) && AllValid(after) && i < |after|
    requires NeverNamed(cells, si, li, b, i)
    ensures Scan(after, si, li, b).cells[i] == after[i]
  {
    SameShapeKeys(cells, after);
    ScanFrame(after, si, li, b, i);
  }

  /** A new state put into cell `i` stays there while no token names the cell. */
  lemma ValueKept(cells: seq<Cell>, si: map<string, string>, li: map<string, string>,
                  c: Cell, b: seq<string>, i: nat)
    requires AllValid(cells) && i < |cells| && c.Valid() && c == cells[i].(value := c.value)
    requires NeverNamed(cells, si, li, b, i)
    ensures Scan(cells[i := c], si, li, b).cells[i] == c
  {
    UpdateSameShape(cells, i, c);
    ScanFrameShape(cells, cells[i := c], si, li, b, i);
  }

  /** `ScanValueStep` followed by `ScanFrame`: when no later token names the
      cell, the value `v` is what the cell keeps. */
  lemma ValueSurvives(cells: seq<Cell>, si: map<string, string>, li: map<string, string>,
                      t: string, v: string, b: seq<string>, i: nat)
    requires AllValid(cells)
    requires StartsWithDash(t) && Locate(cells, si, li, t) == Some(i)
    requires cells[i].ptype != NoneType
    requires Scan(cells, si, li, [t, v] + b).error.None?
    requires NeverNamed(cells, si, li, b, i)
    ensures SetCell(cells[i], v).Ok?
    ensures Scan(cells, si, li, [t, v] + b).cells[i] == SetCell(cells[i], v).value
  {
    var c := ScanValueStep(cells, si, li, t, v, b, i);
    ValueKept(cells, si, li, c, b, i);
  }

  /** Last occurrence wins: when a value flag `t` with value `v` is followed
      by tokens none of which names its cell, the cell ends up holding the
      conversion of `v`, whatever it held before. */
  lemma ScanLastOccurrence(cells: seq<Cell>, si: map<string, string>, li: map<string, string>,
                           a: seq<string>, t: string, v: string, b: seq<string>, i: nat)
    requires AllValid(cells)
    requires StartsWithDash(t) && Locate(cells, si, li, t) == Some(i)
    requires cells[i].ptype != NoneType
    requires Scan(cells, si, li, a + [t, v] + b).error.None?
    requires NeverNamed(cells, si, li, b, i)
    ensures SetCell(Scan(cells, si, li, a).cells[i], v).Ok?
    ensures Scan(cells, si, li, a + [t, v] + b).cells[i] ==
            SetCell(Scan(cells, si, li, a).cells[i], v).value
  {
    var mid := Scan(cells, si, li, a).cells;
    assert a + [t, v] + b == a + ([t, v] + b);
    assert ([t, v] + b)[0] == t;
    ScanPrefixClean(cells, si, li, a, [t, v] + b);
    ScanAppend(cells, si, li, a, [t, v] + b);
    SameShapeKeys(cells, mid);
    ValueSurvives(mid, si, li, t, v, b, i);
  }

  /** A clean scan of `a + b`, where `b` is empty or starts with a flag,
      has a clean scan of `a`: a failure inside `a` would have stopped the
      longer scan too. */
  lemma {:induction false} ScanPrefixClean(cells: seq<Cell>, si: map<string, string>, li: map<string, string>,
                                           a: seq<string>, b: seq<string>)
    requires AllValid(cells)
    requires Scan(cells, si, li, a + b).error.None?
    requires b == [] || StartsWithDash(b[0])
    ensures Scan(cells, si, li, a).error.None?
    decreases |a|, 1
  {
    if a != [] {
      assert (a + b)[0] == a[0];
      ScanRejectStep(cells, si, li, a + b);
      var i := Locate(cells, si, li, a[0]).value;
      if cells[i].ptype == NoneType {
        PrefixFlagCase(cells, si, li, a, b, i);
      } else {
        PrefixValueCase(cells, si, li, a, b, i);
      }
    }
  }

  lemma {:induction false} PrefixFlagCase(cells: seq<Cell>, si: map<string, string>, li: map<string, string>,
                                          a: seq<string>, b: seq<string>, i: nat)
    requires AllValid(cells) && a != [] && StartsWithDash(a[0])
    requires Locate(cells, si, li, a[0]) == Some(i) && cells[i].ptype == NoneType
    requires Scan(cells, si, li, a + b).error.None?
    requires b == [] || StartsWithDash(b[0])
    ensures Scan(cells, si, li, a).error.None?
    decreases |a|, 0
  {
    AppendFlagStep(cells, si, li, a, b, i);
    ScanFlagStep(cells, si, li, a, i);
    ScanPrefixClean(cells[i := cells[i].(value := FlagValue(true))], si, li, a[1..], b);
  }

  lemma {:induction false} PrefixValueCase(cells: seq<Cell>, si: map<string, string>, li: map<string, string>,
                                           a: seq<string>, b: seq<string>, i: nat)
    requires AllValid(cells) && a != [] && StartsWithDash(a[0])
    requires Locate(cells, si, li, a[0]) == Some(i) && cells[i].ptype != NoneType
    requires Scan(cells, si, li, a + b).error.None?
    requires b == [] || StartsWithDash(b[0])
    ensures Scan(cells, si, li, a).error.None?
    decreases |a|, 0
  {
    assert (a + b)[0] == a[0];
    ScanValueFlagStep(cells, si, li, a + b, i);
    assert (a + b)[1] == a[1];
    AppendValueStep(cells, si, li, a, b, i);
    ScanValueFlagStep(cells, si, li, a, i);
    ScanPrefixClean(cells[i := SetCell(cells[i], a[1]).value], si, li, a[2..], b);
  }

  /** A presence flag once set stays set: no later token can clear it. */
  lemma {:induction false} FlagStaysTrue(cells: seq<Cell>, si: map<string, string>, li: map<string, string>,
                                         tokens: seq<string>, i: nat)
    requires AllValid(cells) && i < |cells|
    requires cells[i].ptype == NoneType && cells[i].value == FlagValue(true)
    ensures Scan(cells, si, li, tokens).cells[i].value == FlagValue(true)
    decreases |tokens|
  {
    if tokens != [] {
      var stops, k, next, rest := ScanNext(cells, si, li, tokens);
      if !stops {
        assert next[i].ptype == NoneType && next[i].value == FlagValue(true);
        FlagStaysTrue(next, si, li, rest, i);
      }
    }
  }

  /** A presence flag anywhere in a clean parse leaves its cell set, whatever
      comes before or after it. */
  lemma ScanFlagSticks(cells: seq<Cell>, si: map<string, string>, li: map<string, string>,
                       a: seq<string>, t: string, b: seq<string>, i: nat)
    requires AllValid(cells)
    requires StartsWithDash(t) && Locate(cells, si, li, t) == Some(i)
    requires cells[i].ptype == NoneType
    requires Scan(cells, si, li, a + [t] + b).error.None?
    ensures Scan(cells, si, li, a + [t] + b).cells[i].value == FlagValue(true)
  {
    assert a + [t] + b == a + ([t] + b);
    assert ([t] + b)[0] == t;
    ScanPrefixClean(cells, si, li, a, [t] + b);
    ScanAppend(cells, si, li, a, [t] + b);
    var mid := Scan(cells, si, li, a).cells;
    LocateSameShape(cells, mid, si, li, t);
    FlagSetsAndStays(mid, si, li, t, b, i);
  }

  /** `ScanFlagStep` followed by `FlagStaysTrue`. */
  lemma FlagSetsAndStays(cells: seq<Cell>, si: map<string, string>, li: map<string, string>,
                         t: string, b: seq<string>, i: nat)
    requires AllValid(cells)
    requires StartsWithDash(t) && Locate(cells, si, li, t) == Some(i)
    requires cells[i].ptype == NoneType
    ensures Scan(cells, si, li, [t] + b).cells[i].value == FlagValue(true)
  {
    assert ([t] + b)[0] == t && ([t] + b)[1..] == b;
    ScanFlagStep(cells, si, li, [t] + b, i);
    var c := cells[i].(value := FlagValue(true));
    UpdateSameShape(cells, i, c);
    FlagStaysTrue(cells[i := c], si, li, b, i);
  }

  /** A value flag followed by a dash token fails: a negative number can
      never be a value. */
  lemma DashValueIsMissing(cells: seq<Cell>, si: map<string, string>, li: map<string, string>,
                           t: string, v: string, rest: seq<string>)
    requires AllValid(cells)
    requires StartsWithDash(t) && Locate(cells, si, li, t).Some?
    requires cells[Locate(cells, si, li, t).value].ptype != NoneType
    requires StartsWithDash(v)
    ensures Scan(cells, si, li, [t, v] + rest) == ScanResult(Some(MissingValue(FlagName(t))), cells)
  {
    assert ([t, v] + rest)[0] == t && ([t, v] + rest)[1] == v;
  }

  /** The empty token is not a flag; "-" and "--" name the empty name,
      which no index holds. */
  lemma DegenerateTokens(cells: seq<Cell>, si: map<string, string>, li: map<string, string>, rest: seq<string>)
    requires AllValid(cells) && IndexOk(si, cells) && IndexOk(li, cells)
    ensures Scan(cells, si, li, [""] + rest) == ScanResult(Some(NotAFlag("")), cells)
    ensures Scan(cells, si, li, ["-"] + rest) == ScanResult(Some(UnknownParameter("")), cells)
    ensures Scan(cells, si, li, ["--"] + rest) == ScanResult(Some(UnknownParameter("")), cells)
  {
    assert (["-"] + rest)[0] == "-" && FlagName("-") == "";
    assert (["--"] + rest)[0] == "--" && FlagName("--") == "";
  }

  /** With consistent indexes every indexed flag names a cell. */
  lemma LocateIndexed(cells: seq<Cell>, si: map<string, string>, li: map<string, string>, t: string)
    requires IndexOk(si, cells) && IndexOk(li, cells) && StartsWithDash(t)
    ensures Locate(cells, si, li, t).Some? <==> TokenKey(t, si, li).Some?
  {
  }

  // ----- get_parameter_value_to -----

  /** The key `get_parameter_value_to` resolves `flag` to: dashed spellings
      as in `parse`; a bare name tries the short index, then the long one. */
  function QueryKey(flag: string, shortIndex: map<string, string>, longIndex: map<string, string>): Option<string>
  {
    if StartsWithDash(flag) then TokenKey(flag, shortIndex, longIndex)
    else if flag in shortIndex then Some(shortIndex[flag])
    else Get(longIndex, flag)
  }

  /** The value `get_parameter_value_to` reports, or `None` when it returns
      false and leaves the output alone. */
  function Lookup(cells: seq<Cell>, shortIndex: map<string, string>, longIndex: map<string, string>,
                  flag: string): Option<Value>
  {
    match QueryKey(flag, shortIndex, longIndex)
    case None => None
    case Some(k) =>
      match Find(CellKeys(cells), k)
      case None => None
      case Some(i) => Some(cells[i].value)
  }

  /** `--x` consults only the long index and `-x` only the short one. */
  lemma QueryRouting(x: string, si: map<string, string>, li: map<string, string>)
    ensures QueryKey("--" + x, si, li) == Get(li, x)
    ensures !StartsWithDash(x) ==> QueryKey("-" + x, si, li) == Get(si, x)
    ensures !StartsWithDash(x) ==>
              QueryKey(x, si, li) == if x in si then Get(si, x) else Get(li, x)
  {
    assert ("--" + x)[1..] == "-" + x;
    assert ("--" + x)[2..] == x;
    assert ("-" + x)[1..] == x;
  }

  /** All four spellings of a parameter registered as `-s`/`--n` reach its
      cell (the bare long name only when no short name shadows it). */
  lemma LookupSpellings(cells: seq<Cell>, si: map<string, string>, li: map<string, string>,
                        s: string, n: string, i: nat)
    requires StrictlySorted(CellKeys(cells)) && i < |cells|
    requires s != "" && !StartsWithDash(s) && n != "" && !StartsWithDash(n)
    requires s in si && si[s] == CellKey(cells[i])
    requires n in li && li[n] == CellKey(cells[i])
    ensures Lookup(cells, si, li, s) == Some(cells[i].value)
    ensures Lookup(cells, si, li, "-" + s) == Some(cells[i].value)
    ensures Lookup(cells, si, li, "--" + n) == Some(cells[i].value)
    ensures n !in si ==> Lookup(cells, si, li, n) == Some(cells[i].value)
  {
    QueryRouting(s, si, li);
    QueryRouting(n, si, li);
    FindSorted(CellKeys(cells), i);
  }

  /** The cell `Register` stores is found again under its own key. */
  lemma FindRegistered(t: Tables, c: Cell)
    requires TablesOk(t)
    ensures var cells := Register(t, c).cells;
            Find(CellKeys(cells), CellKey(c)).Some? && cells[Find(CellKeys(cells), CellKey(c)).value] == c
  {
    var cells := Insert(t.cells, c);
    InsertOrdered(t.cells, c);
    var j :| 0 <= j < |cells| && cells[j] == c;
    FindSorted(CellKeys(cells), j);
  }

  /** Registering then reading back: each spelling of a non-empty name of
      a freshly registered cell reads that cell's value, the bare short name
      included (the bare long name only when no short name shadows it). */
  lemma RegisterThenLookup(t: Tables, c: Cell)
    requires TablesOk(t)
    ensures var r := Register(t, c);
            c.name != "" ==> Lookup(r.cells, r.shortIndex, r.longIndex, "--" + c.name) == Some(c.value)
    ensures var r := Register(t, c);
            c.shortName != "" && !StartsWithDash(c.shortName) ==>
              Lookup(r.cells, r.shortIndex, r.longIndex, "-" + c.shortName) == Some(c.value) &&
              Lookup(r.cells, r.shortIndex, r.longIndex, c.shortName) == Some(c.value)
    ensures var r := Register(t, c);
            c.name != "" && !StartsWithDash(c.name) && c.name !in r.shortIndex ==>
              Lookup(r.cells, r.shortIndex, r.longIndex, c.name) == Some(c.value)
  {
    var r := Register(t, c);
    FindRegistered(t, c);
    QueryRouting(c.name, r.shortIndex, r.longIndex);
    QueryRouting(c.shortName, r.shortIndex, r.longIndex);
  }

  /** The empty name is never found, in any spelling. */
  lemma LookupEmptyName(cells: seq<Cell>, si: map<string, string>, li: map<string, string>)
    requires IndexOk(si, cells) && IndexOk(li, cells)
    ensures Lookup(cells, si, li, "") == None
    ensures Lookup(cells, si, li, "-") == None
    ensures Lookup(cells, si, li, "--") == None
  {
    QueryRouting("", si, li);
    assert "--" + "" == "--" && "-" + "" == "-";
  }

  /** `is_help_requested`: `h`, else `help`, resolves to a cell reading true. */
  predicate HelpRequested(cells: seq<Cell>, shortIndex: map<string, string>, longIndex: map<string, string>) {
    ReadsTrue(Lookup(cells, shortIndex, longIndex, "h")) ||
    ReadsTrue(Lookup(cells, shortIndex, longIndex, "help"))
  }

  /** A value read into the caller's `bool`: a flag's presence or a bool
      cell's value. */
  predicate AsBool(v: Value) {
    (v.FlagValue? && v.isSet) || (v.BoolValue? && v.b)
  }

  /** A lookup that finds a cell holding true. */
  predicate ReadsTrue(v: Option<Value>) {
    v.Some? && AsBool(v.value)
  }
}
