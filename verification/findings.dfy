/** `std::map::operator[]` inserts a default value when the key is missing.
    `parser::get_parameter_value_to` reads the registry with it, so a name
    that resolves to no key inserts a null `parameter*` under the empty key,
    which sorts before every real key; `parser::get_help_message` later
    dereferences every entry. This module states the registry as written, with
    its null entries, and shows that one missed lookup makes the help
    message dereference null; `Scanning.Lookup` and `Help.HelpText` are the
    corrected behaviour the rest of the model uses. */
module Findings {
  import opened Options
  import opened Parameters
  import opened Registry
  import opened Scanning
  import opened Help
  import Sequences

  /** A registry entry as the map holds it: `None` is a null pointer. */
  datatype Entry = Entry(key: string, cell: Option<Cell>)

  /** The entries of a registry that holds only real cells. */
  function Entries(cells: seq<Cell>): (es: seq<Entry>)
    ensures |es| == |cells|
    ensures forall i :: 0 <= i < |cells| ==> es[i] == Entry(CellKey(cells[i]), Some(cells[i]))
  {
    seq(|cells|, i requires 0 <= i < |cells| => Entry(CellKey(cells[i]), Some(cells[i])))
  }

  /** `parameters[key]` as written: the entry's pointer when the key is
      there; otherwise a null entry is inserted at the key's place in key
      order and null is returned. */
  function Subscript(es: seq<Entry>, key: string): (r: (seq<Entry>, Option<Cell>))
    ensures |r.0| == |es| || |r.0| == |es| + 1
  {
    if es == [] then ([Entry(key, None)], None)
    else if es[0].key == key then (es, es[0].cell)
    else if Less(key, es[0].key) then ([Entry(key, None)] + es, None)
    else
      var (rest, c) := Subscript(es[1..], key);
      ([es[0]] + rest, c)
  }

  /** `index[name]` as written: the stored key, or "" for a missing name. */
  function IndexRead(index: map<string, string>, name: string): string {
    if name in index then index[name] else ""
  }

  /** The key `get_parameter_value_to` computes for `flag`, as written: the
      bare spelling falls back to the long index when the short one gives "". */
  function QueryKeyAsWritten(flag: string, shortIndex: map<string, string>, longIndex: map<string, string>): string {
    if StartsWithDash(flag) then
      (if IsLongFlag(flag) then IndexRead(longIndex, FlagName(flag)) else IndexRead(shortIndex, FlagName(flag)))
    else if IndexRead(shortIndex, flag) != "" then IndexRead(shortIndex, flag)
    else IndexRead(longIndex, flag)
  }

  /** `get_parameter_value_to` as written: the registry after the
      subscript, and the value it reports (`None` when it returns false). */
  function GetValueAsWritten(es: seq<Entry>, shortIndex: map<string, string>, longIndex: map<string, string>,
                             flag: string): (r: (seq<Entry>, Option<Value>))
  {
    var (es', c) := Subscript(es, QueryKeyAsWritten(flag, shortIndex, longIndex));
    (es', if c.Some? then Some(c.value.value) else None)
  }

  /** `get_help_message` over the entries from the text rendered so far:
      `None` when it reaches a null entry, whose dereference is undefined
      behaviour (a crash in practice). */
  function HelpFrom(text: string, es: seq<Entry>): Option<string>
    decreases |es|
  {
    if es == [] then Some(text)
    else match es[0].cell
      case None => None
      case Some(c) => if Unnamed(c) then Some(HELP_ERROR) else HelpFrom(text + Line(c), es[1..])
  }

  function HelpAsWritten(programName: string, es: seq<Entry>): Option<string> {
    HelpFrom(Header(programName), es)
  }

  /** A name that resolves to no key leaves a null entry at the front of the
      registry: the empty key is below every real key. */
  lemma MissInsertsNullFirst(cells: seq<Cell>)
    ensures Subscript(Entries(cells), "") == ([Entry("", None)] + Entries(cells), None)
  {
    if cells != [] {
      var es := Entries(cells);
      assert es[0].key == CellKey(cells[0]) != "";
      assert Less("", es[0].key);
    } else {
      assert Entries(cells) == [];
      assert [Entry("", None)] + Entries(cells) == [Entry("", None)];
    }
  }

  /** As written: after one lookup of a name no index holds, rendering the
      help message dereferences null, whatever the registry holds. */
  lemma HelpAfterMissCrashes(programName: string, cells: seq<Cell>, si: map<string, string>,
                             li: map<string, string>, flag: string)
    requires QueryKeyAsWritten(flag, si, li) == ""
    ensures GetValueAsWritten(Entries(cells), si, li, flag).1 == None
    ensures HelpAsWritten(programName, GetValueAsWritten(Entries(cells), si, li, flag).0) == None
  {
    MissInsertsNullFirst(cells);
  }

  /** The run that shows it: one NONE parameter registered under the long
      name `help` only, auto-help on, the command line `prog --help`. The
      scan sets the flag; `is_help_requested` looks up "h" first, which
      inserts the null entry, then reads `help` as true; the help message
      that follows dereferences null. */
  lemma LongOnlyHelpCrashes()
    ensures var c := Cell("", "help", "show help", NoneType, 10, true, false, FlagValue(true));
            var si: map<string, string> := map[];
            var li := map["help" := CellKey(c)];
            var (es1, h) := GetValueAsWritten(Entries([c]), si, li, "h");
            var (es2, help) := GetValueAsWritten(es1, si, li, "help");
            h == None && help == Some(FlagValue(true)) && HelpAsWritten("prog", es2) == None
  {
    var c := Cell("", "help", "show help", NoneType, 10, true, false, FlagValue(true));
    var si: map<string, string> := map[];
    var li := map["help" := CellKey(c)];
    assert QueryKeyAsWritten("h", si, li) == "";
    MissInsertsNullFirst([c]);
    var es1 := [Entry("", None)] + Entries([c]);
    assert QueryKeyAsWritten("help", si, li) == CellKey(c);
    assert es1[0].key == "" && es1[1].key == CellKey(c);
    assert Less("", CellKey(c));
    assert Subscript(es1[1..], CellKey(c)) == (es1[1..], Some(c));
    assert Subscript(es1, CellKey(c)) == (es1, Some(c));
  }

  /** Corrected: with lookups that insert nothing the registry holds only
      real cells, and rendering it is `HelpText`, from any text rendered so
      far: the help message never dereferences null. */
  lemma {:induction false} HelpFromCells(text: string, cells: seq<Cell>)
    ensures HelpFrom(text, Entries(cells)) ==
            if HasUnnamed(cells) then Some(HELP_ERROR) else Some(text + Lines(cells))
    decreases |cells|
  {
    if cells == [] {
      assert text + Lines(cells) == text;
    } else {
      var c := cells[0];
      var rest := cells[1..];
      assert Entries(cells)[1..] == Entries(rest);
      HelpFromCells(text + Line(c), rest);
      assert cells == [c] + rest;
      LinesAppend([c], rest);
      assert Lines([c]) == Line(c) by {
        assert [c][..0] == [];
      }
      Sequences.ConcatAssoc(text, Line(c), Lines(rest));
      assert HasUnnamed(cells) <==> Unnamed(c) || HasUnnamed(rest) by {
        assert forall i :: 0 < i < |cells| ==> cells[i] == rest[i - 1];
      }
    }
  }

  lemma HelpNeverCrashes(programName: string, cells: seq<Cell>)
    ensures HelpAsWritten(programName, Entries(cells)) == Some(HelpText(programName, cells))
  {
    HelpFromCells(Header(programName), cells);
  }

  /** A key above the first entry's is read in the rest of the entries. */
  lemma SubscriptPast(es: seq<Entry>, key: string)
    requires es != [] && Less(es[0].key, key)
    ensures Subscript(es, key) == ([es[0]] + Subscript(es[1..], key).0, Subscript(es[1..], key).1)
  {
    LessIrreflexive(key);
    LessAsymmetric(es[0].key, key);
  }

  /** Reading a stored key finds its cell and inserts nothing. */
  lemma {:induction false} SubscriptHit(cells: seq<Cell>, i: nat)
    requires StrictlySorted(CellKeys(cells)) && i < |cells|
    ensures Subscript(Entries(cells), CellKey(cells[i])) == (Entries(cells), Some(cells[i]))
    decreases i
  {
    var es := Entries(cells);
    var key := CellKey(cells[i]);
    if i > 0 {
      assert Less(es[0].key, key) by {
        assert CellKeys(cells)[0] == es[0].key && CellKeys(cells)[i] == key;
      }
      SubscriptPast(es, key);
      SortedTail(cells);
      assert es[1..] == Entries(cells[1..]);
      assert cells[1..][i - 1] == cells[i];
      SubscriptHit(cells[1..], i - 1);
      assert [es[0]] + es[1..] == es;
    }
  }

  /** Reading a key that is not stored returns null. */
  lemma {:induction false} SubscriptMiss(cells: seq<Cell>, key: string)
    requires key !in CellKeys(cells)
    ensures Subscript(Entries(cells), key).1 == None
    decreases |cells|
  {
    if cells != [] {
      var es := Entries(cells);
      assert es[0].key == CellKeys(cells)[0];
      CellKeysTail(cells);
      assert es[1..] == Entries(cells[1..]);
      SubscriptMiss(cells[1..], key);
    }
  }

  /** The key the as-written lookup computes, with "" standing for none. */
  lemma QueryKeyAgrees(cells: seq<Cell>, si: map<string, string>, li: map<string, string>, flag: string)
    requires IndexOk(si, cells) && IndexOk(li, cells)
    ensures QueryKeyAsWritten(flag, si, li) ==
            match QueryKey(flag, si, li) case None => "" case Some(k) => k
  {
    if !StartsWithDash(flag) && flag in si {
      var k :| 0 <= k < |cells| && CellKeys(cells)[k] == si[flag];
      assert si[flag] != "";
    }
  }

  /** Corrected: the non-inserting lookup `Lookup` reports what the
      inserting one reports, and leaves the registry as it was. */
  lemma LookupAgrees(cells: seq<Cell>, si: map<string, string>, li: map<string, string>, flag: string)
    requires StrictlySorted(CellKeys(cells)) && IndexOk(si, cells) && IndexOk(li, cells)
    ensures GetValueAsWritten(Entries(cells), si, li, flag).1 == Lookup(cells, si, li, flag)
  {
    var key := QueryKeyAsWritten(flag, si, li);
    QueryKeyAgrees(cells, si, li, flag);
    match Find(CellKeys(cells), key)
    case None =>
      SubscriptMiss(cells, key);
    case Some(i) =>
      SubscriptHit(cells, i);
  }

  // ----- is_help_requested reads any cell into a `bool` -----

  /** What `get_parameter_value_to(flag, &help_value)` leaves in the `bool`:
      nothing when no cell is found, the cell's flag or bool, or undefined
      behaviour when the cell writes an `i64`, a `std::string` or an `f64`
      through the `bool*`. */
  datatype BoolRead = Missing | Read(b: bool) | Undefined

  function ReadBool(v: Option<Value>): BoolRead {
    match v
    case None => Missing
    case Some(FlagValue(b)) => Read(b)
    case Some(BoolValue(b)) => Read(b)
    case Some(_) => Undefined
  }

  /** `is_help_requested` as written: `None` when either read it reaches is
      undefined behaviour. */
  function HelpRequestedAsWritten(cells: seq<Cell>, si: map<string, string>, li: map<string, string>): Option<bool> {
    match ReadBool(Lookup(cells, si, li, "h"))
    case Undefined => None
    case Read(true) => Some(true)
    case _ =>
      match ReadBool(Lookup(cells, si, li, "help"))
      case Undefined => None
      case Read(b) => Some(b)
      case Missing => Some(false)
  }

  /** Wherever the as-written check is defined, `HelpRequested` agrees with it. */
  lemma HelpReadAgrees(cells: seq<Cell>, si: map<string, string>, li: map<string, string>)
    ensures HelpRequestedAsWritten(cells, si, li).Some? ==>
              HelpRequestedAsWritten(cells, si, li).value == HelpRequested(cells, si, li)
  {
  }

  /** As written: an INTEGER parameter `-h`/`--height` holding 1 next to a
      set `--help` flag. `is_help_requested` reads `h` first and writes the
      `i64` through the `bool*`: undefined behaviour. */
  lemma HeightShadowsHelp()
    ensures var height := Cell("h", "height", "height", IntegerType, 10, true, false, IntegerValue(1));
            var help := Cell("", "help", "show help", NoneType, 10, true, false, FlagValue(true));
            var si := map["h" := CellKey(height)];
            var li := map["height" := CellKey(height), "help" := CellKey(help)];
            HelpRequestedAsWritten([help, height], si, li) == None &&
            HelpRequested([help, height], si, li)
  {
    var height := Cell("h", "height", "height", IntegerType, 10, true, false, IntegerValue(1));
    var help := Cell("", "help", "show help", NoneType, 10, true, false, FlagValue(true));
    var cells := [help, height];
    var si := map["h" := CellKey(height)];
    var li := map["height" := CellKey(height), "help" := CellKey(help)];
    assert CellKey(help)[0] == '\n' && CellKey(height)[0] == 'h';
    assert CellKeys(cells) == [CellKey(help), CellKey(height)];
    assert QueryKey("h", si, li) == Some(CellKey(height));
    assert Find(CellKeys(cells), CellKey(height)) == Some(1);
    assert Lookup(cells, si, li, "h") == Some(IntegerValue(1));
    assert QueryKey("help", si, li) == Some(CellKey(help));
    assert Find(CellKeys(cells), CellKey(help)) == Some(0);
    assert Lookup(cells, si, li, "help") == Some(FlagValue(true));
  }

  /** Corrected: a parameter of another type under `h` never hides `--help`;
      the check then rests on `help` alone. */
  lemma NonBoolNeverShadowsHelp(cells: seq<Cell>, si: map<string, string>, li: map<string, string>)
    requires ReadBool(Lookup(cells, si, li, "h")) == Undefined
    ensures HelpRequested(cells, si, li) == ReadsTrue(Lookup(cells, si, li, "help"))
  {
  }
}
