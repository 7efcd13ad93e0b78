/** The text `parser::get_help_message` renders, and the program name
    `parser::parse` takes from the path in `argv[0]`. */
module Help {
  import opened Options
  import opened Parameters
  import Sequences

  /** What the help message becomes when a cell has neither name. */
  const HELP_ERROR: string := "error: parameter has no name or short name"

  /** The first line of the help message. */
  function Header(programName: string): string {
    "Usage: " + programName + " [options]"
  }

  /** The line of one cell: a line break, `-s, ` when it has a short name,
      `--n` when it has a long name, then a tab and the description. */
  function Line(c: Cell): string {
    "\n" + (if c.shortName != "" then "-" + c.shortName + ", " else "")
         + (if c.name != "" then "--" + c.name else "")
         + "\t" + c.description
  }

  /** The pieces `get_help_message` appends for one cell. */
  function ShortPart(c: Cell): string {
    if c.shortName != "" then "-" + c.shortName + ", " else ""
  }

  function LongPart(c: Cell): string {
    if c.name != "" then "--" + c.name else ""
  }

  predicate Unnamed(c: Cell) {
    c.shortName == "" && c.name == ""
  }

  predicate HasUnnamed(cells: seq<Cell>) {
    exists i :: 0 <= i < |cells| && Unnamed(cells[i])
  }

  /** The lines of the cells, in registry order. */
  function Lines(cells: seq<Cell>): string {
    if cells == [] then "" else Lines(cells[..|cells| - 1]) + Line(cells[|cells| - 1])
  }

  /** `get_help_message` over the cells in registry order: the header and
      one line per cell, or the error text alone as soon as some cell has
      no name at all. */
  function HelpText(programName: string, cells: seq<Cell>): string {
    if HasUnnamed(cells) then HELP_ERROR else Header(programName) + Lines(cells)
  }

  /** The three shapes a line takes; a cell with a short name only keeps the
      comma and the space before the tab. */
  lemma LineShapes(c: Cell)
    ensures c.shortName != "" && c.name != "" ==>
              Line(c) == "\n-" + c.shortName + ", --" + c.name + "\t" + c.description
    ensures c.shortName != "" && c.name == "" ==>
              Line(c) == "\n-" + c.shortName + ", \t" + c.description
    ensures c.shortName == "" && c.name != "" ==>
              Line(c) == "\n--" + c.name + "\t" + c.description
  {
  }

  lemma {:induction false} LinesAppend(a: seq<Cell>, b: seq<Cell>)
    ensures Lines(a + b) == Lines(a) + Lines(b)
    decreases |b|
  {
    if b == [] {
      assert a + b == a;
    } else {
      var ab := a + b;
      var b' := b[..|b| - 1];
      var last := Line(b[|b| - 1]);
      assert ab[..|ab| - 1] == a + b';
      assert ab[|ab| - 1] == b[|b| - 1];
      assert Lines(ab) == Lines(a + b') + last;
      LinesAppend(a, b');
      Sequences.ConcatAssoc(Lines(a), Lines(b'), last);
    }
  }

  /** The error text and a rendered help text can always be told apart: the
      result is the error text exactly when some cell has no name. */
  lemma HelpErrorIff(programName: string, cells: seq<Cell>)
    ensures HelpText(programName, cells) == HELP_ERROR <==> HasUnnamed(cells)
  {
    if !HasUnnamed(cells) {
      var h := HelpText(programName, cells);
      assert h[0] == 'U' != HELP_ERROR[0];
    }
  }

  /** When every cell has a name, the help text starts with the usage line
      and holds every cell's line, in registry order: cell `i`'s line comes
      right after the lines of the cells before it. */
  lemma HelpListsEveryCell(programName: string, cells: seq<Cell>, i: nat)
    requires !HasUnnamed(cells) && i < |cells|
    ensures HelpText(programName, cells) ==
            Header(programName) + Lines(cells[..i]) + Line(cells[i]) + Lines(cells[i + 1..])
  {
    assert cells == cells[..i] + [cells[i]] + cells[i + 1..];
    LinesAppend(cells[..i] + [cells[i]], cells[i + 1..]);
    LinesAppend(cells[..i], [cells[i]]);
    assert Lines([cells[i]]) == Line(cells[i]) by {
      assert [cells[i]][..0] == [];
    }
  }

  /** One more named cell: appending its line to the text rendered so far
      renders one more cell. */
  lemma HelpStep(programName: string, cells: seq<Cell>, i: nat, text: string)
    requires i < |cells| && !HasUnnamed(cells[..i]) && !Unnamed(cells[i])
    requires text == Header(programName) + Lines(cells[..i])
    ensures !HasUnnamed(cells[..i + 1])
    ensures text + Line(cells[i]) == Header(programName) + Lines(cells[..i + 1])
  {
    var pre := cells[..i + 1];
    assert pre[..i] == cells[..i];
    forall j | 0 <= j < i + 1 ensures !Unnamed(pre[j]) {
      if j < i {
        assert pre[j] == cells[..i][j];
      }
    }
    assert Lines(pre) == Lines(cells[..i]) + Line(cells[i]);
    Sequences.ConcatAssoc(Header(programName), Lines(cells[..i]), Line(cells[i]));
  }

  /** Appending the pieces of a line one after the other appends the line. */
  lemma LinePieces(text: string, c: Cell)
    ensures text + "\n" + ShortPart(c) + LongPart(c) + ("\t" + c.description) == text + Line(c)
  {
    var head := "\n" + ShortPart(c) + LongPart(c);
    assert Line(c) == head + "\t" + c.description;
    Sequences.ConcatAssoc(head, "\t", c.description);
    Sequences.ConcatAssoc(text, "\n", ShortPart(c));
    Sequences.ConcatAssoc(text, "\n" + ShortPart(c), LongPart(c));
    Sequences.ConcatAssoc(text, head, "\t" + c.description);
  }

  /** The number of line breaks in a string. */
  function Breaks(s: string): nat {
    if s == [] then 0 else Breaks(s[..|s| - 1]) + (if s[|s| - 1] == '\n' then 1 else 0)
  }

  lemma {:induction false} BreaksAppend(a: string, b: string)
    ensures Breaks(a + b) == Breaks(a) + Breaks(b)
    decreases |b|
  {
    if b == [] {
      assert a + b == a;
    } else {
      assert (a + b)[..|a + b| - 1] == a + b[..|b| - 1];
      BreaksAppend(a, b[..|b| - 1]);
    }
  }

  predicate NoBreak(s: string) {
    forall i :: 0 <= i < |s| ==> s[i] != '\n'
  }

  lemma {:induction false} NoBreakCount(s: string)
    requires NoBreak(s)
    ensures Breaks(s) == 0
    decreases |s|
  {
    if s != [] {
      NoBreakCount(s[..|s| - 1]);
    }
  }

  /** A cell whose names and description hold no line break. */
  predicate OneLine(c: Cell) {
    NoBreak(c.shortName) && NoBreak(c.name) && NoBreak(c.description)
  }

  lemma LineBreaks(c: Cell)
    requires OneLine(c)
    ensures Breaks(Line(c)) == 1
  {
    var s := if c.shortName != "" then "-" + c.shortName + ", " else "";
    var n := if c.name != "" then "--" + c.name else "";
    assert Line(c) == "\n" + (s + (n + ("\t" + c.description)));
    NoBreakCount(s);
    NoBreakCount(n);
    NoBreakCount("\t" + c.description);
    NoBreakCount("\n"[1..]);
    BreaksAppend(n, "\t" + c.description);
    BreaksAppend(s, n + ("\t" + c.description));
    BreaksAppend("\n", s + (n + ("\t" + c.description)));
    assert Breaks("\n") == 1 by {
      assert "\n"[..0] == [];
    }
  }

  lemma {:induction false} LinesBreaks(cells: seq<Cell>)
    requires forall i :: 0 <= i < |cells| ==> OneLine(cells[i])
    ensures Breaks(Lines(cells)) == |cells|
    decreases |cells|
  {
    if cells != [] {
      LinesBreaks(cells[..|cells| - 1]);
      LineBreaks(cells[|cells| - 1]);
      BreaksAppend(Lines(cells[..|cells| - 1]), Line(cells[|cells| - 1]));
    }
  }

  /** One line per cell: when no name or description holds a line break,
      the help text has exactly one line after the usage line for each cell. */
  lemma HelpLineCount(programName: string, cells: seq<Cell>)
    requires !HasUnnamed(cells) && NoBreak(programName)
    requires forall i :: 0 <= i < |cells| ==> OneLine(cells[i])
    ensures Breaks(HelpText(programName, cells)) == |cells|
  {
    LinesBreaks(cells);
    NoBreakCount(Header(programName));
    BreaksAppend(Header(programName), Lines(cells));
  }

  // ----- the program name -----

  predicate IsSeparator(c: char) {
    c == '/' || c == '\\'
  }

  /** `find_last_of("\\/")`: the position of the last separator, if any. */
  function LastSeparator(s: string): (r: Option<nat>)
    ensures r.Some? ==> r.value < |s| && IsSeparator(s[r.value]) &&
                        forall j :: r.value < j < |s| ==> !IsSeparator(s[j])
    ensures r.None? ==> forall j :: 0 <= j < |s| ==> !IsSeparator(s[j])
  {
    if s == [] then None
    else if IsSeparator(s[|s| - 1]) then Some(|s| - 1)
    else LastSeparator(s[..|s| - 1])
  }

  /** The program name `parse` keeps: what follows the last `/` or `\`, or
      the whole path when it has neither. */
  function BaseName(path: string): (r: string)
    ensures forall j :: 0 <= j < |r| ==> !IsSeparator(r[j])
    ensures |r| <= |path| && r == path[|path| - |r|..]
    ensures |r| < |path| ==> IsSeparator(path[|path| - |r| - 1])
  {
    match LastSeparator(path)
    case None => path
    case Some(k) => path[k + 1..]
  }

  /** A name without separators is kept whole, and taking the base name a
      second time changes nothing. */
  lemma BaseNameFixed(path: string)
    ensures (forall j :: 0 <= j < |path| ==> !IsSeparator(path[j])) ==> BaseName(path) == path
    ensures BaseName(BaseName(path)) == BaseName(path)
  {
  }

  /** The paths the integration tests use, and the empty program name. */
  lemma BaseNameUnix()
    ensures BaseName("/usr/bin/myprogram") == "myprogram"
  {
    BaseNameTail("/usr/bin/", "myprogram");
    assert "/usr/bin/" + "myprogram" == "/usr/bin/myprogram";
  }

  /** The backslash separates too, and the empty path has the empty name. */
  lemma BaseNameWindows()
    ensures BaseName("C:\\Program Files\\myapp.exe") == "myapp.exe"
    ensures BaseName("") == ""
  {
    BaseNameTail("C:\\Program Files\\", "myapp.exe");
    assert "C:\\Program Files\\" + "myapp.exe" == "C:\\Program Files\\myapp.exe";
  }

  /** A path ending in a separator and a separator-free tail has that tail
      as its base name. */
  lemma BaseNameTail(dir: string, tail: string)
    requires dir != [] && IsSeparator(dir[|dir| - 1])
    requires forall j :: 0 <= j < |tail| ==> !IsSeparator(tail[j])
    ensures BaseName(dir + tail) == tail
  {
    var s := dir + tail;
    assert IsSeparator(s[|dir| - 1]);
    assert forall j :: |dir| <= j < |s| ==> s[j] == tail[j - |dir|];
    var k := LastSeparator(s).value;
    assert k == |dir| - 1;
    assert s[|dir|..] == tail;
  }
}
