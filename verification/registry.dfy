/** The parser's three tables: the registry `std::map<std::string, parameter*>`
    holding the cells in ascending order of their key `short_name + "\n" + name`
    (compared as `std::string` compares, character by character), and the two
    indexes from a short name and from a long name to that key. */
module Registry {
  import opened Options
  import opened Parameters
  import Sequences

  /** `std::string`'s `operator<`. */
  predicate Less(a: string, b: string)
    decreases |a|
  {
    if a == [] then b != []
    else if b == [] then false
    else if a[0] != b[0] then a[0] < b[0]
    else Less(a[1..], b[1..])
  }

  lemma {:induction false} LessIrreflexive(a: string)
    ensures !Less(a, a)
    decreases |a|
  {
    if a != [] {
      LessIrreflexive(a[1..]);
    }
  }

  lemma {:induction false} LessTransitive(a: string, b: string, c: string)
    requires Less(a, b) && Less(b, c)
    ensures Less(a, c)
    decreases |a|
  {
    if a != [] && b != [] && c != [] && a[0] == b[0] == c[0] {
      LessTransitive(a[1..], b[1..], c[1..]);
    }
  }

  lemma {:induction false} LessTotal(a: string, b: string)
    requires a != b
    ensures Less(a, b) || Less(b, a)
    decreases |a|
  {
    if a != [] && b != [] && a[0] == b[0] {
      assert a == [a[0]] + a[1..] && b == [b[0]] + b[1..];
      LessTotal(a[1..], b[1..]);
    }
  }

  lemma LessAsymmetric(a: string, b: string)
    requires Less(a, b)
    ensures !Less(b, a)
  {
    if Less(b, a) {
      LessTransitive(a, b, a);
      LessIrreflexive(a);
    }
  }

  /** The registry key of a cell with these names. */
  function Key(shortName: string, name: string): (k: string)
    ensures k != "" && |k| == |shortName| + 1 + |name|
    ensures k[|shortName|] == '\n'
  {
    shortName + "\n" + name
  }

  function CellKey(c: Cell): string {
    Key(c.shortName, c.name)
  }

  function CellKeys(cs: seq<Cell>): (ks: seq<string>)
    ensures |ks| == |cs| && forall i :: 0 <= i < |cs| ==> ks[i] == CellKey(cs[i])
  {
    seq(|cs|, i requires 0 <= i < |cs| => CellKey(cs[i]))
  }

  /** Keys in strictly ascending order: the iteration order of a `std::map`. */
  predicate StrictlySorted(ks: seq<string>) {
    forall i, j :: 0 <= i < j < |ks| ==> Less(ks[i], ks[j])
  }

  /** `std::map::find`: the position of key `k`, the first when there are several. */
  function Find(ks: seq<string>, k: string): (r: Option<nat>)
    ensures r.Some? ==> r.value < |ks| && ks[r.value] == k &&
                        forall j :: 0 <= j < r.value ==> ks[j] != k
    ensures r.None? <==> k !in ks
  {
    if ks == [] then None
    else if ks[0] == k then Some(0)
    else match Find(ks[1..], k)
      case None => None
      case Some(i) => Some(i + 1)
  }

  /** In a strictly sorted key list, each key sits at exactly one place. */
  lemma FindSorted(ks: seq<string>, i: nat)
    requires StrictlySorted(ks) && i < |ks|
    ensures Find(ks, ks[i]) == Some(i)
  {
    var r := Find(ks, ks[i]);
    if r.value < i {
      LessIrreflexive(ks[i]);
    }
  }

  /** `std::map::lower_bound`: the first position whose key is not below `k`. */
  function LowerBound(ks: seq<string>, k: string): (r: nat)
    ensures r <= |ks|
    ensures forall j :: 0 <= j < r ==> Less(ks[j], k)
    ensures r < |ks| ==> !Less(ks[r], k)
  {
    if ks == [] || !Less(ks[0], k) then 0 else 1 + LowerBound(ks[1..], k)
  }

  /** `parameters[key] = p` on the cells: replaces the cell stored under
      `c`'s key, or puts `c` at its place in key order. */
  function Insert(cells: seq<Cell>, c: Cell): (r: seq<Cell>)
    ensures c in r
    ensures forall d :: d in r ==> d in cells || d == c
  {
    if cells == [] then [c]
    else if Less(CellKey(c), CellKey(cells[0])) then [c] + cells
    else if CellKey(c) == CellKey(cells[0]) then [c] + cells[1..]
    else [cells[0]] + Insert(cells[1..], c)
  }

  /** The registry as the dictionary it stands for. */
  function ToMap(cells: seq<Cell>): map<string, Cell>
  {
    if cells == [] then map[] else ToMap(cells[1..])[CellKey(cells[0]) := cells[0]]
  }

  lemma {:induction false} ToMapKeys(cells: seq<Cell>)
    ensures ToMap(cells).Keys == set c | c in cells :: CellKey(c)
  {
    if cells != [] {
      ToMapKeys(cells[1..]);
      assert forall c :: c in cells <==> c == cells[0] || c in cells[1..];
    }
  }

  /** Inserting is the dictionary update `m[key] := c`. */
  lemma {:induction false} InsertIsUpdate(cells: seq<Cell>, c: Cell)
    ensures ToMap(Insert(cells, c)) == ToMap(cells)[CellKey(c) := c]
  {
    if cells == [] {
    } else if Less(CellKey(c), CellKey(cells[0])) {
      assert ([c] + cells)[1..] == cells;
    } else if CellKey(c) == CellKey(cells[0]) {
      assert ([c] + cells[1..])[1..] == cells[1..];
    } else {
      var rest := Insert(cells[1..], c);
      assert ([cells[0]] + rest)[1..] == rest;
      InsertIsUpdate(cells[1..], c);
    }
  }

  /** The keys of a cell followed by cells. */
  lemma CellKeysCons(d: Cell, cells: seq<Cell>)
    ensures CellKeys([d] + cells) == [CellKey(d)] + CellKeys(cells)
  {
  }

  lemma CellKeysTail(cells: seq<Cell>)
    requires cells != []
    ensures CellKeys(cells) == [CellKey(cells[0])] + CellKeys(cells[1..])
  {
  }

  /** The keys after inserting are the keys before plus the new one. */
  lemma {:induction false} InsertKeys(cells: seq<Cell>, c: Cell, k: string)
    ensures k in CellKeys(Insert(cells, c)) <==> k in CellKeys(cells) || k == CellKey(c)
  {
    if cells == [] {
      CellKeysCons(c, []);
    } else if Less(CellKey(c), CellKey(cells[0])) {
      CellKeysCons(c, cells);
    } else if CellKey(c) == CellKey(cells[0]) {
      CellKeysTail(cells);
      CellKeysCons(c, cells[1..]);
    } else {
      InsertKeys(cells[1..], c, k);
      CellKeysTail(cells);
      CellKeysCons(cells[0], Insert(cells[1..], c));
    }
  }

  /** A sorted registry after its first cell: sorted, and above that cell. */
  lemma SortedTail(cells: seq<Cell>)
    requires cells != [] && StrictlySorted(CellKeys(cells))
    ensures StrictlySorted(CellKeys(cells[1..]))
    ensures forall j :: 0 <= j < |cells[1..]| ==> Less(CellKey(cells[0]), CellKey(cells[1..][j]))
  {
    assert forall j :: 0 <= j < |cells[1..]| ==> cells[1..][j] == cells[j + 1];
  }

  /** A cell below every cell of a sorted registry can be put in front. */
  lemma SortedCons(d: Cell, cells: seq<Cell>)
    requires StrictlySorted(CellKeys(cells))
    requires forall j :: 0 <= j < |cells| ==> Less(CellKey(d), CellKey(cells[j]))
    ensures StrictlySorted(CellKeys([d] + cells))
  {
    CellKeysCons(d, cells);
    var ks := CellKeys([d] + cells);
    forall i, j | 0 <= i < j < |ks| ensures Less(ks[i], ks[j]) {
      if i > 0 {
        assert ks[i] == CellKeys(cells)[i - 1];
      }
    }
  }

  /** A bound below every cell and below `c` stays below every cell after
      inserting `c`. */
  lemma InsertAbove(cells: seq<Cell>, c: Cell, b: string)
    requires forall j :: 0 <= j < |cells| ==> Less(b, CellKey(cells[j]))
    requires Less(b, CellKey(c))
    ensures forall j :: 0 <= j < |Insert(cells, c)| ==> Less(b, CellKey(Insert(cells, c)[j]))
  {
    var r := Insert(cells, c);
    forall j | 0 <= j < |r| ensures Less(b, CellKey(r[j])) {
      assert r[j] in r;
      if r[j] != c {
        var k :| 0 <= k < |cells| && cells[k] == r[j];
      }
    }
  }

  /** Inserting keeps the registry in strict key order. */
  lemma {:induction false} InsertOrdered(cells: seq<Cell>, c: Cell)
    requires StrictlySorted(CellKeys(cells))
    ensures StrictlySorted(CellKeys(Insert(cells, c)))
  {
    if cells == [] {
      SortedCons(c, []);
    } else if Less(CellKey(c), CellKey(cells[0])) {
      forall j | 0 <= j < |cells| ensures Less(CellKey(c), CellKey(cells[j])) {
        if j > 0 {
          LessTransitive(CellKey(c), CellKey(cells[0]), CellKey(cells[j]));
        }
      }
      SortedCons(c, cells);
    } else if CellKey(c) == CellKey(cells[0]) {
      SortedTail(cells);
      SortedCons(c, cells[1..]);
    } else {
      LessTotal(CellKey(c), CellKey(cells[0]));
      SortedTail(cells);
      InsertOrdered(cells[1..], c);
      InsertAbove(cells[1..], c, CellKey(cells[0]));
      SortedCons(cells[0], Insert(cells[1..], c));
    }
  }

  /** Inserting adds at most one cell: the key's old cell, if any, is replaced. */
  lemma {:induction false} InsertLength(cells: seq<Cell>, c: Cell)
    requires StrictlySorted(CellKeys(cells))
    ensures |Insert(cells, c)| == if CellKey(c) in CellKeys(cells) then |cells| else |cells| + 1
  {
    if cells != [] && Less(CellKey(c), CellKey(cells[0])) {
      if CellKey(c) in CellKeys(cells) {
        var k :| 0 <= k < |cells| && CellKeys(cells)[k] == CellKey(c);
        if k == 0 {
          LessIrreflexive(CellKey(c));
        } else {
          LessTransitive(CellKey(c), CellKey(cells[0]), CellKey(cells[k]));
          LessIrreflexive(CellKey(c));
        }
      }
    } else if cells != [] && CellKey(c) != CellKey(cells[0]) {
      SortedTail(cells);
      InsertLength(cells[1..], c);
      CellKeysTail(cells);
    } else if cells != [] {
      CellKeysTail(cells);
    }
  }

  /** The end of the stretch `Insert` replaces: one past the lower bound when
      the cell there has the key, the lower bound itself otherwise. */
  function SpliceEnd(cells: seq<Cell>, k: nat, key: string): (e: nat)
    requires k <= |cells|
    ensures k <= e <= |cells|
  {
    if k < |cells| && CellKey(cells[k]) == key then k + 1 else k
  }

  /** Where `Insert` puts `c`: at the lower bound of its key, over the old
      cell with that key if there is one. */
  predicate SplicedAt(cells: seq<Cell>, c: Cell) {
    var k := LowerBound(CellKeys(cells), CellKey(c));
    Insert(cells, c) == cells[..k] + [c] + cells[SpliceEnd(cells, k, CellKey(c))..]
  }

  /** `Insert` puts the cell at the lower bound of its key, over the old
      cell with that key if there is one. */
  lemma {:induction false} InsertSplice(cells: seq<Cell>, c: Cell)
    ensures SplicedAt(cells, c)
  {
    if cells == [] || !Less(CellKey(cells[0]), CellKey(c)) {
      SpliceFront(cells, c);
    } else {
      InsertSplice(cells[1..], c);
      SpliceStep(cells, c);
    }
  }

  /** A cell whose key is not above the first key goes in front. */
  lemma SpliceFront(cells: seq<Cell>, c: Cell)
    requires cells == [] || !Less(CellKey(cells[0]), CellKey(c))
    ensures SplicedAt(cells, c)
  {
    var key := CellKey(c);
    if cells != [] {
      var k0 := CellKey(cells[0]);
      assert LowerBound(CellKeys(cells), key) == 0;
      if Less(key, k0) {
        LessIrreflexive(key);
        assert Insert(cells, c) == [c] + cells;
        assert cells[..0] + [c] + cells[0..] == [c] + cells;
      } else {
        if key != k0 {
          LessTotal(key, k0);
        }
        assert Insert(cells, c) == [c] + cells[1..];
        assert cells[..0] + [c] + cells[1..] == [c] + cells[1..];
      }
    }
  }

  /** A cell whose key is above the first key goes where it goes in the tail. */
  lemma SpliceStep(cells: seq<Cell>, c: Cell)
    requires cells != [] && Less(CellKey(cells[0]), CellKey(c))
    requires SplicedAt(cells[1..], c)
    ensures SplicedAt(cells, c)
  {
    var key := CellKey(c);
    LessAsymmetric(CellKey(cells[0]), key);
    LessIrreflexive(key);
    assert Insert(cells, c) == [cells[0]] + Insert(cells[1..], c);
    CellKeysTail(cells);
    var k' := LowerBound(CellKeys(cells[1..]), key);
    var k := k' + 1;
    assert LowerBound(CellKeys(cells), key) == k;
    var e' := SpliceEnd(cells[1..], k', key);
    assert Insert(cells[1..], c) == cells[1..][..k'] + [c] + cells[1..][e'..];
    SpliceEndTail(cells, k', key);
    Sequences.ConsSplice(cells, k', e', c);
  }

  lemma SpliceEndTail(cells: seq<Cell>, k: nat, key: string)
    requires k < |cells|
    ensures SpliceEnd(cells, k + 1, key) == SpliceEnd(cells[1..], k, key) + 1
  {
    if k + 1 < |cells| {
      assert cells[k + 1] == cells[1..][k];
    }
  }

  // ----- the three tables together -----

  datatype Tables = Tables(cells: seq<Cell>, shortIndex: map<string, string>, longIndex: map<string, string>)

  /** Every indexed name is non-empty and leads to a stored key. */
  predicate IndexOk(index: map<string, string>, cells: seq<Cell>) {
    "" !in index && forall n :: n in index ==> index[n] in CellKeys(cells)
  }

  /** What the parser keeps true between calls: the registry in key order
      and both indexes pointing into it. */
  predicate TablesOk(t: Tables) {
    StrictlySorted(CellKeys(t.cells)) && IndexOk(t.shortIndex, t.cells) && IndexOk(t.longIndex, t.cells)
  }

  /** An index entry `index[name] = key`, made only for a non-empty name. */
  function IndexName(index: map<string, string>, name: string, key: string): (r: map<string, string>)
    ensures name != "" ==> name in r && r[name] == key
    ensures forall n :: n != name ==> (n in r <==> n in index) && (n in r ==> r[n] == index[n])
    ensures name == "" ==> r == index
  {
    if name == "" then index else index[name := key]
  }

  /** The tail of `add_parameter` and `add_bool`: store the cell under its key
      and index it under each of its non-empty names. */
  function Register(t: Tables, c: Cell): Tables {
    Tables(Insert(t.cells, c),
           IndexName(t.shortIndex, c.shortName, CellKey(c)),
           IndexName(t.longIndex, c.name, CellKey(c)))
  }

  /** Registering keeps the tables consistent. */
  lemma RegisterOk(t: Tables, c: Cell)
    requires TablesOk(t)
    ensures TablesOk(Register(t, c))
  {
    var r := Register(t, c);
    InsertOrdered(t.cells, c);
    forall n | n in r.shortIndex ensures r.shortIndex[n] in CellKeys(r.cells) {
      InsertKeys(t.cells, c, r.shortIndex[n]);
    }
    forall n | n in r.longIndex ensures r.longIndex[n] in CellKeys(r.cells) {
      InsertKeys(t.cells, c, r.longIndex[n]);
    }
  }

  /** After registering, the registry maps the cell's key to the cell and
      every other key to what it mapped before; each non-empty name of the
      cell now leads to its key, overwriting an earlier entry for that name,
      and an empty name is not indexed. */
  lemma RegisterEffect(t: Tables, c: Cell)
    ensures ToMap(Register(t, c).cells) == ToMap(t.cells)[CellKey(c) := c]
    ensures c.shortName != "" ==> Register(t, c).shortIndex == t.shortIndex[c.shortName := CellKey(c)]
    ensures c.shortName == "" ==> Register(t, c).shortIndex == t.shortIndex
    ensures c.name != "" ==> Register(t, c).longIndex == t.longIndex[c.name := CellKey(c)]
    ensures c.name == "" ==> Register(t, c).longIndex == t.longIndex
  {
    InsertIsUpdate(t.cells, c);
  }
}
