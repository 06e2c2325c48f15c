/** Product rows and the insertion-ordered dictionaries built from them.
    A row and a dictionary are both sequences of (column name, value) cells. */
module Rows {
  import opened Sequences

  /** A cell as pandas holds it after reading the product sheet: an empty cell
      (NaN/None), a number, an Excel boolean, or text (dates and other objects
      compare like text: never equal to 0). */
  datatype Value = Missing | Num(x: real) | Bool(b: bool) | Str(s: string)

  /** A cell survives `dropna` and the `!= 0` column filter. In Python `False == 0`,
      so a false boolean is dropped like a numeric zero; any text, "0" included, is kept. */
  predicate Informative(v: Value) {
    match v
    case Missing => false
    case Num(x) => x != 0.0
    case Bool(b) => b
    case Str(_) => true
  }

  datatype Cell = Cell(name: string, value: Value)

  /** One table row: its cells in header order. */
  type Row = seq<Cell>

  /** A Python dict keyed by column name: its entries in insertion order. */
  type Dict = seq<Cell>

  /** The column names (dict keys) in order. */
  function Names(d: seq<Cell>): (ks: seq<string>)
    ensures |ks| == |d|
    ensures forall i :: 0 <= i < |d| ==> ks[i] == d[i].name
  {
    seq(|d|, i requires 0 <= i < |d| => d[i].name)
  }

  /** `k in row` for a pandas frame (a column test), `k in d` for a dict. */
  predicate Has(d: seq<Cell>, k: string) {
    k in Names(d)
  }

  /** No column name occurs twice. */
  predicate Distinct(d: seq<Cell>) {
    NoDup(Names(d))
  }

  /** The value stored under `k` (`d[k]`, or `row.iloc[0][k]`). */
  function Get(d: seq<Cell>, k: string): Value
    requires Has(d, k)
    decreases |d|
  {
    if d[|d| - 1].name == k then d[|d| - 1].value else Get(d[..|d| - 1], k)
  }

  lemma NamesAppend(d: seq<Cell>, c: Cell)
    ensures Names(d + [c]) == Names(d) + [c.name]
  {
    assert (d + [c])[..|d|] == d;
  }

  lemma GetAppend(d: seq<Cell>, c: Cell)
    ensures forall k :: Has(d + [c], k) <==> Has(d, k) || k == c.name
    ensures Get(d + [c], c.name) == c.value
    ensures forall k :: k != c.name && Has(d, k) ==> Get(d + [c], k) == Get(d, k)
  {
    NamesAppend(d, c);
    assert (d + [c])[..|d|] == d;
  }

  /** In a row without repeated names, the value under a cell's name is that cell's value. */
  lemma {:induction false} GetAt(d: seq<Cell>, i: nat)
    requires Distinct(d) && i < |d|
    ensures Has(d, d[i].name) && Get(d, d[i].name) == d[i].value
    decreases |d|
  {
    assert Names(d)[i] == d[i].name;
    if i < |d| - 1 {
      var d' := d[..|d| - 1];
      assert Names(d)[i] != Names(d)[|d| - 1];
      assert Names(d) == Names(d') + [d[|d| - 1].name];
      assert Distinct(d') by {
        forall p, q | 0 <= p < q < |d'| ensures Names(d')[p] != Names(d')[q] {
          assert Names(d')[p] == Names(d)[p] && Names(d')[q] == Names(d)[q];
        }
      }
      GetAt(d', i);
    }
  }

  /** Every cell whose name is `k` is in `d`, and there is one when `Has(d, k)`. */
  lemma HasCell(d: seq<Cell>, k: string)
    ensures Has(d, k) <==> exists c :: c in d && c.name == k
  {
    if Has(d, k) {
      var i :| 0 <= i < |d| && Names(d)[i] == k;
      assert d[i] in d;
    }
    if c :| c in d && c.name == k {
      var i :| 0 <= i < |d| && d[i] == c;
      assert Names(d)[i] == k;
    }
  }

  /** `d[k] = v` on a Python dict: an existing key keeps its place and takes the new
      value, a new key goes at the end. */
  function Assign(d: Dict, k: string, v: Value): (r: Dict)
    ensures Names(r) == if Has(d, k) then Names(d) else Names(d) + [k]
    ensures forall x :: Has(r, x) <==> Has(d, x) || x == k
    ensures Has(r, k) && Get(r, k) == v
    ensures forall x :: x != k && Has(d, x) ==> Get(r, x) == Get(d, x)
    ensures Distinct(d) ==> Distinct(r)
  {
    if Has(d, k) then
      Overwrite(d, k, v)
    else
      NamesAppend(d, Cell(k, v));
      GetAppend(d, Cell(k, v));
      d + [Cell(k, v)]
  }

  /** The in-place half of `Assign`: the key keeps its position. */
  function Overwrite(d: Dict, k: string, v: Value): (r: Dict)
    requires Has(d, k)
    ensures Names(r) == Names(d)
    ensures Get(r, k) == v
    ensures forall x :: x != k && Has(d, x) ==> Get(r, x) == Get(d, x)
    decreases |d|
  {
    var d', last := d[..|d| - 1], d[|d| - 1];
    assert d == d' + [last];
    GetAppend(d', last);
    if last.name == k then
      NamesAppend(d', Cell(k, v));
      GetAppend(d', Cell(k, v));
      d' + [Cell(k, v)]
    else
      var r' := Overwrite(d', k, v);
      NamesAppend(r', last);
      GetAppend(r', last);
      r' + [last]
  }

  /** The cells of `row` that `keep` accepts, in row order. */
  function Filter(row: Row, keep: Cell -> bool): Row
    decreases |row|
  {
    if row == [] then []
    else
      var rest, last := Filter(row[..|row| - 1], keep), row[|row| - 1];
      if keep(last) then rest + [last] else rest
  }

  /** A filter keeps exactly the accepted cells, in their order. */
  lemma {:induction false} FilterSpec(row: Row, keep: Cell -> bool)
    ensures forall c :: c in Filter(row, keep) <==> c in row && keep(c)
    ensures Subseq(Filter(row, keep), row)
    decreases |row|
  {
    if row != [] {
      var row', last := row[..|row| - 1], row[|row| - 1];
      var rest := Filter(row', keep);
      FilterSpec(row', keep);
      assert row == row' + [last];
      if keep(last) {
        assert (rest + [last])[..|rest|] == rest;
      }
    }
  }

  /** A filter keeps every copy of an accepted cell and no copy of a rejected one. */
  lemma {:induction false} FilterCount(row: Row, keep: Cell -> bool)
    ensures forall c :: multiset(Filter(row, keep))[c] == if keep(c) then multiset(row)[c] else 0
    decreases |row|
  {
    if row != [] {
      var row', last := row[..|row| - 1], row[|row| - 1];
      FilterCount(row', keep);
      assert row == row' + [last];
      assert multiset(row) == multiset(row') + multiset{last};
    }
  }

  lemma {:induction false} SubseqNames(a: seq<Cell>, b: seq<Cell>)
    requires Subseq(a, b)
    ensures Subseq(Names(a), Names(b))
    decreases |b|
  {
    if a != [] {
      var a', b' := a[..|a| - 1], b[..|b| - 1];
      assert Names(a)[..|a| - 1] == Names(a');
      assert Names(b)[..|b| - 1] == Names(b');
      if a[|a| - 1] == b[|b| - 1] && Subseq(a', b') {
        SubseqNames(a', b');
      } else {
        SubseqNames(a, b');
      }
    }
  }

  /** Filtering a row with distinct names: no name repeats, a name survives exactly
      when its cell is accepted, and its value is unchanged. */
  lemma FilterLookup(row: Row, keep: Cell -> bool)
    requires Distinct(row)
    ensures Distinct(Filter(row, keep))
    ensures forall k :: Has(Filter(row, keep), k) <==> Has(row, k) && keep(Cell(k, Get(row, k)))
    ensures forall k :: Has(Filter(row, keep), k) ==> Get(Filter(row, keep), k) == Get(row, k)
  {
    var f := Filter(row, keep);
    FilterSpec(row, keep);
    SubseqNames(f, row);
    SubseqNoDup(Names(f), Names(row));
    forall k ensures Has(f, k) <==> Has(row, k) && keep(Cell(k, Get(row, k))) {
      HasCell(f, k);
      HasCell(row, k);
      if Has(row, k) {
        var j :| 0 <= j < |row| && Names(row)[j] == k;
        GetAt(row, j);
        assert row[j] == Cell(k, Get(row, k));
      }
    }
    forall k | Has(f, k) ensures Get(f, k) == Get(row, k) {
      var i :| 0 <= i < |f| && Names(f)[i] == k;
      GetAt(f, i);
      assert f[i] in row;
      var j :| 0 <= j < |row| && row[j] == f[i];
      GetAt(row, j);
    }
  }
}
