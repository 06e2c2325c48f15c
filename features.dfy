/** The per-row column classifier: drop uninformative cells, then split the row into
    the standard columns and the candidate features. */
module Features {
  import opened Sequences
  import opened Rows
  import opened Columns

  /** The cell survives cleaning. */
  predicate Kept(c: Cell) {
    Informative(c.value)
  }

  /** The cell may become a candidate feature. */
  predicate Candidate(c: Cell) {
    c.name !in FeatureExceptions
  }

  /** The row after `dropna` and the `!= 0` filter: the informative cells, in order. */
  function Clean(row: Row): Row {
    Filter(row, Kept)
  }

  /** The cells of `row` named in `cols`, in the order of `cols`. */
  function Pick(cols: seq<string>, row: Row): Dict
    decreases |cols|
  {
    if cols == [] then []
    else
      var rest, k := Pick(cols[..|cols| - 1], row), cols[|cols| - 1];
      if Has(row, k) then rest + [Cell(k, Get(row, k))] else rest
  }

  /** `Pick` keeps exactly the listed names the row has, with the row's values, in
      list order. */
  lemma {:induction false} PickSpec(cols: seq<string>, row: Row)
    ensures forall k :: Has(Pick(cols, row), k) <==> k in cols && Has(row, k)
    ensures forall k :: Has(Pick(cols, row), k) ==> Get(Pick(cols, row), k) == Get(row, k)
    ensures Subseq(Names(Pick(cols, row)), cols)
    decreases |cols|
  {
    if cols != [] {
      var cols', k := cols[..|cols| - 1], cols[|cols| - 1];
      assert cols == cols' + [k];
      var rest := Pick(cols', row);
      PickSpec(cols', row);
      if Has(row, k) {
        NamesAppend(rest, Cell(k, Get(row, k)));
        GetAppend(rest, Cell(k, Get(row, k)));
        assert (Names(rest) + [k])[..|rest|] == Names(rest);
      }
    }
  }

  /** The standard dict of a cleaned row. */
  function StandardOf(clean: Row): Dict {
    Pick(StandardColumns, clean)
  }

  /** The feature dict of a cleaned row: every cell not on the exclusion list. */
  function FeaturesOf(clean: Row): Dict {
    Filter(clean, Candidate)
  }

  /** What `get_features` returns for a row: (standard dict, feature dict). */
  function Classify(row: Row): (Dict, Dict) {
    (StandardOf(Clean(row)), FeaturesOf(Clean(row)))
  }

  /** One step of the standard loop: assigning the next standard column, when the row
      has it, extends the dict exactly as `Pick` does. */
  lemma PickStep(cols: seq<string>, i: nat, row: Row)
    requires NoDup(cols) && i < |cols|
    ensures Pick(cols[..i + 1], row) ==
      if Has(row, cols[i]) then Assign(Pick(cols[..i], row), cols[i], Get(row, cols[i]))
      else Pick(cols[..i], row)
  {
    assert cols[..i + 1][..i] == cols[..i];
    PickSpec(cols[..i], row);
    if Has(row, cols[i]) {
      assert cols[i] !in cols[..i];
    }
  }

  /** One step of the feature loop: assigning the next row cell, when it is a
      candidate, extends the dict exactly as `Filter` does. */
  lemma FilterStep(row: Row, i: nat, keep: Cell -> bool)
    requires Distinct(row) && i < |row|
    ensures Filter(row[..i + 1], keep) ==
      if keep(row[i]) then Assign(Filter(row[..i], keep), row[i].name, Get(row, row[i].name))
      else Filter(row[..i], keep)
  {
    assert row[..i + 1][..i] == row[..i];
    if keep(row[i]) {
      var col, done := row[i].name, Filter(row[..i], keep);
      FilterSpec(row[..i], keep);
      GetAt(row, i);
      assert !Has(done, col) by {
        HasCell(done, col);
        forall c | c in done ensures c.name != col {
          assert c in row[..i];
          var j :| 0 <= j < i && row[j] == c;
          assert Names(row)[j] != Names(row)[i];
        }
      }
    }
  }

  /** `get_features`: clean the row, then fill both dicts by assignment, the standard
      dict in standard-column order and the feature dict in row order. */
  method GetFeatures(row: Row) returns (standard: Dict, features: Dict)
    requires Distinct(row)
    ensures (standard, features) == Classify(row)
  {
    var data := Clean(row);
    FilterLookup(row, Kept);

    standard := [];
    StandardColumnsDistinct();
    for i := 0 to |StandardColumns|
      invariant standard == Pick(StandardColumns[..i], data)
    {
      PickStep(StandardColumns, i, data);
      var col := StandardColumns[i];
      if Has(data, col) {
        standard := Assign(standard, col, Get(data, col));
      }
    }
    assert StandardColumns[..|StandardColumns|] == StandardColumns;

    features := [];
    for i := 0 to |data|
      invariant features == FeaturesOf(data[..i])
    {
      FilterStep(data, i, Candidate);
      var col := data[i].name;
      if col !in FeatureExceptions {
        features := Assign(features, col, Get(data, col));
      }
    }
    assert data[..|data|] == data;
  }

  // Properties of the classification

  /** Cleaning keeps exactly the informative cells, each as often as the row has it,
      in row order. */
  lemma CleanKeeps(row: Row)
    ensures forall c :: c in Clean(row) <==> c in row && Informative(c.value)
    ensures forall c :: multiset(Clean(row))[c] == if Informative(c.value) then multiset(row)[c] else 0
    ensures Subseq(Clean(row), row)
  {
    FilterSpec(row, Kept);
    FilterCount(row, Kept);
  }

  /** Cleaning keeps exactly the informative columns, with their values. */
  lemma CleanLookup(row: Row)
    requires Distinct(row)
    ensures Distinct(Clean(row))
    ensures forall k :: Has(Clean(row), k) <==> Has(row, k) && Informative(Get(row, k))
    ensures forall k :: Has(Clean(row), k) ==> Get(Clean(row), k) == Get(row, k)
  {
    FilterLookup(row, Kept);
  }

  /** The standard dict holds a key exactly when it is a standard column that survived
      cleaning, with the row's value, keyed in standard-column order. */
  lemma StandardDict(row: Row)
    requires Distinct(row)
    ensures var std := Classify(row).0;
      && (forall k :: Has(std, k) <==> k in StandardColumns && Has(row, k) && Informative(Get(row, k)))
      && (forall k :: Has(std, k) ==> Get(std, k) == Get(row, k))
      && Subseq(Names(std), StandardColumns)
      && Distinct(std)
  {
    CleanLookup(row);
    PickSpec(StandardColumns, Clean(row));
    StandardColumnsDistinct();
    SubseqNoDup(Names(StandardOf(Clean(row))), StandardColumns);
  }

  /** Two rows with distinct names and the same cells have the same lookups. */
  lemma SameLookup(a: Row, b: Row)
    requires Distinct(a) && Distinct(b)
    requires forall c :: c in a <==> c in b
    ensures forall k :: Has(a, k) <==> Has(b, k)
    ensures forall k :: Has(a, k) ==> Get(a, k) == Get(b, k)
  {
    forall k ensures Has(a, k) <==> Has(b, k) {
      HasCell(a, k);
      HasCell(b, k);
    }
    forall k | Has(a, k) ensures Get(a, k) == Get(b, k) {
      var i :| 0 <= i < |a| && Names(a)[i] == k;
      GetAt(a, i);
      assert a[i] in b;
      var j :| 0 <= j < |b| && b[j] == a[i];
      GetAt(b, j);
    }
  }

  /** `Pick` reads a row only through its lookups. */
  lemma {:induction false} PickLookupOnly(cols: seq<string>, a: Row, b: Row)
    requires forall k :: Has(a, k) <==> Has(b, k)
    requires forall k :: Has(a, k) ==> Get(a, k) == Get(b, k)
    ensures Pick(cols, a) == Pick(cols, b)
    decreases |cols|
  {
    if cols != [] {
      PickLookupOnly(cols[..|cols| - 1], a, b);
    }
  }

  /** The standard dict does not depend on the order of the row's columns. */
  lemma StandardIgnoresColumnOrder(r1: Row, r2: Row)
    requires Distinct(r1) && Distinct(r2)
    requires forall c :: c in r1 <==> c in r2
    ensures Classify(r1).0 == Classify(r2).0
  {
    CleanLookup(r1);
    CleanLookup(r2);
    CleanKeeps(r1);
    CleanKeeps(r2);
    SameLookup(Clean(r1), Clean(r2));
    PickLookupOnly(StandardColumns, Clean(r1), Clean(r2));
  }

  /** The feature dict holds exactly the surviving cells not on the exclusion list,
      with their values, in row order. */
  lemma FeatureDict(row: Row)
    requires Distinct(row)
    ensures var feat := Classify(row).1;
      && (forall c :: c in feat <==> c in row && Informative(c.value) && c.name !in FeatureExceptions)
      && (forall k :: Has(feat, k) <==> Has(row, k) && Informative(Get(row, k)) && k !in FeatureExceptions)
      && (forall k :: Has(feat, k) ==> Get(feat, k) == Get(row, k))
      && Subseq(feat, row)
      && Distinct(feat)
  {
    var clean := Clean(row);
    CleanLookup(row);
    CleanKeeps(row);
    FilterSpec(clean, Candidate);
    FilterLookup(clean, Candidate);
    SubseqTransitive(FeaturesOf(clean), clean, row);
  }

  /** No excluded column is ever a feature. */
  lemma NoExcludedFeature(row: Row)
    ensures forall k :: k in FeatureExceptions ==> !Has(Classify(row).1, k)
  {
    var feat := Classify(row).1;
    FilterSpec(Clean(row), Candidate);
    forall k | k in FeatureExceptions ensures !Has(feat, k) {
      HasCell(feat, k);
    }
  }

  /** The only key the two dicts can share is the material group, and they share it
      whenever the row has an informative material group. */
  lemma SharedKeys(row: Row)
    requires Distinct(row)
    ensures forall k :: Has(Classify(row).0, k) && Has(Classify(row).1, k) <==>
      k == MaterialGroup && Has(row, MaterialGroup) && Informative(Get(row, MaterialGroup))
  {
    StandardDict(row);
    FeatureDict(row);
    StandardNotExcluded();
  }

  /** A surviving column is in neither dict exactly when it is excluded and not
      standard. */
  lemma DroppedColumns(row: Row)
    requires Distinct(row)
    ensures forall k :: Has(row, k) && Informative(Get(row, k)) ==>
      (!Has(Classify(row).0, k) && !Has(Classify(row).1, k) <==>
       k in FeatureExceptions && k !in StandardColumns)
  {
    StandardDict(row);
    FeatureDict(row);
  }

  /** A row with nothing informative yields two empty dicts. */
  lemma UninformativeRow(row: Row)
    requires forall c :: c in row ==> !Informative(c.value)
    ensures Classify(row) == ([], [])
  {
    CleanKeeps(row);
    PickSpec(StandardColumns, Clean(row));
    var std := StandardOf(Clean(row));
    if std != [] {
      assert Names(std)[0] == std[0].name;
      assert Has(std, std[0].name);
    }
  }

  // A rain shower set as it comes from the product sheet, and its two dictionaries.

  function ShowerSetRow(): Row {
    [Cell("brand", Str("Fortifura")), Cell("subbrand", Missing),
     Cell("category1", Str("Regendoucheset")), Cell("kleur (8)", Str("Koper")),
     Cell("thermostatisch", Str("ja")), Cell("prijs", Num(0.0)),
     Cell("garantie (1618)", Str("5 jaar")), Cell("hoofddouche_diameter", Str("25cm"))]
  }

  function ShowerSetClean(): Row {
    [Cell("brand", Str("Fortifura")), Cell("category1", Str("Regendoucheset")),
     Cell("kleur (8)", Str("Koper")), Cell("thermostatisch", Str("ja")),
     Cell("garantie (1618)", Str("5 jaar")), Cell("hoofddouche_diameter", Str("25cm"))]
  }

  /** The empty subbrand and the zero price are dropped; everything else stays. */
  lemma ShowerSetCleaned()
    ensures Clean(ShowerSetRow()) == ShowerSetClean()
  {
    var row, clean := ShowerSetRow(), ShowerSetClean();
    assert row[..1][..0] == [] && Filter(row[..1], Kept) == clean[..1];
    assert row[..2][..1] == row[..1] && Filter(row[..2], Kept) == clean[..1];
    assert row[..3][..2] == row[..2] && Filter(row[..3], Kept) == clean[..2];
    assert row[..4][..3] == row[..3] && Filter(row[..4], Kept) == clean[..3];
    assert row[..5][..4] == row[..4] && Filter(row[..5], Kept) == clean[..4];
    assert row[..6][..5] == row[..5] && Filter(row[..6], Kept) == clean[..4];
    assert row[..7][..6] == row[..6] && Filter(row[..7], Kept) == clean[..5];
    assert row[..8][..7] == row[..7] && row[..8] == row;
  }

  lemma ShowerSetLookup()
    ensures Has(ShowerSetClean(), "brand") && Get(ShowerSetClean(), "brand") == Str("Fortifura")
    ensures Has(ShowerSetClean(), "category1")
    ensures Get(ShowerSetClean(), "category1") == Str("Regendoucheset")
    ensures Has(ShowerSetClean(), "kleur (8)") && Get(ShowerSetClean(), "kleur (8)") == Str("Koper")
    ensures !Has(ShowerSetClean(), "subbrand") && !Has(ShowerSetClean(), "afmeting (1)")
    ensures !Has(ShowerSetClean(), MaterialGroup)
  {
    var clean := ShowerSetClean();
    assert Names(clean) == ["brand", "category1", "kleur (8)", "thermostatisch",
                            "garantie (1618)", "hoofddouche_diameter"];
    GetAt(clean, 0);
    GetAt(clean, 1);
    GetAt(clean, 2);
  }

  /** Brand, category and colour, in naming order; the warranty is not standard. */
  lemma ShowerSetStandard()
    ensures StandardOf(ShowerSetClean()) ==
      [Cell("brand", Str("Fortifura")), Cell("category1", Str("Regendoucheset")),
       Cell("kleur (8)", Str("Koper"))]
  {
    var clean, cols := ShowerSetClean(), StandardColumns;
    ShowerSetLookup();
    assert cols[..1][..0] == [] && Pick(cols[..1], clean) == clean[..1];
    assert cols[..2][..1] == cols[..1] && Pick(cols[..2], clean) == clean[..1];
    assert cols[..3][..2] == cols[..2] && Pick(cols[..3], clean) == clean[..2];
    assert cols[..4][..3] == cols[..3] && Pick(cols[..4], clean) == clean[..3];
    assert cols[..5][..4] == cols[..4] && Pick(cols[..5], clean) == clean[..3];
    assert cols[..6][..5] == cols[..5] && cols[..6] == cols;
  }

  lemma ShowerSetCandidates()
    ensures !Candidate(ShowerSetClean()[0]) && !Candidate(ShowerSetClean()[1])
    ensures !Candidate(ShowerSetClean()[2]) && Candidate(ShowerSetClean()[3])
    ensures !Candidate(ShowerSetClean()[4]) && Candidate(ShowerSetClean()[5])
  {
    ShowerSetExcluded();
    ThermostatNotExcluded();
    HeadDiameterNotExcluded();
  }

  lemma ShowerSetNoStandardFeature()
    ensures Filter(ShowerSetClean()[..3], Candidate) == []
  {
    var clean := ShowerSetClean();
    ShowerSetCandidates();
    assert clean[..1][..0] == [] && Filter(clean[..1], Candidate) == [];
    assert clean[..2][..1] == clean[..1] && Filter(clean[..2], Candidate) == [];
    assert clean[..3][..2] == clean[..2];
  }

  /** Only the thermostat and the head diameter are candidate features: the standard
      columns and the warranty are on the exclusion list. */
  lemma ShowerSetFeatures()
    ensures FeaturesOf(ShowerSetClean()) ==
      [Cell("thermostatisch", Str("ja")), Cell("hoofddouche_diameter", Str("25cm"))]
  {
    var clean := ShowerSetClean();
    ShowerSetCandidates();
    ShowerSetNoStandardFeature();
    assert clean[..4][..3] == clean[..3] && Filter(clean[..4], Candidate) == [clean[3]];
    assert clean[..5][..4] == clean[..4] && Filter(clean[..5], Candidate) == [clean[3]];
    assert clean[..6][..5] == clean[..5] && clean[..6] == clean;
  }

  /** The shower set end to end: the missing sub-brand and the zero price are cleaned
      away, the warranty is in neither dict, brand, category and colour are standard and
      the two product facts are features. */
  lemma ShowerSetExample()
    ensures Classify(ShowerSetRow()) ==
      ([Cell("brand", Str("Fortifura")), Cell("category1", Str("Regendoucheset")),
        Cell("kleur (8)", Str("Koper"))],
       [Cell("thermostatisch", Str("ja")), Cell("hoofddouche_diameter", Str("25cm"))])
  {
    ShowerSetCleaned();
    ShowerSetStandard();
    ShowerSetFeatures();
  }
}
