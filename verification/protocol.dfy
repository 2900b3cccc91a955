/** The mixing protocol: half a tank of water, the selected products in
    category-priority order with their quantities and pre-dilution warnings,
    and a final top-up to the full tank volume. */
module Protocol {
  import opened Results
  import opened Units
  import opened Catalog
  import opened Sorting
  import opened Dosage

  /** One numbered product step of the protocol. */
  datatype Step = Step(number: nat, product: CatalogRow, quantity: Quantity, preDilution: bool)

  /** The whole protocol: the water to put in first (litres), the product steps,
      and the volume (litres) to top the tank up to at the end. */
  datatype MixProtocol = MixProtocol(openingWater: real, steps: seq<Step>, closingVolume: int)

  /** A product must be pre-diluted in a bucket exactly when its formulation is dosed in grams. */
  predicate NeedsPreDilution(formulation: string)
  {
    InferUnit(formulation) == Grams
  }

  /** The catalog rows the steps are about, in step order. */
  function Products(steps: seq<Step>): (rows: seq<CatalogRow>)
    ensures |rows| == |steps|
    ensures forall k | 0 <= k < |steps| :: rows[k] == steps[k].product
  {
    if |steps| == 0 then [] else [steps[0].product] + Products(steps[1..])
  }

  /** Numbers the ordered rows from `first`, attaching each row's quantity from
      the dose map and its pre-dilution warning. */
  function NumberSteps(rows: seq<CatalogRow>, doses: map<string, Quantity>, first: nat): (steps: seq<Step>)
    requires forall k | 0 <= k < |rows| :: rows[k].name in doses
    ensures Products(steps) == rows
    ensures forall k | 0 <= k < |steps| :: steps[k].number == first + k
    ensures forall k | 0 <= k < |steps| :: steps[k].quantity == doses[steps[k].product.name]
    ensures forall k | 0 <= k < |steps| ::
      steps[k].preDilution <==> InferUnit(steps[k].product.formulation) == Grams
  {
    if |rows| == 0 then []
    else
      var step := Step(first, rows[0], doses[rows[0].name], NeedsPreDilution(rows[0].formulation));
      [step] + NumberSteps(rows[1..], doses, first + 1)
  }

  /** Every row the protocol lists has an entry in the dose map: the rows are
      filtered by the selected names and the map has a key for each of them. */
  lemma DoseLookupNeverMisses(catalog: seq<CatalogRow>, selection: seq<DoseInput>, volume: int)
    requires AllListed(catalog, selection)
    ensures forall r | r in Filter(catalog, Names(selection)) :: r.name in DoseMap(catalog, selection, volume).value
  {
    var names := Names(selection);
    forall r | r in Filter(catalog, names)
      ensures r.name in DoseMap(catalog, selection, volume).value
    {
      FilterMembership(catalog, names, r);
      var i :| 0 <= i < |names| && names[i] == r.name;
      assert selection[i].product == r.name;
    }
  }

  /** What a protocol for the selection must be: half the tank of water
      first; product steps that are exactly the catalog rows whose name was
      selected, ordered by category priority and numbered from 1, each with
      its dose-map quantity and a pre-dilution warning exactly when its
      formulation is dosed in grams; and a top-up to the full tank last. */
  predicate Follows(p: MixProtocol, catalog: seq<CatalogRow>, selection: seq<DoseInput>, volume: int)
  {
    && DoseMap(catalog, selection, volume).Success?
    && p.openingWater * 2.0 == volume as real
    && p.closingVolume == volume
    && |p.steps| == |Filter(catalog, Names(selection))|
    && multiset(Products(p.steps)) == multiset(Filter(catalog, Names(selection)))
    && SortedByPriority(Products(p.steps))
    && (forall k | 0 <= k < |p.steps| :: p.steps[k].number == k + 1)
    && (forall k | 0 <= k < |p.steps| ::
          p.steps[k].preDilution <==> InferUnit(p.steps[k].product.formulation) == Grams)
    && (forall k | 0 <= k < |p.steps| ::
          p.steps[k].product.name in DoseMap(catalog, selection, volume).value &&
          p.steps[k].quantity == DoseMap(catalog, selection, volume).value[p.steps[k].product.name])
  }

  /** The ordered rows of a protocol all have dose-map entries. */
  lemma OrderedRowsHaveDoses(catalog: seq<CatalogRow>, selection: seq<DoseInput>, volume: int)
    requires AllListed(catalog, selection)
    ensures var rows := SortByPriority(Filter(catalog, Names(selection)));
      forall k | 0 <= k < |rows| :: rows[k].name in DoseMap(catalog, selection, volume).value
  {
    var filtered := Filter(catalog, Names(selection));
    var rows := SortByPriority(filtered);
    DoseLookupNeverMisses(catalog, selection, volume);
    forall k | 0 <= k < |rows|
      ensures rows[k].name in DoseMap(catalog, selection, volume).value
    {
      assert rows[k] in multiset(filtered);
    }
  }

  /** Assembles the protocol once every selected product has its quantity. */
  function Assemble(catalog: seq<CatalogRow>, selection: seq<DoseInput>, volume: int): (p: MixProtocol)
    requires AllListed(catalog, selection)
    ensures Follows(p, catalog, selection, volume)
  {
    var doses := DoseMap(catalog, selection, volume).value;
    var filtered := Filter(catalog, Names(selection));
    var rows := SortByPriority(filtered);
    OrderedRowsHaveDoses(catalog, selection, volume);
    var steps := NumberSteps(rows, doses, 1);
    assert Products(steps) == rows;
    assert |steps| == |rows| == |multiset(rows)| == |multiset(filtered)| == |filtered|;
    MixProtocol(volume as real * 0.5, steps, volume)
  }

  /** Builds the protocol for the selected products and a tank of `volume`
      litres. Nothing is produced for an empty selection, nor when a selected
      product has no catalog row; otherwise the protocol follows the selection. */
  function BuildProtocol(catalog: seq<CatalogRow>, selection: seq<DoseInput>, volume: int)
    : (r: Result<MixProtocol, EngineError>)
    ensures r.Success? <==> |selection| > 0 && AllListed(catalog, selection)
    ensures |selection| == 0 ==> r == Failure(NothingSelected)
    ensures r.Failure? && |selection| > 0 ==>
      exists i | 0 <= i < |selection| ::
        r.error == NotFound(selection[i].product) && !Listed(catalog, selection[i].product)
    ensures r.Success? ==> Follows(r.value, catalog, selection, volume)
  {
    if |selection| == 0 then Failure(NothingSelected)
    else
      match DoseMap(catalog, selection, volume)
      case Failure(e) => Failure(e)
      case Success(_) => Success(Assemble(catalog, selection, volume))
  }

  /** Every step is one of the selected catalog rows. */
  lemma StepIsSelectedRow(catalog: seq<CatalogRow>, selection: seq<DoseInput>, volume: int, k: nat)
    requires |selection| > 0 && AllListed(catalog, selection)
    requires k < |Filter(catalog, Names(selection))|
    ensures var row := BuildProtocol(catalog, selection, volume).value.steps[k].product;
      row in catalog && row.name in Names(selection)
  {
    var p := BuildProtocol(catalog, selection, volume).value;
    var row := p.steps[k].product;
    assert Products(p.steps)[k] == row;
    assert row in multiset(Filter(catalog, Names(selection)));
    FilterMembership(catalog, Names(selection), row);
  }

  /** With unique catalog names and each product selected once, every step's
      quantity is computed from that step's own row and the dose entered for it. */
  lemma StepQuantityFromOwnRow(catalog: seq<CatalogRow>, selection: seq<DoseInput>, volume: int, k: nat)
    requires UniqueNames(catalog) && DistinctProducts(selection)
    requires |selection| > 0 && AllListed(catalog, selection)
    requires k < |Filter(catalog, Names(selection))|
    ensures var step := BuildProtocol(catalog, selection, volume).value.steps[k];
      exists i | 0 <= i < |selection| ::
        selection[i].product == step.product.name &&
        step.quantity == ComputeQuantity(step.product.name, step.product.formulation, selection[i].rate, volume)
  {
    var step := BuildProtocol(catalog, selection, volume).value.steps[k];
    StepIsSelectedRow(catalog, selection, volume, k);
    var names := Names(selection);
    var i :| 0 <= i < |names| && names[i] == step.product.name;
    DoseMapEntry(catalog, selection, volume, i);
    FindUnique(catalog, step.product);
  }

  /** A PROGIBB product is counted in sachets, and when its formulation code is
      a solid one it also carries the pre-dilution warning, since the warning
      looks only at the formulation. */
  lemma ProgibbStepWarnings(catalog: seq<CatalogRow>, selection: seq<DoseInput>, volume: int)
    requires |selection| > 0 && AllListed(catalog, selection)
    ensures var steps := BuildProtocol(catalog, selection, volume).value.steps;
      forall k | 0 <= k < |steps| && IsProgibb(steps[k].product.name) ::
        steps[k].quantity.unit == Sachets
    ensures var steps := BuildProtocol(catalog, selection, volume).value.steps;
      forall k | 0 <= k < |steps| && IsProgibb(steps[k].product.name) &&
                 InferUnit(steps[k].product.formulation) == Grams ::
        steps[k].quantity.unit == Sachets && steps[k].preDilution
  {
    var steps := BuildProtocol(catalog, selection, volume).value.steps;
    forall k | 0 <= k < |steps| && IsProgibb(steps[k].product.name)
      ensures steps[k].quantity.unit == Sachets
    {
      StepIsSelectedRow(catalog, selection, volume, k);
      ProgibbEntriesInSachets(catalog, selection, volume, steps[k].product.name);
    }
  }

  /** However rows of equal priority are ordered, any priority-sorted
      arrangement of the selected rows has the protocol's priorities, step by step. */
  lemma PrioritiesDoNotDependOnTies(catalog: seq<CatalogRow>, selection: seq<DoseInput>, volume: int,
                                    other: seq<CatalogRow>)
    requires |selection| > 0 && AllListed(catalog, selection)
    requires SortedByPriority(other)
    requires multiset(other) == multiset(Filter(catalog, Names(selection)))
    ensures var rows := Products(BuildProtocol(catalog, selection, volume).value.steps);
      |rows| == |other| && forall k | 0 <= k < |rows| :: rows[k].priority == other[k].priority
  {
    var rows := Products(BuildProtocol(catalog, selection, volume).value.steps);
    SortedPermutationsAgreeOnPriorities(rows, other);
  }

  /** A product missing from the catalog yields no protocol at all. */
  lemma MissingProductExample(catalog: seq<CatalogRow>, name: string, rate: real, volume: int)
    requires !Listed(catalog, name)
    ensures BuildProtocol(catalog, [DoseInput(name, rate)], volume) == Failure(NotFound(name))
  {
  }

  /** Two rows of different priorities have only one priority-sorted arrangement. */
  lemma TwoRowsOrdered(rows: seq<CatalogRow>, x: CatalogRow, y: CatalogRow)
    requires SortedByPriority(rows) && multiset(rows) == multiset{x, y}
    requires x.priority < y.priority
    ensures rows == [x, y]
  {
    assert |rows| == |multiset(rows)| == 2;
    assert rows[0] in multiset(rows) && rows[1] in multiset(rows);
    assert multiset(rows) == multiset{rows[0], rows[1]} by {
      assert rows == [rows[0], rows[1]];
    }
  }

  lemma PairMultiset(x: CatalogRow, y: CatalogRow)
    ensures multiset([x, y]) == multiset{y, x}
  {
  }

  /** Selecting both rows of a two-row catalog keeps it whole, and each name
      finds its own row. */
  lemma PairSelection(x: CatalogRow, y: CatalogRow, xRate: real, yRate: real)
    requires x.name != y.name
    ensures var selection := [DoseInput(x.name, xRate), DoseInput(y.name, yRate)];
      && AllListed([x, y], selection)
      && Names(selection) == [x.name, y.name]
      && Filter([x, y], Names(selection)) == [x, y]
      && Find([x, y], y.name) == Some(y)
  {
    var catalog := [x, y];
    var selection := [DoseInput(x.name, xRate), DoseInput(y.name, yRate)];
    assert AllListed(catalog, selection) by {
      assert catalog[0].name == x.name && catalog[1].name == y.name;
    }
    var names := Names(selection);
    assert names == [x.name, y.name] by {
      assert |names| == 2 && names[0] == x.name && names[1] == y.name;
    }
    assert Filter(catalog, names) == catalog by {
      assert x.name in names && y.name in names;
      assert catalog[1..] == [y] && [y][1..] == [];
      assert Filter([], names) == [];
      assert Filter([y], names) == [y];
    }
    assert Find(catalog, y.name) == Some(y) by {
      assert catalog[1..] == [y];
    }
  }

  /** A wettable-powder fungicide of priority 1 and an adjuvant of priority 2,
      whatever the adjuvant's formulation, selected adjuvant first for a 2000 L
      tank: 1000 L of water, then the fungicide at 1000 g with a pre-dilution
      warning, then the adjuvant, then a top-up to 2000 L. */
  lemma FungicideBeforeAdjuvantExample(fungicide: string, adjuvant: string, adjuvantFormulation: string)
    requires fungicide != adjuvant && !IsProgibb(fungicide)
    ensures var catalog := [CatalogRow(adjuvant, adjuvantFormulation, "Adjuvante", 2),
                            CatalogRow(fungicide, "WP", "Fungicida", 1)];
      var r := BuildProtocol(catalog, [DoseInput(adjuvant, 10.0), DoseInput(fungicide, 50.0)], 2000);
      && r.Success?
      && r.value.openingWater == 1000.0
      && r.value.closingVolume == 2000
      && |r.value.steps| == 2
      && r.value.steps[0] == Step(1, catalog[1], Quantity(1000.0, Grams), true)
      && r.value.steps[1].number == 2
      && r.value.steps[1].product == catalog[0]
  {
    var adj := CatalogRow(adjuvant, adjuvantFormulation, "Adjuvante", 2);
    var fun := CatalogRow(fungicide, "WP", "Fungicida", 1);
    var catalog := [adj, fun];
    var selection := [DoseInput(adjuvant, 10.0), DoseInput(fungicide, 50.0)];
    var names := Names(selection);
    PairSelection(adj, fun, 10.0, 50.0);
    DoseMapEntry(catalog, selection, 2000, 1);
    WettablePowderExample(fungicide);
    SolidExamples();
    var r := BuildProtocol(catalog, selection, 2000);
    assert r.Success?;
    var p := r.value;
    assert Follows(p, catalog, selection, 2000);
    assert multiset(Products(p.steps)) == multiset(Filter(catalog, names));
    PairMultiset(adj, fun);
    TwoRowsOrdered(Products(p.steps), fun, adj);
    assert p.steps[0].product == fun && p.steps[1].product == adj;
  }
}
