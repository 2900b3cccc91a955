/** Scaling of each selected product's reference dose to the tank volume, and
    the dose map keyed by product name that the protocol reads. */
module Dosage {
  import opened Results
  import opened Text
  import opened Units
  import opened Catalog

  /** A computed amount and the unit it is reported in. */
  datatype Quantity = Quantity(value: real, unit: Unit)

  /** One selected product and the dose entered for it: per 1000 L for the
      PROGIBB family, per 100 L for every other product. */
  datatype DoseInput = DoseInput(product: string, rate: real)

  /** Why no protocol can be produced. */
  datatype EngineError =
    | NotFound(name: string)   // a selected product has no catalog row
    | NothingSelected          // the selection is empty, so nothing is computed

  /** Marker, in the upper-cased product name, of the gibberellin family sold in sachets. */
  const ProgibbMarker: string := "PROGIBB"

  /** Reference volumes (litres) the two kinds of dose are expressed per. */
  const SachetReference: real := 1000.0
  const StandardReference: real := 100.0

  /** The product belongs to the PROGIBB family, in any letter case. */
  predicate IsProgibb(product: string)
  {
    Contains(Upper(product), ProgibbMarker)
  }

  /** The volume a product's dose is expressed per. */
  function ReferenceVolume(product: string): (v: real)
    ensures v > 0.0
  {
    if IsProgibb(product) then SachetReference else StandardReference
  }

  /** The amount of a product for a tank of `volume` litres. The quantity is to
      the tank what the rate is to the reference volume; PROGIBB products are
      counted in sachets whatever their formulation, every other product is in
      the unit its formulation implies. */
  function ComputeQuantity(product: string, formulation: string, rate: real, volume: int): (q: Quantity)
    ensures q.value * ReferenceVolume(product) == rate * volume as real
    ensures IsProgibb(product) ==> q.unit == Sachets
    ensures !IsProgibb(product) ==> q.unit == InferUnit(formulation)
  {
    if IsProgibb(product) then Quantity((rate / SachetReference) * volume as real, Sachets)
    else Quantity((rate / StandardReference) * volume as real, InferUnit(formulation))
  }

  /** For a PROGIBB product the formulation plays no part in the quantity. */
  lemma ProgibbIgnoresFormulation(product: string, f1: string, f2: string, rate: real, volume: int)
    requires IsProgibb(product)
    ensures ComputeQuantity(product, f1, rate, volume) == ComputeQuantity(product, f2, rate, volume)
    ensures ComputeQuantity(product, f1, rate, volume).unit == Sachets
  {
  }

  /** The PROGIBB test ignores case. */
  lemma ProgibbIgnoresCase(product: string)
    ensures IsProgibb(Upper(product)) == IsProgibb(product)
  {
    UpperIdempotent(product);
  }

  /** The quantity is linear in the dose: scaling and adding doses scales and
      adds the quantities, in the same unit. */
  lemma QuantityLinearInRate(product: string, formulation: string, d1: real, d2: real, c: real, volume: int)
    ensures ComputeQuantity(product, formulation, c * d1, volume).value
         == c * ComputeQuantity(product, formulation, d1, volume).value
    ensures ComputeQuantity(product, formulation, d1 + d2, volume).value
         == ComputeQuantity(product, formulation, d1, volume).value
          + ComputeQuantity(product, formulation, d2, volume).value
    ensures ComputeQuantity(product, formulation, d1 + d2, volume).unit
         == ComputeQuantity(product, formulation, d1, volume).unit
  {
  }

  /** The quantity is linear in the tank volume; doubling the tank doubles it. */
  lemma QuantityLinearInVolume(product: string, formulation: string, rate: real, v1: int, v2: int)
    ensures ComputeQuantity(product, formulation, rate, v1 + v2).value
         == ComputeQuantity(product, formulation, rate, v1).value
          + ComputeQuantity(product, formulation, rate, v2).value
    ensures ComputeQuantity(product, formulation, rate, 2 * v1).value
         == 2.0 * ComputeQuantity(product, formulation, rate, v1).value
  {
  }

  /** With the input bounds the form enforces (dose at least 0, tank at least
      100 L) the quantity is never negative, and grows with the dose. */
  lemma QuantityNonNegative(product: string, formulation: string, rate: real, volume: int)
    requires rate >= 0.0 && volume >= 100
    ensures ComputeQuantity(product, formulation, rate, volume).value >= 0.0
    ensures forall r2: real | r2 >= rate ::
      ComputeQuantity(product, formulation, r2, volume).value >= ComputeQuantity(product, formulation, rate, volume).value
  {
  }

  /** 2 sachets per 1000 L in a 3000 L tank is 6 sachets, whatever the formulation. */
  lemma ProgibbExample(formulation: string)
    ensures ComputeQuantity("Progibb GA4", formulation, 2.0, 3000) == Quantity(6.0, Sachets)
  {
    UpperContains("", "Progibb", " GA4", ProgibbMarker);
    assert "" + "Progibb" + " GA4" == "Progibb GA4";
  }

  /** 50 g per 100 L of a wettable powder in a 2000 L tank is 1000 g, for any
      product outside the PROGIBB family. */
  lemma WettablePowderExample(product: string)
    requires !IsProgibb(product)
    ensures ComputeQuantity(product, "WP", 50.0, 2000) == Quantity(1000.0, Grams)
  {
    SolidExamples();
  }

  /** The product names of a selection, in selection order. */
  function Names(selection: seq<DoseInput>): (names: seq<string>)
    ensures |names| == |selection|
    ensures forall i | 0 <= i < |selection| :: names[i] == selection[i].product
  {
    if |selection| == 0 then [] else [selection[0].product] + Names(selection[1..])
  }

  /** No product is selected twice (the selection widget offers each name once). */
  predicate DistinctProducts(selection: seq<DoseInput>)
  {
    forall i, j | 0 <= i < j < |selection| :: selection[i].product != selection[j].product
  }

  /** Every selected product has a catalog row. */
  predicate AllListed(catalog: seq<CatalogRow>, selection: seq<DoseInput>)
  {
    forall i | 0 <= i < |selection| :: Listed(catalog, selection[i].product)
  }

  /** The dose map: for each selected product, in selection order, the quantity
      computed from the formulation of its first catalog row; a later entry for
      the same name replaces an earlier one. Fails on the first selected name
      that has no catalog row. */
  function DoseMap(catalog: seq<CatalogRow>, selection: seq<DoseInput>, volume: int)
    : (r: Result<map<string, Quantity>, EngineError>)
    ensures r.Success? <==> AllListed(catalog, selection)
    ensures r.Success? ==> r.value.Keys == set i | 0 <= i < |selection| :: selection[i].product
    ensures r.Failure? ==>
      exists i | 0 <= i < |selection| ::
        r.error == NotFound(selection[i].product) && !Listed(catalog, selection[i].product) &&
        AllListed(catalog, selection[..i])
    decreases |selection|
  {
    if |selection| == 0 then Success(map[])
    else
      var n := |selection| - 1;
      var prefix := selection[..n];
      assert forall i | 0 <= i < n :: prefix[i] == selection[i];
      var doses :- DoseMap(catalog, prefix, volume);
      var input := selection[n];
      match Find(catalog, input.product)
      case None =>
        assert selection[..n] == prefix;
        Failure(NotFound(input.product))
      case Some(row) =>
        var q := ComputeQuantity(input.product, row.formulation, input.rate, volume);
        assert (set i | 0 <= i < |selection| :: selection[i].product)
            == (set i | 0 <= i < n :: prefix[i].product) + {input.product};
        Success(doses[input.product := q])
  }

  /** The entry for a product is computed from its last dose in the selection
      and the formulation of its first catalog row. */
  lemma {:induction false} DoseMapEntry(catalog: seq<CatalogRow>, selection: seq<DoseInput>, volume: int, i: nat)
    requires AllListed(catalog, selection)
    requires i < |selection|
    requires forall j | i < j < |selection| :: selection[j].product != selection[i].product
    ensures Find(catalog, selection[i].product).Some?
    ensures DoseMap(catalog, selection, volume).value[selection[i].product]
         == ComputeQuantity(selection[i].product, Find(catalog, selection[i].product).value.formulation,
                            selection[i].rate, volume)
    decreases |selection|
  {
    assert DoseMap(catalog, selection, volume).Success?;
    var n := |selection| - 1;
    var prefix := selection[..n];
    assert forall k | 0 <= k < n :: prefix[k] == selection[k];
    var input := selection[n];
    assert AllListed(catalog, prefix);
    var doses := DoseMap(catalog, prefix, volume).value;
    var row := Find(catalog, input.product).value;
    var q := ComputeQuantity(input.product, row.formulation, input.rate, volume);
    assert DoseMap(catalog, selection, volume).value == doses[input.product := q];
    if i < n {
      DoseMapEntry(catalog, prefix, volume, i);
    }
  }

  /** Every selected name has a last entry in the selection. */
  lemma {:induction false} LastEntry(selection: seq<DoseInput>, i: nat)
    requires i < |selection|
    ensures exists j | i <= j < |selection| ::
      selection[j].product == selection[i].product &&
      forall l | j < l < |selection| :: selection[l].product != selection[i].product
    decreases |selection| - i
  {
    if l :| i < l < |selection| && selection[l].product == selection[i].product {
      LastEntry(selection, l);
    } else {
      assert selection[i].product == selection[i].product;
    }
  }

  /** Every PROGIBB entry of the dose map is counted in sachets. */
  lemma ProgibbEntriesInSachets(catalog: seq<CatalogRow>, selection: seq<DoseInput>, volume: int, name: string)
    requires AllListed(catalog, selection)
    requires name in Names(selection) && IsProgibb(name)
    ensures name in DoseMap(catalog, selection, volume).value
    ensures DoseMap(catalog, selection, volume).value[name].unit == Sachets
  {
    var i :| 0 <= i < |selection| && Names(selection)[i] == name;
    LastEntry(selection, i);
    var j :| i <= j < |selection| && selection[j].product == name &&
      forall l | j < l < |selection| :: selection[l].product != name;
    DoseMapEntry(catalog, selection, volume, j);
  }
}
