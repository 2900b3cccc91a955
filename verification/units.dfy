/** Unit inference from a free-text formulation code (`obter_unidade`). */
module Units {
  import opened Text

  /** The three units a quantity is reported in. */
  datatype Unit = Grams | Sachets | Milliliters

  /** The label the protocol prints after a quantity. */
  function Label(u: Unit): string
  {
    match u
    case Grams => "g"
    case Sachets => "sachês"
    case Milliliters => "ml"
  }

  /** Markers of a solid formulation, checked in this order on the upper-cased code. */
  const SolidMarkers: seq<string> := ["WG", "WP", "SG", "GR", "PO", "SÓLIDO"]

  /** Marker of a product sold in sachets. */
  const SachetMarker: string := "SACHÊ"

  /** Computable "any marker occurs in `s`" (Python's `any(x in f for x in ...)`). */
  predicate ContainsAny(s: string, markers: seq<string>)
  {
    |markers| > 0 && (Contains(s, markers[0]) || ContainsAny(s, markers[1..]))
  }

  /** Declarative reading: some marker is a slice of `s`. */
  ghost predicate MentionsAny(s: string, markers: seq<string>)
  {
    exists k | 0 <= k < |markers| :: HasSlice(s, markers[k])
  }

  lemma {:induction false} ContainsAnyIsSubstring(s: string, markers: seq<string>)
    ensures ContainsAny(s, markers) <==> MentionsAny(s, markers)
  {
    if |markers| > 0 {
      ContainsIsSubstring(s, markers[0]);
      ContainsAnyIsSubstring(s, markers[1..]);
      assert forall k | 1 <= k < |markers| :: markers[k] == markers[1..][k - 1];
    }
  }

  /** The unit of a formulation code: the first rule that applies to the
      upper-cased code, in the order solid markers, sachet marker, default. */
  function InferUnit(formulation: string): Unit
  {
    var f := Upper(formulation);
    if ContainsAny(f, SolidMarkers) then Grams
    else if Contains(f, SachetMarker) then Sachets
    else Milliliters
  }

  /** Whatever the code, it gets exactly one unit: grams when the upper-cased
      code mentions a solid marker (even if it also mentions the sachet marker),
      sachets when it mentions the sachet marker and no solid marker, and
      millilitres when it mentions neither. */
  lemma InferUnitSpec(formulation: string)
    ensures InferUnit(formulation) == Grams <==> MentionsAny(Upper(formulation), SolidMarkers)
    ensures InferUnit(formulation) == Sachets <==>
      !MentionsAny(Upper(formulation), SolidMarkers) && HasSlice(Upper(formulation), SachetMarker)
    ensures InferUnit(formulation) == Milliliters <==>
      !MentionsAny(Upper(formulation), SolidMarkers) && !HasSlice(Upper(formulation), SachetMarker)
  {
    ContainsAnyIsSubstring(Upper(formulation), SolidMarkers);
    ContainsIsSubstring(Upper(formulation), SachetMarker);
  }

  /** The label of an inferred unit is one of the three labels the source returns. */
  lemma InferredLabel(formulation: string)
    ensures Label(InferUnit(formulation)) in {"g", "sachês", "ml"}
  {
  }

  /** Matching ignores case: a code and its upper-cased form get the same unit. */
  lemma InferUnitIgnoresCase(formulation: string)
    ensures InferUnit(Upper(formulation)) == InferUnit(formulation)
  {
    UpperIdempotent(formulation);
  }

  /** A solid marker anywhere in the code, written in any case, gives grams,
      whatever else the code contains. */
  lemma SolidMarkerGivesGrams(prefix: string, marker: string, suffix: string, k: nat)
    requires k < |SolidMarkers| && Upper(marker) == SolidMarkers[k]
    ensures InferUnit(prefix + marker + suffix) == Grams
  {
    UpperContains(prefix, marker, suffix, SolidMarkers[k]);
    ContainsAnyIsSubstring(Upper(prefix + marker + suffix), SolidMarkers);
    ContainsIsSubstring(Upper(prefix + marker + suffix), SolidMarkers[k]);
  }

  /** The sachet marker, written in any case, gives sachets exactly when no
      solid marker is present. */
  lemma SachetMarkerGivesSachets(prefix: string, marker: string, suffix: string)
    requires Upper(marker) == SachetMarker
    requires !MentionsAny(Upper(prefix + marker + suffix), SolidMarkers)
    ensures InferUnit(prefix + marker + suffix) == Sachets
  {
    UpperContains(prefix, marker, suffix, SachetMarker);
    ContainsAnyIsSubstring(Upper(prefix + marker + suffix), SolidMarkers);
  }

  /** Examples of formulation codes seen in the catalog: `WP`, lower-case `wg`,
      and a sachet code that is also a water-dispersible granule. */
  lemma SolidExamples()
    ensures InferUnit("WP") == Grams
    ensures InferUnit("wg") == Grams
    ensures InferUnit("Sachê WG") == Grams
  {
    assert Upper("WP") == SolidMarkers[1];
    SolidMarkerGivesGrams("", "WP", "", 1);
    assert "" + "WP" + "" == "WP";
    assert Upper("wg") == SolidMarkers[0];
    SolidMarkerGivesGrams("", "wg", "", 0);
    assert "" + "wg" + "" == "wg";
    SolidMarkerGivesGrams("Sachê ", "WG", "", 0);
    assert "Sachê " + "WG" + "" == "Sachê WG";
  }

  /** Suspension and emulsifiable concentrates are dosed in millilitres. */
  lemma LiquidExamples()
    ensures InferUnit("SC") == Milliliters
    ensures InferUnit("EC") == Milliliters
  {
    assert Upper("SC") == "SC";
    assert Upper("EC") == "EC";
    forall k | 0 <= k < |SolidMarkers|
      ensures !Contains("SC", SolidMarkers[k]) && !Contains("EC", SolidMarkers[k])
    {
      ContainsShort("SC", SolidMarkers[k]);
      ContainsShort("EC", SolidMarkers[k]);
    }
    ContainsAnyIsSubstring("SC", SolidMarkers);
    ContainsAnyIsSubstring("EC", SolidMarkers);
    ContainsShort("SC", SachetMarker);
    ContainsShort("EC", SachetMarker);
    assert !ContainsAny("SC", SolidMarkers) by {
      forall k | 0 <= k < |SolidMarkers| ensures !HasSlice("SC", SolidMarkers[k]) {
        ContainsIsSubstring("SC", SolidMarkers[k]);
      }
    }
    assert !ContainsAny("EC", SolidMarkers) by {
      forall k | 0 <= k < |SolidMarkers| ensures !HasSlice("EC", SolidMarkers[k]) {
        ContainsIsSubstring("EC", SolidMarkers[k]);
      }
    }
  }
}
