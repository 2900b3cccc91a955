/** The joined product catalog: one row per product, with the columns of the
    product table and of the category table it references. */
module Catalog {
  import opened Results

  /** A catalog row: commercial name, formulation code, category name and the
      category's priority (lower is added to the tank earlier). */
  datatype CatalogRow = CatalogRow(name: string, formulation: string, category: string, priority: int)

  /** `name` is the name of some row of the catalog. */
  predicate Listed(catalog: seq<CatalogRow>, name: string)
  {
    exists i | 0 <= i < |catalog| :: catalog[i].name == name
  }

  /** Product names are keys: no two rows share one. */
  predicate UniqueNames(catalog: seq<CatalogRow>)
  {
    forall i, j | 0 <= i < j < |catalog| :: catalog[i].name != catalog[j].name
  }

  /** The first row whose name is `name` (the `.iloc[0]` of a name filter),
      or nothing when no row has that name. */
  function Find(catalog: seq<CatalogRow>, name: string): (r: Option<CatalogRow>)
    ensures r.None? <==> !Listed(catalog, name)
    ensures r.Some? ==>
      exists i | 0 <= i < |catalog| ::
        catalog[i] == r.value && r.value.name == name &&
        forall j | 0 <= j < i :: catalog[j].name != name
  {
    if |catalog| == 0 then None
    else if catalog[0].name == name then Some(catalog[0])
    else
      var r := Find(catalog[1..], name);
      assert Listed(catalog, name) ==> Listed(catalog[1..], name) by {
        if Listed(catalog, name) {
          var i :| 0 <= i < |catalog| && catalog[i].name == name;
          assert catalog[1..][i - 1].name == name;
        }
      }
      if r.Some? then
        var i :| 0 <= i < |catalog[1..]| && catalog[1..][i] == r.value && r.value.name == name &&
          forall j | 0 <= j < i :: catalog[1..][j].name != name;
        assert catalog[i + 1] == r.value;
        r
      else r
  }

  /** When names are unique, the row found for a row's name is that row. */
  lemma FindUnique(catalog: seq<CatalogRow>, row: CatalogRow)
    requires UniqueNames(catalog)
    requires row in catalog
    ensures Find(catalog, row.name) == Some(row)
  {
    var k :| 0 <= k < |catalog| && catalog[k] == row;
    var found := Find(catalog, row.name);
    var i :| 0 <= i < |catalog| && catalog[i] == found.value && found.value.name == row.name &&
      forall j | 0 <= j < i :: catalog[j].name != row.name;
    assert i == k;
  }

  /** The rows, in catalog order, whose name is among the selected names
      (`isin`). Each row keeps its multiplicity when selected and vanishes
      otherwise. */
  function Filter(catalog: seq<CatalogRow>, names: seq<string>): (rows: seq<CatalogRow>)
    ensures forall r :: multiset(rows)[r] == if r.name in names then multiset(catalog)[r] else 0
  {
    if |catalog| == 0 then []
    else
      var rest := Filter(catalog[1..], names);
      assert catalog == [catalog[0]] + catalog[1..];
      if catalog[0].name in names then [catalog[0]] + rest else rest
  }

  /** A row is kept exactly when it is in the catalog and its name was selected. */
  lemma FilterMembership(catalog: seq<CatalogRow>, names: seq<string>, r: CatalogRow)
    ensures r in Filter(catalog, names) <==> r in catalog && r.name in names
  {
    var rows := Filter(catalog, names);
    assert r in rows <==> multiset(rows)[r] > 0;
    assert r in catalog <==> multiset(catalog)[r] > 0;
  }
}
