/** The targeting catalog: three lists of LinkedIn targeting elements, each
    tagged with the category of the list it came from and concatenated, and an
    index from urn to catalog entry built by a left fold. The element lists are
    data files that are parameters here. */
module TargetingCatalog {
  import opened Wrappers
  import opened Schema

  datatype TargetingType = Revenue | Industry | JobTitle

  /** The string value of each member of the `TargetingType` enum. */
  function CategoryName(t: TargetingType): string {
    match t
    case Revenue => "revenue"
    case Industry => "industry"
    case JobTitle => "jobTitle"
  }

  function ParseCategory(s: string): (r: Option<TargetingType>)
    ensures r.Some? ==> CategoryName(r.value) == s
    ensures r.None? ==> s != "revenue" && s != "industry" && s != "jobTitle"
  {
    if s == "revenue" then Some(Revenue)
    else if s == "industry" then Some(Industry)
    else if s == "jobTitle" then Some(JobTitle)
    else None
  }

  /** The category names are distinct, so a name identifies its category. */
  lemma CategoryRoundTrip(t: TargetingType)
    ensures ParseCategory(CategoryName(t)) == Some(t)
  {
  }

  /** An element of a data file: `entityRes.data.elements[i]`. */
  datatype Element = Element(name: string, urn: string)

  /** `elements.map(e => ({ ...e, category }))`. */
  function Tag(es: seq<Element>, t: TargetingType): (r: seq<Targeting>)
    ensures |r| == |es|
    ensures forall i :: 0 <= i < |es| ==> r[i] == Targeting(es[i].name, es[i].urn, CategoryName(t))
  {
    seq(|es|, i requires 0 <= i < |es| => Targeting(es[i].name, es[i].urn, CategoryName(t)))
  }

  /** The element a catalog entry was made from. */
  function Untag(gs: seq<Targeting>): (r: seq<Element>)
    ensures |r| == |gs|
  {
    seq(|gs|, i requires 0 <= i < |gs| => Element(gs[i].name, gs[i].urn))
  }

  /** `allTargetingGroups`: industries, then revenue ranges, then job titles. */
  function AllTargetingGroups(verticals: seq<Element>, revenue: seq<Element>, jobTitles: seq<Element>): (r: seq<Targeting>)
    ensures |r| == |verticals| + |revenue| + |jobTitles|
  {
    Tag(verticals, Industry) + Tag(revenue, Revenue) + Tag(jobTitles, JobTitle)
  }

  /** Each source list is the matching slice of the catalog with its category
      removed, so entries keep their name and urn and their source order. */
  lemma CatalogLayout(verticals: seq<Element>, revenue: seq<Element>, jobTitles: seq<Element>)
    ensures var r := AllTargetingGroups(verticals, revenue, jobTitles);
      var a, b := |verticals|, |verticals| + |revenue|;
      && Untag(r[..a]) == verticals
      && Untag(r[a..b]) == revenue
      && Untag(r[b..]) == jobTitles
  {
    var r := AllTargetingGroups(verticals, revenue, jobTitles);
    var a, b := |verticals|, |verticals| + |revenue|;
    assert r[..a] == Tag(verticals, Industry);
    assert r[a..b] == Tag(revenue, Revenue);
    assert r[b..] == Tag(jobTitles, JobTitle);
  }

  /** An entry's category tells which list it came from. */
  lemma CategoryByOrigin(verticals: seq<Element>, revenue: seq<Element>, jobTitles: seq<Element>, i: nat)
    requires i < |verticals| + |revenue| + |jobTitles|
    ensures var g := AllTargetingGroups(verticals, revenue, jobTitles)[i];
      && (g.category == "industry" <==> i < |verticals|)
      && (g.category == "revenue" <==> |verticals| <= i < |verticals| + |revenue|)
      && (g.category == "jobTitle" <==> |verticals| + |revenue| <= i)
      && ParseCategory(g.category).Some?
  {
    var r := AllTargetingGroups(verticals, revenue, jobTitles);
    var a, b := |verticals|, |verticals| + |revenue|;
    if i < a {
      assert r[i] == Tag(verticals, Industry)[i];
    } else if i < b {
      assert r[i] == Tag(revenue, Revenue)[i - a];
    } else {
      assert r[i] == Tag(jobTitles, JobTitle)[i - b];
    }
  }

  // ---------------------------------------------------------------------------
  // The urn index

  function Urns(gs: seq<Targeting>): set<string> {
    set i | 0 <= i < |gs| :: gs[i].urn
  }

  /** No later entry of `gs` has the urn of entry `i`. */
  predicate LastWithUrn(gs: seq<Targeting>, i: int) {
    0 <= i < |gs| && forall j :: i < j < |gs| ==> gs[j].urn != gs[i].urn
  }

  /** `gs.reduce((acc, group) => { acc[group.urn] = group; return acc }, acc)`. */
  function IndexByUrn(acc: map<string, Targeting>, gs: seq<Targeting>): (r: map<string, Targeting>)
    ensures r.Keys == acc.Keys + Urns(gs)
    ensures forall k :: k in acc && k !in Urns(gs) ==> r[k] == acc[k]
    ensures forall i :: LastWithUrn(gs, i) ==> r[gs[i].urn] == gs[i]
    decreases |gs|
  {
    if gs == [] then acc
    else
      var rest := gs[1..];
      var r := IndexByUrn(acc[gs[0].urn := gs[0]], rest);
      assert Urns(gs) == {gs[0].urn} + Urns(rest) by {
        forall k | k in Urns(gs) ensures k in {gs[0].urn} + Urns(rest) {
          var i :| 0 <= i < |gs| && gs[i].urn == k;
          if i > 0 { assert rest[i - 1].urn == k; }
        }
      }
      assert forall i :: 1 <= i < |gs| && LastWithUrn(gs, i) ==> LastWithUrn(rest, i - 1);
      assert LastWithUrn(gs, 0) ==> gs[0].urn !in Urns(rest);
      r
  }

  /** `targetingGroupsByUrn`. */
  function TargetingGroupsByUrn(catalog: seq<Targeting>): (r: map<string, Targeting>)
    ensures r.Keys == Urns(catalog)
  {
    IndexByUrn(map[], catalog)
  }

  /** Every key of the index names an entry with that urn, and that entry is
      the last one with the urn in catalog order. */
  lemma IndexLookup(catalog: seq<Targeting>, k: string)
    requires k in TargetingGroupsByUrn(catalog)
    ensures TargetingGroupsByUrn(catalog)[k].urn == k
    ensures exists i :: LastWithUrn(catalog, i) && catalog[i].urn == k && TargetingGroupsByUrn(catalog)[k] == catalog[i]
  {
    var i := LastIndexOf(catalog, k);
  }

  /** The position of the last entry with urn `k`. */
  function LastIndexOf(gs: seq<Targeting>, k: string): (i: nat)
    requires k in Urns(gs)
    ensures LastWithUrn(gs, i) && gs[i].urn == k
  {
    if gs[|gs| - 1].urn == k then |gs| - 1
    else
      var init := gs[..|gs| - 1];
      assert k in Urns(init) by {
        var j :| 0 <= j < |gs| && gs[j].urn == k;
        assert init[j].urn == k;
      }
      LastIndexOf(init, k)
  }

  /** With distinct urns, every catalog entry can be found by its urn. */
  lemma IndexUniqueUrns(catalog: seq<Targeting>)
    requires forall i, j :: 0 <= i < j < |catalog| ==> catalog[i].urn != catalog[j].urn
    ensures forall i :: 0 <= i < |catalog| ==> TargetingGroupsByUrn(catalog)[catalog[i].urn] == catalog[i]
  {
    assert forall i :: 0 <= i < |catalog| ==> LastWithUrn(catalog, i);
  }
}
