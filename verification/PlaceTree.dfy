// The tree of places of the photos in view: country, region and city nodes filled from grouped rows, and the filter
// each node carries. The tree says of every filter exactly what the filter selects.
module PlaceTree {
  import opened Wrappers

  /** The keys of a photo's place; a key is never empty. */
  datatype Place = Place(country: Option<string>, region: Option<string>, city: Option<string>)

  predicate KeysOk(place: Place) { place.country != Some("") && place.region != Some("") && place.city != Some("") }

  /** A place to filter by; the empty key of a region or a city means none, that of a country a place without one. */
  datatype PlaceFilter = PlaceFilter(country: Option<string>, region: Option<string>, city: Option<string>)

  predicate HasCountry(place: Place) { place.country.Some? }

  /** The rows the no-country node gathers. */
  predicate NoCountry(place: Place) { place.country.None? && (place.region.Some? || place.city.Some?) }

  predicate SelectsLevel(key: Option<string>, column: Option<string>) {
    key.Some? ==> if key.value == "" then column.None? else column == key
  }

  /** The conditions of a filter on a photo's row. */
  predicate Selects(f: PlaceFilter, place: Place) {
    && (f.country.Some? ==> if f.country.value == "" then NoCountry(place) else place.country == f.country)
    && SelectsLevel(f.region, place.region)
    && SelectsLevel(f.city, place.city)
  }

  function CountWhere(view: seq<Place>, wanted: Place -> bool): nat {
    if view == [] then 0
    else CountWhere(view[..|view| - 1], wanted) + if wanted(view[|view| - 1]) then 1 else 0
  }

  /** How many photos in view a filter selects. */
  function Selected(view: seq<Place>, f: PlaceFilter): nat { CountWhere(view, place => Selects(f, place)) }

  // ---------------------------------------------------------------- grouped rows

  /** A row of a grouped query: a place, and how many photos have it. */
  datatype Group = Group(place: Place, photos: nat)

  function Total(groups: seq<Group>, f: PlaceFilter): nat {
    if groups == [] then 0
    else
      var last := groups[|groups| - 1];
      Total(groups[..|groups| - 1], f) + if Selects(f, last.place) then last.photos else 0
  }

  lemma {:induction false} OneMoreIn(groups: seq<Group>, i: nat, f: PlaceFilter)
    requires i < |groups|
    ensures Total(groups[i := groups[i].(photos := groups[i].photos + 1)], f) ==
            Total(groups, f) + if Selects(f, groups[i].place) then 1 else 0
  {
    var more := groups[i := groups[i].(photos := groups[i].photos + 1)];
    if i < |groups| - 1 {
      OneMoreIn(groups[..|groups| - 1], i, f);
      assert more[..|groups| - 1] == groups[..|groups| - 1][i := more[i]];
    } else {
      assert more[..|groups| - 1] == groups[..|groups| - 1];
    }
  }

  function Both(wanted: Place -> bool, f: PlaceFilter): Place -> bool { place => wanted(place) && Selects(f, place) }

  /** Every wanted place once, with how many of the photos have it. */
  ghost predicate Grouped(groups: seq<Group>, view: seq<Place>, wanted: Place -> bool) {
    && (forall i, j | 0 <= i < j < |groups| :: groups[i].place != groups[j].place)
    && (forall i | 0 <= i < |groups| :: groups[i].photos > 0 && groups[i].place in view && wanted(groups[i].place))
    && forall f :: Total(groups, f) == CountWhere(view, Both(wanted, f))
  }

  lemma CountOneMore(view: seq<Place>, place: Place, wanted: Place -> bool, f: PlaceFilter)
    ensures CountWhere(view + [place], Both(wanted, f)) ==
            CountWhere(view, Both(wanted, f)) + if wanted(place) && Selects(f, place) then 1 else 0
  {
    assert (view + [place])[..|view|] == view;
  }

  lemma GroupedAgain(groups: seq<Group>, view: seq<Place>, wanted: Place -> bool, place: Place, i: nat)
    requires Grouped(groups, view, wanted) && wanted(place) && i < |groups| && groups[i].place == place
    ensures Grouped(groups[i := groups[i].(photos := groups[i].photos + 1)], view + [place], wanted)
  {
    hide Total, CountWhere, Selects, Both;
    forall f ensures Total(groups[i := groups[i].(photos := groups[i].photos + 1)], f) ==
                     CountWhere(view + [place], Both(wanted, f))
    {
      OneMoreIn(groups, i, f);
      CountOneMore(view, place, wanted, f);
    }
  }

  /** A grouped query over the rows that are wanted. */
  method GroupBy(view: seq<Place>, wanted: Place -> bool) returns (groups: seq<Group>)
    ensures Grouped(groups, view, wanted)
  {
    groups := [];
    assert view[..0] == [];
    for n := 0 to |view|
      invariant Grouped(groups, view[..n], wanted)
    {
      hide Grouped;
      var place := view[n];
      assert view[..n + 1] == view[..n] + [place];
      if wanted(place) {
        var i := 0;
        while i < |groups| && groups[i].place != place
          invariant i <= |groups| && forall j | 0 <= j < i :: groups[j].place != place
        {
          i := i + 1;
        }
        if i < |groups| {
          GroupedAgain(groups, view[..n], wanted, place, i);
          groups := groups[i := groups[i].(photos := groups[i].photos + 1)];
        } else {
          groups := groups + [Group(place, 1)];
        }
      }
    }
    assert view[..|view|] == view;
  }

  // ---------------------------------------------------------------- the branches

  /** A branch of the tree as it is filled: the photos under it, and the branches by key. */
  datatype Branch = Branch(count: nat, children: map<string, Branch>)

  const EMPTY := Branch(0, map[])

  function ChildOr(b: Branch, key: string): Branch { if key in b.children then b.children[key] else EMPTY }

  function KeyOr(key: Option<string>): string { if key.Some? then key.value else "" }

  /** The branch of a region, or of "no region", with the photos counted: in it if it has a name, and in their city. */
  function Filled(under: Branch, region: Option<string>, city: Option<string>, photos: nat): Branch {
    var counted := if region.Some? then under.(count := under.count + photos) else under;
    if city.Some? then
      var leaf := ChildOr(counted, city.value);
      counted.(children := counted.children[city.value := leaf.(count := leaf.count + photos)])
    else counted
  }

  /** Counts photos at a place under a branch: a region and the city under it, or a city directly under it; the empty
      key is "no region". */
  function AddPlace(b: Branch, region: Option<string>, city: Option<string>, photos: nat): Branch {
    b.(children := b.children[KeyOr(region) := Filled(ChildOr(b, KeyOr(region)), region, city, photos)])
  }

  function CountryFilter(c: string): PlaceFilter { PlaceFilter(Some(c), None, None) }
  function RegionFilter(c: string, r: string): PlaceFilter { PlaceFilter(Some(c), Some(r), None) }
  function CityFilter(c: string, r: string, k: string): PlaceFilter { PlaceFilter(Some(c), Some(r), Some(k)) }

  /** A branch of a region holds how many photos the rows have in it and in each of its cities. */
  ghost predicate RegionHolds(b: Branch, c: string, r: string, total: PlaceFilter -> nat) {
    && (r != "" ==> b.count == total(RegionFilter(c, r)))
    && (forall k :: k in b.children <==> k != "" && total(CityFilter(c, r, k)) > 0)
    && forall k | k in b.children :: b.children[k].count == total(CityFilter(c, r, k))
  }

  /** A branch of a country holds, at every level, how many photos the rows have there, and a branch for every place
      that has some. */
  ghost predicate Holds(b: Branch, c: string, total: PlaceFilter -> nat) {
    && b.count == total(CountryFilter(c))
    && (forall r :: r in b.children <==> total(RegionFilter(c, r)) > 0)
    && (forall r | r in b.children :: RegionHolds(b.children[r], c, r, total))
    && forall r | r !in b.children :: RegionHolds(EMPTY, c, r, total)
  }

  ghost function Totals(groups: seq<Group>): PlaceFilter -> nat { f => Total(groups, f) }

  /** The rows of a country under its key. */
  predicate Under(place: Place, c: string) { if c == "" then NoCountry(place) else place.country == Some(c) }

  lemma OneMoreGroup(groups: seq<Group>, g: Group, f: PlaceFilter)
    ensures Totals(groups + [g])(f) == Totals(groups)(f) + if Selects(f, g.place) then g.photos else 0
  {
    assert (groups + [g])[..|groups|] == groups;
  }

  /** One more row raises what the filters that select it count, and nothing else. */
  ghost predicate Raised(before: PlaceFilter -> nat, after: PlaceFilter -> nat, g: Group) {
    forall f :: after(f) == before(f) + if Selects(f, g.place) then g.photos else 0
  }

  lemma FilledHolds(under: Branch, c: string, g: Group, before: PlaceFilter -> nat, after: PlaceFilter -> nat)
    requires RegionHolds(under, c, KeyOr(g.place.region), before) && Raised(before, after, g)
    requires KeysOk(g.place) && g.photos > 0 && Under(g.place, c)
    ensures RegionHolds(Filled(under, g.place.region, g.place.city, g.photos), c, KeyOr(g.place.region), after)
  {
  }

  lemma ElsewhereHolds(b: Branch, c: string, r: string, g: Group, before: PlaceFilter -> nat, after: PlaceFilter -> nat)
    requires RegionHolds(b, c, r, before) && Raised(before, after, g) && KeysOk(g.place)
    requires r != KeyOr(g.place.region)
    ensures RegionHolds(b, c, r, after) && after(RegionFilter(c, r)) == before(RegionFilter(c, r))
  {
  }

  lemma AddedHolds(b: Branch, c: string, g: Group, before: PlaceFilter -> nat, after: PlaceFilter -> nat)
    requires Holds(b, c, before) && Raised(before, after, g) && KeysOk(g.place) && g.photos > 0 && Under(g.place, c)
    ensures Holds(AddPlace(b, g.place.region, g.place.city, g.photos).(count := b.count + g.photos), c, after)
  {
    hide RegionHolds, Raised, Selects, Filled, KeysOk, AddPlace, Under, Holds, ChildOr;
    var key := KeyOr(g.place.region);
    var under := BranchAt(b, c, key, before);
    FilledHolds(under, c, g, before, after);
    RaisedHere(c, g, before, after);
    forall r | r != key
      ensures after(RegionFilter(c, r)) == before(RegionFilter(c, r))
      ensures r in b.children ==> RegionHolds(b.children[r], c, r, after)
      ensures r !in b.children ==> RegionHolds(EMPTY, c, r, after)
    {
      var other := BranchAt(b, c, r, before);
      ElsewhereHolds(other, c, r, g, before, after);
    }
    PutTogether(b, c, g, under, before, after);
  }

  lemma BranchAt(b: Branch, c: string, r: string, total: PlaceFilter -> nat) returns (under: Branch)
    requires Holds(b, c, total)
    ensures under == ChildOr(b, r) && RegionHolds(under, c, r, total)
    ensures under == if r in b.children then b.children[r] else EMPTY
  {
    under := ChildOr(b, r);
  }

  lemma RaisedHere(c: string, g: Group, before: PlaceFilter -> nat, after: PlaceFilter -> nat)
    requires Raised(before, after, g) && KeysOk(g.place) && Under(g.place, c)
    ensures after(CountryFilter(c)) == before(CountryFilter(c)) + g.photos
    ensures after(RegionFilter(c, KeyOr(g.place.region))) == before(RegionFilter(c, KeyOr(g.place.region))) + g.photos
  {
  }

  lemma PutTogether(b: Branch, c: string, g: Group, under: Branch, before: PlaceFilter -> nat,
                    after: PlaceFilter -> nat)
    requires Holds(b, c, before) && g.photos > 0 && under == ChildOr(b, KeyOr(g.place.region))
    requires RegionHolds(Filled(under, g.place.region, g.place.city, g.photos), c, KeyOr(g.place.region), after)
    requires after(CountryFilter(c)) == before(CountryFilter(c)) + g.photos
    requires after(RegionFilter(c, KeyOr(g.place.region))) == before(RegionFilter(c, KeyOr(g.place.region))) + g.photos
    requires forall r | r != KeyOr(g.place.region) ::
               && after(RegionFilter(c, r)) == before(RegionFilter(c, r))
               && (r in b.children ==> RegionHolds(b.children[r], c, r, after))
               && (r !in b.children ==> RegionHolds(EMPTY, c, r, after))
    ensures Holds(AddPlace(b, g.place.region, g.place.city, g.photos).(count := b.count + g.photos), c, after)
  {
    hide RegionHolds, Filled, ChildOr;
  }

  /** A row of the country goes to its branches. */
  lemma AddPlaceHolds(b: Branch, c: string, groups: seq<Group>, g: Group)
    requires Holds(b, c, Totals(groups)) && KeysOk(g.place) && g.photos > 0 && Under(g.place, c)
    ensures Holds(AddPlace(b, g.place.region, g.place.city, g.photos).(count := b.count + g.photos), c,
                  Totals(groups + [g]))
  {
    hide Holds, Totals, AddPlace;
    forall f ensures Totals(groups + [g])(f) == Totals(groups)(f) + if Selects(f, g.place) then g.photos else 0 {
      OneMoreGroup(groups, g, f);
    }
    AddedHolds(b, c, g, Totals(groups), Totals(groups + [g]));
  }

  /** A row of another country changes nothing here. */
  lemma OtherRow(b: Branch, c: string, groups: seq<Group>, g: Group)
    requires Holds(b, c, Totals(groups)) && !Under(g.place, c)
    ensures Holds(b, c, Totals(groups + [g]))
  {
    hide Totals, Holds;
    forall f: PlaceFilter | f.country == Some(c) ensures Totals(groups + [g])(f) == Totals(groups)(f) {
      OneMoreGroup(groups, g, f);
    }
    SameCountry(b, c, Totals(groups), Totals(groups + [g]));
  }

  lemma SameCountry(b: Branch, c: string, before: PlaceFilter -> nat, after: PlaceFilter -> nat)
    requires Holds(b, c, before) && forall f: PlaceFilter | f.country == Some(c) :: after(f) == before(f)
    ensures Holds(b, c, after)
  {
    hide RegionHolds;
    forall branch, r | RegionHolds(branch, c, r, before) ensures RegionHolds(branch, c, r, after) {
      SameRegion(branch, c, r, before, after);
    }
    assert forall r :: after(RegionFilter(c, r)) == before(RegionFilter(c, r));
  }

  lemma SameRegion(b: Branch, c: string, r: string, before: PlaceFilter -> nat, after: PlaceFilter -> nat)
    requires RegionHolds(b, c, r, before) && forall f: PlaceFilter | f.country == Some(c) :: after(f) == before(f)
    ensures RegionHolds(b, c, r, after)
  {
    assert forall k :: after(CityFilter(c, r, k)) == before(CityFilter(c, r, k));
  }

  // ---------------------------------------------------------------- the nodes

  datatype PlaceNode = PlaceNode(count: nat, filter: PlaceFilter, children: seq<PlaceNode>)

  /** What the nodes of a tree that carry a filter count, in the order of the tree. */
  function CountsOf(nodes: seq<PlaceNode>, f: PlaceFilter): seq<nat>
    decreases nodes
  {
    if nodes == [] then [] else CountsIn(nodes[0], f) + CountsOf(nodes[1..], f)
  }

  function CountsIn(node: PlaceNode, f: PlaceFilter): seq<nat>
    decreases node
  {
    (if node.filter == f then [node.count] else []) + CountsOf(node.children, f)
  }

  lemma {:induction false} CountsAppend(some: seq<PlaceNode>, more: seq<PlaceNode>, f: PlaceFilter)
    ensures CountsOf(some + more, f) == CountsOf(some, f) + CountsOf(more, f)
  {
    if some == [] {
      assert some + more == more;
    } else {
      assert (some + more)[1..] == some[1..] + more;
      CountsAppend(some[1..], more, f);
    }
  }

  lemma CountsOne(node: PlaceNode, f: PlaceFilter)
    ensures CountsOf([node], f) == CountsIn(node, f)
  {
    assert [node][1..] == [];
    assert CountsIn(node, f) + [] == CountsIn(node, f);
  }

  /** What a filter of a city counts in the cities of a region. */
  function CityCounts(cities: map<string, Branch>, c: string, r: string, f: PlaceFilter): seq<nat> {
    if f.country == Some(c) && f.region == Some(r) && f.city.Some? && f.city.value in cities
    then [cities[f.city.value].count] else []
  }

  // ---------------------------------------------------------------- where the nodes hang

  /** A city of a region, or of none: a leaf. */
  predicate IsCity(node: PlaceNode, c: string, r: string) {
    node.filter.city.Some? && node.filter == CityFilter(c, r, node.filter.city.value) && node.children == []
  }

  /** A region of a country, over its cities alone. */
  predicate IsRegion(node: PlaceNode, c: string) {
    && node.filter.region.Some? && node.filter.region.value != ""
    && node.filter == RegionFilter(c, node.filter.region.value)
    && forall i | 0 <= i < |node.children| :: IsCity(node.children[i], c, node.filter.region.value)
  }

  /** What hangs from a country: its regions, and its cities of no region. */
  predicate InCountry(node: PlaceNode, c: string) { IsRegion(node, c) || IsCity(node, c, "") }

  /** A country, or the photos without one, over its own regions and cities. */
  predicate IsCountry(node: PlaceNode, c: string) {
    node.filter == CountryFilter(c) && forall i | 0 <= i < |node.children| :: InCountry(node.children[i], c)
  }

  predicate AtTheTop(node: PlaceNode) {
    node.filter.country.Some? && node.filter.country.value != "" && IsCountry(node, node.filter.country.value)
  }

  /** The countries by their keys, each over what is in it, and after them the photos without a country. */
  predicate Nested(facets: PlaceFacets) {
    && (forall i | 0 <= i < |facets.countries| :: AtTheTop(facets.countries[i]))
    && (facets.noCountry.Some? ==> IsCountry(facets.noCountry.value, ""))
  }

  // ---------------------------------------------------------------- the nodes, level by level

  /** The nodes of the cities but those that `rest`. */
  ghost predicate CitiesSoFar(nodes: seq<PlaceNode>, rest: set<string>, cities: map<string, Branch>, c: string,
                              r: string)
  {
    forall f: PlaceFilter ::
      CountsOf(nodes, f) == if f.city.Some? && f.city.value in rest then [] else CityCounts(cities, c, r, f)
  }

  lemma CitiesMore(nodes: seq<PlaceNode>, rest: set<string>, cities: map<string, Branch>, c: string, r: string,
                   key: string)
    requires CitiesSoFar(nodes, rest, cities, c, r) && key in rest && key in cities
    ensures CitiesSoFar(nodes + [PlaceNode(cities[key].count, CityFilter(c, r, key), [])], rest - {key}, cities, c, r)
  {
    var node := PlaceNode(cities[key].count, CityFilter(c, r, key), []);
    forall f: PlaceFilter
      ensures CountsOf(nodes + [node], f) ==
              if f.city.Some? && f.city.value in rest - {key} then [] else CityCounts(cities, c, r, f)
    {
      CountsAppend(nodes, [node], f);
      CountsOne(node, f);
      assert CountsIn(node, f) == if f == CityFilter(c, r, key) then [node.count] else [];
      hide CountsOf, CountsIn;
    }
  }

  lemma NoCitiesYet(cities: map<string, Branch>, c: string, r: string)
    ensures CitiesSoFar([], cities.Keys, cities, c, r)
  {
  }

  method CityNodes(cities: map<string, Branch>, c: string, r: string) returns (nodes: seq<PlaceNode>)
    ensures forall f :: CountsOf(nodes, f) == CityCounts(cities, c, r, f)
    ensures forall i | 0 <= i < |nodes| :: IsCity(nodes[i], c, r)
  {
    hide CountsOf, CityCounts;
    nodes := [];
    var rest := cities.Keys;
    NoCitiesYet(cities, c, r);
    while rest != {}
      invariant rest <= cities.Keys && CitiesSoFar(nodes, rest, cities, c, r)
      invariant forall i | 0 <= i < |nodes| :: IsCity(nodes[i], c, r)
      decreases rest
    {
      var key :| key in rest;
      CitiesMore(nodes, rest, cities, c, r, key);
      nodes := nodes + [PlaceNode(cities[key].count, CityFilter(c, r, key), [])];
      rest := rest - {key};
    }
  }

  /** What a filter of a region or of its cities counts in a region's branch; "no region" has no node of its own. */
  function RegionCounts(b: Branch, c: string, r: string, f: PlaceFilter): seq<nat> {
    (if r != "" && f == RegionFilter(c, r) then [b.count] else []) + CityCounts(b.children, c, r, f)
  }

  method RegionNodes(b: Branch, c: string, r: string) returns (nodes: seq<PlaceNode>)
    ensures forall f :: CountsOf(nodes, f) == RegionCounts(b, c, r, f)
    ensures forall i | 0 <= i < |nodes| :: InCountry(nodes[i], c)
  {
    nodes := CityNodes(b.children, c, r);
    if r != "" {
      var node := PlaceNode(b.count, RegionFilter(c, r), nodes);
      forall f ensures CountsOf([node], f) == CountsIn(node, f) {
        CountsOne(node, f);
      }
      nodes := [node];
    } else {
      forall f: PlaceFilter ensures [] + CityCounts(b.children, c, r, f) == CityCounts(b.children, c, r, f) {
      }
    }
  }

  function RegionsCount(b: Branch, c: string, f: PlaceFilter): seq<nat> {
    if f.region.Some? && f.region.value in b.children
      then RegionCounts(b.children[f.region.value], c, f.region.value, f) else []
  }

  /** What a filter counts in a country's branch. */
  function CountryCounts(b: Branch, c: string, f: PlaceFilter): seq<nat> {
    (if f == CountryFilter(c) then [b.count] else []) + RegionsCount(b, c, f)
  }

  /** The nodes of the regions but those that `rest`. */
  ghost predicate RegionsSoFar(nodes: seq<PlaceNode>, rest: set<string>, b: Branch, c: string) {
    forall f: PlaceFilter :: CountsOf(nodes, f) ==
                             if f.region.Some? && f.region.value in rest then [] else RegionsCount(b, c, f)
  }

  lemma RegionsMore(nodes: seq<PlaceNode>, rest: set<string>, b: Branch, c: string, r: string, more: seq<PlaceNode>)
    requires RegionsSoFar(nodes, rest, b, c) && r in rest && r in b.children
    requires forall f :: CountsOf(more, f) == RegionCounts(b.children[r], c, r, f)
    ensures RegionsSoFar(nodes + more, rest - {r}, b, c)
  {
    hide CountsOf;
    forall f: PlaceFilter
      ensures CountsOf(nodes + more, f) ==
              if f.region.Some? && f.region.value in rest - {r} then [] else RegionsCount(b, c, f)
    {
      CountsAppend(nodes, more, f);
      if f.region != Some(r) {
        assert CountsOf(more, f) == [];
      }
    }
  }

  lemma NoRegionsYet(b: Branch, c: string)
    ensures RegionsSoFar([], b.children.Keys, b, c)
  {
  }

  lemma AllRegions(nodes: seq<PlaceNode>, b: Branch, c: string, f: PlaceFilter)
    requires RegionsSoFar(nodes, {}, b, c)
    ensures CountsIn(PlaceNode(b.count, CountryFilter(c), nodes), f) == CountryCounts(b, c, f)
  {
  }

  /** The node of a country, or of the photos without one: its regions with their cities, and the cities of no region
      directly under it. */
  method CountryNode(c: string, b: Branch) returns (node: PlaceNode)
    ensures node.filter == CountryFilter(c) && node.count == b.count && IsCountry(node, c)
    ensures forall f :: CountsIn(node, f) == CountryCounts(b, c, f)
  {
    hide RegionsSoFar, CountsIn, CountsOf, CountryCounts, RegionCounts, InCountry;
    var children: seq<PlaceNode> := [];
    var rest := b.children.Keys;
    NoRegionsYet(b, c);
    while rest != {}
      invariant rest <= b.children.Keys && RegionsSoFar(children, rest, b, c)
      invariant forall i | 0 <= i < |children| :: InCountry(children[i], c)
      decreases rest
    {
      var r :| r in rest;
      var nodes := RegionNodes(b.children[r], c, r);
      RegionsMore(children, rest, b, c, r, nodes);
      children := children + nodes;
      rest := rest - {r};
    }
    node := PlaceNode(b.count, CountryFilter(c), children);
    forall f ensures CountsIn(node, f) == CountryCounts(b, c, f) {
      AllRegions(children, b, c, f);
    }
  }

  /** The filters nodes can carry: a country, a region of it, a city of a region or of none. */
  predicate Shaped(f: PlaceFilter) {
    && f.country.Some? && f.city != Some("")
    && (f.region.None? ==> f.city.None?) && (f.region == Some("") ==> f.city.Some?)
  }

  /** What a tree should count for a filter. */
  function Due(f: PlaceFilter, n: nat): seq<nat> { if Shaped(f) && n > 0 then [n] else [] }

  lemma CountryIsDue(b: Branch, c: string, total: PlaceFilter -> nat, f: PlaceFilter)
    requires Holds(b, c, total) && f.country == Some(c) && b.count > 0
    ensures CountryCounts(b, c, f) == Due(f, total(f))
  {
    if f.region.Some? {
      var r := f.region.value;
      assert r in b.children <==> total(RegionFilter(c, r)) > 0;
      var under := BranchAt(b, c, r, total);
      if f.city.Some? {
        assert f == CityFilter(c, r, f.city.value);
      } else {
        assert f == RegionFilter(c, r);
      }
    }
  }

  // ---------------------------------------------------------------- the tree

  predicate Anywhere(place: Place) { place.country.Some? || place.region.Some? || place.city.Some? }

  const ANY := PlaceFilter(None, None, None)

  /** The branches of the countries hold what the rows have, and there is one for each country with rows. */
  ghost predicate Countries(countries: map<string, Branch>, total: PlaceFilter -> nat) {
    && "" !in countries
    && forall c | c != "" :: Holds(if c in countries then countries[c] else EMPTY, c, total)
                             && (c in countries <==> total(CountryFilter(c)) > 0)
  }

  lemma NoRowsHold(c: string)
    ensures Holds(EMPTY, c, Totals([]))
  {
  }

  lemma {:induction false} SameCount(view: seq<Place>, p: Place -> bool, q: Place -> bool)
    requires forall place | place in view :: p(place) == q(place)
    ensures CountWhere(view, p) == CountWhere(view, q)
  {
    if view != [] {
      assert view[|view| - 1] in view;
      SameCount(view[..|view| - 1], p, q);
    }
  }

  lemma CountryRow(countries: map<string, Branch>, groups: seq<Group>, g: Group)
    requires Countries(countries, Totals(groups)) && KeysOk(g.place) && g.photos > 0 && g.place.country.Some?
    ensures var c := g.place.country.value; var b := if c in countries then countries[c] else EMPTY;
            Countries(countries[c := AddPlace(b, g.place.region, g.place.city, g.photos).(count := b.count + g.photos)],
                      Totals(groups + [g]))
  {
    hide Holds, Totals, AddPlace, Selects;
    var key := g.place.country.value;
    var b := if key in countries then countries[key] else EMPTY;
    AddPlaceHolds(b, key, groups, g);
    forall c | c != ""
      ensures Totals(groups + [g])(CountryFilter(c)) ==
              Totals(groups)(CountryFilter(c)) + if c == key then g.photos else 0
      ensures c != key ==> Holds(if c in countries then countries[c] else EMPTY, c, Totals(groups + [g]))
    {
      OneMoreGroup(groups, g, CountryFilter(c));
      SelectsCountry(c, g.place);
      if c != key {
        OtherRow(if c in countries then countries[c] else EMPTY, c, groups, g);
      }
    }
  }

  lemma SelectsCountry(c: string, place: Place)
    requires c != ""
    ensures Selects(CountryFilter(c), place) <==> place.country == Some(c)
  {
  }

  lemma AnyRow(groups: seq<Group>, g: Group)
    ensures Totals(groups + [g])(ANY) == Totals(groups)(ANY) + g.photos
  {
    OneMoreGroup(groups, g, ANY);
  }

  /** The rows of the countries, counted into their branches. */
  method FillCountries(groups: seq<Group>) returns (placed: nat, countries: map<string, Branch>)
    requires forall i | 0 <= i < |groups| ::
               KeysOk(groups[i].place) && groups[i].photos > 0 && groups[i].place.country.Some?
    ensures placed == Total(groups, ANY) && Countries(countries, Totals(groups))
  {
    hide Holds, Total, AddPlace;
    placed, countries := 0, map[];
    forall c ensures Holds(EMPTY, c, Totals([])) && Totals([])(CountryFilter(c)) == 0 {
      NoRowsHold(c);
      NoRows(CountryFilter(c));
    }
    NoRows(ANY);
    assert groups[..0] == [];
    for n := 0 to |groups|
      invariant placed == Totals(groups[..n])(ANY) && Countries(countries, Totals(groups[..n]))
    {
      hide Countries;
      var g := groups[n];
      assert groups[..n + 1] == groups[..n] + [g];
      CountryRow(countries, groups[..n], g);
      AnyRow(groups[..n], g);
      var c := g.place.country.value;
      var b := if c in countries then countries[c] else EMPTY;
      placed := placed + g.photos;
      countries := countries[c := AddPlace(b, g.place.region, g.place.city, g.photos).(count := b.count + g.photos)];
    }
    assert groups[..|groups|] == groups;
  }

  lemma NoRows(f: PlaceFilter)
    ensures Totals([])(f) == 0
  {
  }

  /** The rows without a country, counted into their own branch. */
  method FillNone(groups: seq<Group>) returns (placed: nat, none: Branch)
    requires forall i | 0 <= i < |groups| ::
               KeysOk(groups[i].place) && groups[i].photos > 0 && NoCountry(groups[i].place)
    ensures placed == Total(groups, ANY) && Holds(none, "", Totals(groups)) && (none.count == 0 ==> none == EMPTY)
  {
    hide Holds, Total, AddPlace;
    placed, none := 0, EMPTY;
    NoRowsHold("");
    NoRows(ANY);
    assert groups[..0] == [];
    for n := 0 to |groups|
      invariant placed == Totals(groups[..n])(ANY) && Holds(none, "", Totals(groups[..n]))
      invariant none.count == 0 ==> none == EMPTY
    {
      var g := groups[n];
      assert groups[..n + 1] == groups[..n] + [g];
      AddPlaceHolds(none, "", groups[..n], g);
      AnyRow(groups[..n], g);
      placed := placed + g.photos;
      none := AddPlace(none, g.place.region, g.place.city, g.photos).(count := none.count + g.photos);
    }
    assert groups[..|groups|] == groups;
  }

  datatype PlaceFacets = PlaceFacets(placed: nat, countries: seq<PlaceNode>, noCountry: Option<PlaceNode>)

  function TopNodes(facets: PlaceFacets): seq<PlaceNode> {
    facets.countries + if facets.noCountry.Some? then [facets.noCountry.value] else []
  }

  function FiltersOf(nodes: seq<PlaceNode>): set<PlaceFilter> { set n | n in nodes :: n.filter }

  predicate IsCountryOf(node: PlaceNode, keys: set<string>) {
    node.filter.country.Some? && node.filter.country.value in keys
      && node.filter == CountryFilter(node.filter.country.value)
  }

  /** The countries at the top, each once. */
  predicate EachOnce(nodes: seq<PlaceNode>, keys: set<string>) {
    && (forall i | 0 <= i < |nodes| :: IsCountryOf(nodes[i], keys))
    && (forall c | c in keys :: CountryFilter(c) in FiltersOf(nodes))
    && forall i, j | 0 <= i < j < |nodes| :: nodes[i].filter != nodes[j].filter
  }

  lemma OnceMore(nodes: seq<PlaceNode>, keys: set<string>, node: PlaceNode, c: string)
    requires EachOnce(nodes, keys) && c !in keys && node.filter == CountryFilter(c)
    ensures EachOnce(nodes + [node], keys + {c})
  {
    var more := nodes + [node];
    forall n | n in nodes ensures n.filter in FiltersOf(more) {
      assert n in more;
    }
    assert node in more;
    assert FiltersOf(nodes) <= FiltersOf(more) && CountryFilter(c) in FiltersOf(more);
    forall i | 0 <= i < |more| ensures IsCountryOf(more[i], keys + {c}) {
      if i < |nodes| {
        assert IsCountryOf(nodes[i], keys);
      }
    }
  }

  /** The nodes of some countries: each country once, and every filter counted as it should be. */
  ghost predicate NodesOf(nodes: seq<PlaceNode>, done: set<string>, total: PlaceFilter -> nat) {
    && EachOnce(nodes, done)
    && (forall f: PlaceFilter :: CountsOf(nodes, f) ==
          if f.country.Some? && f.country.value in done then Due(f, total(f)) else [])
    && forall i | 0 <= i < |nodes| :: nodes[i].count == total(nodes[i].filter)
  }

  lemma NodesMore(nodes: seq<PlaceNode>, done: set<string>, node: PlaceNode, c: string, b: Branch,
                  total: PlaceFilter -> nat)
    requires NodesOf(nodes, done, total) && c !in done && Holds(b, c, total) && b.count > 0
    requires node.filter == CountryFilter(c) && node.count == b.count
    requires forall f :: CountsIn(node, f) == CountryCounts(b, c, f)
    ensures NodesOf(nodes + [node], done + {c}, total)
  {
    hide EachOnce, Holds, CountsOf, CountsIn, CountryCounts, Due;
    OnceMore(nodes, done, node, c);
    CountOfCountry(b, c, total);
    forall f: PlaceFilter
      ensures CountsOf(nodes + [node], f) ==
              if f.country.Some? && f.country.value in done + {c} then Due(f, total(f)) else []
    {
      CountsAppend(nodes, [node], f);
      CountsOne(node, f);
      if f.country == Some(c) {
        CountryIsDue(b, c, total, f);
      } else {
        NotOfCountry(b, c, f);
      }
    }
  }

  /** The nodes of the countries. */
  method CountryNodes(countries: map<string, Branch>, ghost total: PlaceFilter -> nat) returns (nodes: seq<PlaceNode>)
    requires Countries(countries, total)
    ensures NodesOf(nodes, countries.Keys, total)
    ensures forall i | 0 <= i < |nodes| :: AtTheTop(nodes[i])
  {
    hide NodesOf, Holds, Countries, CountsIn, CountryCounts, IsCountry;
    nodes := [];
    var rest := countries.Keys;
    NoNodes(total);
    assert countries.Keys - rest == {};
    while rest != {}
      invariant rest <= countries.Keys && NodesOf(nodes, countries.Keys - rest, total)
      invariant forall i | 0 <= i < |nodes| :: AtTheTop(nodes[i])
      decreases rest
    {
      var c :| c in rest;
      CountryAt(countries, c, total);
      var node := CountryNode(c, countries[c]);
      NodesMore(nodes, countries.Keys - rest, node, c, countries[c], total);
      assert countries.Keys - rest + {c} == countries.Keys - (rest - {c});
      nodes := nodes + [node];
      rest := rest - {c};
    }
    assert countries.Keys - rest == countries.Keys;
  }

  lemma NoNodes(total: PlaceFilter -> nat)
    ensures NodesOf([], {}, total)
  {
  }

  lemma CountryAt(countries: map<string, Branch>, c: string, total: PlaceFilter -> nat)
    requires Countries(countries, total) && c in countries
    ensures c != "" && Holds(countries[c], c, total) && countries[c].count > 0
  {
    CountOfCountry(countries[c], c, total);
  }

  lemma CountOfCountry(b: Branch, c: string, total: PlaceFilter -> nat)
    requires Holds(b, c, total)
    ensures b.count == total(CountryFilter(c))
  {
  }

  lemma NotOfCountry(b: Branch, c: string, f: PlaceFilter)
    requires f.country != Some(c)
    ensures CountryCounts(b, c, f) == []
  {
  }

  lemma NothingInCountry(countries: map<string, Branch>, total: PlaceFilter -> nat, f: PlaceFilter)
    requires Countries(countries, total) && f.country.Some? && f.country.value != "" && f.country.value !in countries
    ensures Due(f, total(f)) == []
  {
    hide Holds, Due;
    assert Holds(EMPTY, f.country.value, total);
    NothingHeld(f.country.value, total, f);
  }

  /** What an empty branch holds selects nothing. */
  lemma NothingHeld(c: string, total: PlaceFilter -> nat, f: PlaceFilter)
    requires Holds(EMPTY, c, total) && f.country == Some(c)
    ensures Due(f, total(f)) == []
  {
    if Shaped(f) {
      if f.region.Some? {
        var under := BranchAt(EMPTY, c, f.region.value, total);
        if f.city.Some? {
          assert f == CityFilter(c, f.region.value, f.city.value);
        } else {
          assert f == RegionFilter(c, f.region.value);
        }
      } else {
        assert f == CountryFilter(c);
      }
    }
  }

  // ---------------------------------------------------------------- what the tree says

  function SumOf(nodes: seq<PlaceNode>): nat {
    if nodes == [] then 0 else SumOf(nodes[..|nodes| - 1]) + nodes[|nodes| - 1].count
  }

  /** **The tree agrees with the filter**: for every filter a node can carry, the tree has one node with it when it
      selects something, counting exactly what it selects, and none otherwise. The nodes at the top add up to the photos
      with a place. */
  ghost predicate Faithful(view: seq<Place>, facets: PlaceFacets) {
    && (forall f :: CountsOf(TopNodes(facets), f) == Due(f, Selected(view, f)))
    && facets.placed == CountWhere(view, Anywhere) == SumOf(TopNodes(facets))
  }

  /** The tree of the photos in view. */
  method Facets(view: seq<Place>) returns (facets: PlaceFacets)
    requires forall place | place in view :: KeysOk(place)
    ensures Faithful(view, facets) && Nested(facets)
  {
    hide NodesOf, Holds, Countries, CountsIn, CountsOf, Faithful, IsCountry;
    var rows := GroupBy(view, HasCountry);
    var placed, countries := FillCountries(rows);
    var nodes := CountryNodes(countries, Totals(rows));
    var others := GroupBy(view, NoCountry);
    var more, none := FillNone(others);
    var noCountry: Option<PlaceNode> := None;
    if none.count > 0 {
      var node := CountryNode("", none);
      noCountry := Some(node);
    }
    facets := PlaceFacets(placed + more, nodes, noCountry);
    FacetsAreFaithful(view, rows, countries, others, none, facets);
  }

  lemma SelectedFromRows(view: seq<Place>, f: PlaceFilter)
    requires f.country.Some? && forall place | place in view :: KeysOk(place)
    ensures Selected(view, f) == CountWhere(view, Both(if f.country.value == "" then NoCountry else HasCountry, f))
  {
    SameCount(view, place => Selects(f, place), Both(if f.country.value == "" then NoCountry else HasCountry, f));
  }

  lemma {:induction false} CountEither(view: seq<Place>)
    ensures CountWhere(view, Anywhere) == CountWhere(view, Both(HasCountry, ANY))
            + CountWhere(view, Both(NoCountry, ANY))
  {
    if view != [] {
      var last := view[|view| - 1];
      CountEither(view[..|view| - 1]);
      assert Both(HasCountry, ANY)(last) == HasCountry(last) && Both(NoCountry, ANY)(last) == NoCountry(last);
    }
  }

  /** The country keys the nodes at the top stand for. */
  function TopKeys(countries: map<string, Branch>, none: Branch): set<string> {
    countries.Keys + if none.count > 0 then {""} else {}
  }

  lemma TopNodesOnce(countries: map<string, Branch>, none: Branch, facets: PlaceFacets)
    requires "" !in countries && EachOnce(facets.countries, countries.Keys)
    requires facets.noCountry.Some? <==> none.count > 0
    requires facets.noCountry.Some? ==> facets.noCountry.value.filter == CountryFilter("")
    ensures EachOnce(TopNodes(facets), TopKeys(countries, none))
  {
    hide EachOnce;
    if facets.noCountry.Some? {
      OnceMore(facets.countries, countries.Keys, facets.noCountry.value, "");
    } else {
      assert TopNodes(facets) == facets.countries && TopKeys(countries, none) == countries.Keys;
    }
  }

  /** Every filter is counted as it should be, at the country it names. */
  lemma FilterIsDue(countries: map<string, Branch>, none: Branch, facets: PlaceFacets,
                    rows: PlaceFilter -> nat, others: PlaceFilter -> nat, f: PlaceFilter)
    requires Countries(countries, rows) && NodesOf(facets.countries, countries.Keys, rows)
    requires Holds(none, "", others) && (none.count == 0 ==> none == EMPTY)
             && (facets.noCountry.Some? <==> none.count > 0)
    requires facets.noCountry.Some? ==>
               && facets.noCountry.value.filter == CountryFilter("")
               && forall f :: CountsIn(facets.noCountry.value, f) == CountryCounts(none, "", f)
    ensures CountsOf(TopNodes(facets), f) ==
            if f.country.None? then [] else if f.country.value == "" then Due(f, others(f)) else Due(f, rows(f))
  {
    hide Holds, CountsIn, CountryCounts, CountsOf, EachOnce;
    var nodes := facets.countries;
    assert CountsOf(nodes, f) == if f.country.Some? && f.country.value in countries then Due(f, rows(f)) else [];
    if f.country.Some? && f.country.value != "" && f.country.value !in countries {
      NothingInCountry(countries, rows, f);
    }
    hide Due, NodesOf, Countries;
    if facets.noCountry.Some? {
      CountsAppend(nodes, [facets.noCountry.value], f);
      CountsOne(facets.noCountry.value, f);
      if f.country == Some("") {
        CountryIsDue(none, "", others, f);
      } else {
        NotOfCountry(none, "", f);
      }
    } else {
      assert TopNodes(facets) == nodes;
      if f.country == Some("") {
        NothingHeld("", others, f);
      }
    }
  }

  // ---------------------------------------------------------------- the top adds up

  /** How many of the nodes select a place. */
  function Picks(nodes: seq<PlaceNode>, place: Place): nat {
    if nodes == [] then 0
    else Picks(nodes[..|nodes| - 1], place) + if Selects(nodes[|nodes| - 1].filter, place) then 1 else 0
  }

  lemma {:induction false} NobodyPicks(nodes: seq<PlaceNode>, place: Place)
    requires forall i | 0 <= i < |nodes| :: !Selects(nodes[i].filter, place)
    ensures Picks(nodes, place) == 0
  {
    if nodes != [] {
      NobodyPicks(nodes[..|nodes| - 1], place);
    }
  }

  lemma {:induction false} OnePicks(nodes: seq<PlaceNode>, place: Place, at: nat)
    requires at < |nodes| && forall i | 0 <= i < |nodes| :: Selects(nodes[i].filter, place) <==> i == at
    ensures Picks(nodes, place) == 1
  {
    if at == |nodes| - 1 {
      NobodyPicks(nodes[..|nodes| - 1], place);
    } else {
      OnePicks(nodes[..|nodes| - 1], place, at);
    }
  }

  function SumSelected(nodes: seq<PlaceNode>, view: seq<Place>): nat {
    if nodes == [] then 0 else SumSelected(nodes[..|nodes| - 1], view) + Selected(view, nodes[|nodes| - 1].filter)
  }

  lemma {:induction false} OnePlaceMore(nodes: seq<PlaceNode>, view: seq<Place>, place: Place)
    ensures SumSelected(nodes, view + [place]) == SumSelected(nodes, view) + Picks(nodes, place)
  {
    if nodes != [] {
      var f := nodes[|nodes| - 1].filter;
      OnePlaceMore(nodes[..|nodes| - 1], view, place);
      assert (view + [place])[..|view|] == view;
    }
  }

  lemma {:induction false} NoPlaces(nodes: seq<PlaceNode>)
    ensures SumSelected(nodes, []) == 0
  {
    if nodes != [] {
      NoPlaces(nodes[..|nodes| - 1]);
    }
  }

  /** When every place anywhere is selected by one node, the nodes together select the places that are anywhere. */
  lemma {:induction false} EachIsCountedOnce(nodes: seq<PlaceNode>, view: seq<Place>)
    requires forall place | place in view :: Picks(nodes, place) == if Anywhere(place) then 1 else 0
    ensures SumSelected(nodes, view) == CountWhere(view, Anywhere)
  {
    if view == [] {
      NoPlaces(nodes);
    } else {
      var front, last := view[..|view| - 1], view[|view| - 1];
      assert view == front + [last] && last in view;
      EachIsCountedOnce(nodes, front);
      OnePlaceMore(nodes, front, last);
    }
  }

  lemma {:induction false} SumIsSelected(nodes: seq<PlaceNode>, view: seq<Place>)
    requires forall i | 0 <= i < |nodes| :: nodes[i].count == Selected(view, nodes[i].filter)
    ensures SumOf(nodes) == SumSelected(nodes, view)
  {
    if nodes != [] {
      SumIsSelected(nodes[..|nodes| - 1], view);
    }
  }

  lemma KeyOfNode(nodes: seq<PlaceNode>, keys: set<string>, i: nat) returns (c: string)
    requires EachOnce(nodes, keys) && i < |nodes|
    ensures c in keys && nodes[i].filter == CountryFilter(c)
  {
    assert IsCountryOf(nodes[i], keys);
    c := nodes[i].filter.country.value;
  }

  /** The node at the top that selects a place. */
  lemma OneTopNode(nodes: seq<PlaceNode>, keys: set<string>, place: Place)
    requires EachOnce(nodes, keys) && KeysOk(place)
    requires Anywhere(place) ==> KeyOr(place.country) in keys
    ensures Picks(nodes, place) == if Anywhere(place) then 1 else 0
  {
    var key := KeyOr(place.country);
    forall c ensures Selects(CountryFilter(c), place) <==> Anywhere(place) && c == key {
    }
    hide Selects, Picks;
    if Anywhere(place) {
      var n :| n in nodes && n.filter == CountryFilter(key);
      var at :| 0 <= at < |nodes| && nodes[at] == n;
      forall i | 0 <= i < |nodes| ensures Selects(nodes[i].filter, place) <==> i == at {
        var c := KeyOfNode(nodes, keys, i);
      }
      OnePicks(nodes, place, at);
    } else {
      forall i | 0 <= i < |nodes| ensures !Selects(nodes[i].filter, place) {
        var c := KeyOfNode(nodes, keys, i);
      }
      NobodyPicks(nodes, place);
    }
  }

  /** A filter that selects a photo in view selects some. */
  lemma {:induction false} SelectsSome(view: seq<Place>, f: PlaceFilter, place: Place)
    requires place in view && Selects(f, place)
    ensures Selected(view, f) > 0
  {
    if place != view[|view| - 1] {
      assert place in view[..|view| - 1];
      SelectsSome(view[..|view| - 1], f, place);
    }
  }

  lemma TopAddsUp(view: seq<Place>, nodes: seq<PlaceNode>, keys: set<string>)
    requires forall place | place in view :: KeysOk(place)
    requires EachOnce(nodes, keys) && forall c :: c in keys <==> Selected(view, CountryFilter(c)) > 0
    requires forall i | 0 <= i < |nodes| :: nodes[i].count == Selected(view, nodes[i].filter)
    ensures SumOf(nodes) == CountWhere(view, Anywhere)
  {
    hide EachOnce, Selected, Picks, SumSelected, SumOf;
    forall place | place in view ensures Picks(nodes, place) == if Anywhere(place) then 1 else 0 {
      if Anywhere(place) {
        SelectsSome(view, CountryFilter(KeyOr(place.country)), place);
      }
      OneTopNode(nodes, keys, place);
    }
    EachIsCountedOnce(nodes, view);
    SumIsSelected(nodes, view);
  }

  /** What the queries, the branches and the nodes promise each other. */
  lemma FacetsAreFaithful(view: seq<Place>, rows: seq<Group>, countries: map<string, Branch>, others: seq<Group>,
                          none: Branch, facets: PlaceFacets)
    requires forall place | place in view :: KeysOk(place)
    requires Grouped(rows, view, HasCountry) && Grouped(others, view, NoCountry)
    requires Countries(countries, Totals(rows)) && NodesOf(facets.countries, countries.Keys, Totals(rows))
    requires Holds(none, "", Totals(others)) && (none.count == 0 ==> none == EMPTY)
             && (facets.noCountry.Some? <==> none.count > 0)
    requires facets.noCountry.Some? ==>
               && facets.noCountry.value.filter == CountryFilter("") && facets.noCountry.value.count == none.count
               && forall f :: CountsIn(facets.noCountry.value, f) == CountryCounts(none, "", f)
    requires facets.placed == Total(rows, ANY) + Total(others, ANY)
    ensures Faithful(view, facets)
  {
    hide NodesOf, Holds, Countries, CountsIn, CountsOf, Selects, CountWhere, Due, SumOf, EachOnce, CountryCounts;
    CountEither(view);
    forall f: PlaceFilter | f.country.Some?
      ensures Selected(view, f) == if f.country.value == "" then Totals(others)(f) else Totals(rows)(f)
    {
      SelectedFromRows(view, f);
    }
    hide Total, Totals, Selected, Both;
    forall f ensures CountsOf(TopNodes(facets), f) == Due(f, Selected(view, f)) {
      FilterIsDue(countries, none, facets, Totals(rows), Totals(others), f);
      if f.country.None? {
        DueNeedsCountry(f, Selected(view, f));
      }
    }
    TopNodesHold(view, countries, none, facets, Totals(rows), Totals(others));
    TopAddsUp(view, TopNodes(facets), TopKeys(countries, none));
  }

  lemma DueNeedsCountry(f: PlaceFilter, n: nat)
    requires f.country.None?
    ensures Due(f, n) == []
  {
  }

  lemma TopNodesHold(view: seq<Place>, countries: map<string, Branch>, none: Branch, facets: PlaceFacets,
                     rows: PlaceFilter -> nat, others: PlaceFilter -> nat)
    requires Countries(countries, rows) && NodesOf(facets.countries, countries.Keys, rows) && Holds(none, "", others)
    requires facets.noCountry.Some? <==> none.count > 0
    requires facets.noCountry.Some? ==>
               facets.noCountry.value.filter == CountryFilter("") && facets.noCountry.value.count == none.count
    requires forall f: PlaceFilter | f.country.Some? ::
               Selected(view, f) == if f.country.value == "" then others(f) else rows(f)
    ensures EachOnce(TopNodes(facets), TopKeys(countries, none))
    ensures forall c :: c in TopKeys(countries, none) <==> Selected(view, CountryFilter(c)) > 0
    ensures forall i | 0 <= i < |TopNodes(facets)| ::
              TopNodes(facets)[i].count == Selected(view, TopNodes(facets)[i].filter)
  {
    hide Due, CountsOf, Selected, EachOnce, NodesOf, Countries, Holds;
    NodesOfHold(facets.countries, countries.Keys, rows);
    NoEmptyKey(countries, rows);
    TopNodesOnce(countries, none, facets);
    CountOfCountry(none, "", others);
    forall i | 0 <= i < |facets.countries|
      ensures facets.countries[i].count == Selected(view, facets.countries[i].filter)
    {
      var c := KeyOfNode(facets.countries, countries.Keys, i);
      assert CountryFilter(c).country == Some(c) && c != "";
    }
    forall c ensures c in TopKeys(countries, none) <==> Selected(view, CountryFilter(c)) > 0 {
      assert CountryFilter(c).country == Some(c);
    }
  }

  lemma NodesOfHold(nodes: seq<PlaceNode>, done: set<string>, total: PlaceFilter -> nat)
    requires NodesOf(nodes, done, total)
    ensures EachOnce(nodes, done) && forall i | 0 <= i < |nodes| :: nodes[i].count == total(nodes[i].filter)
  {
  }

  lemma NoEmptyKey(countries: map<string, Branch>, total: PlaceFilter -> nat)
    requires Countries(countries, total)
    ensures "" !in countries && forall c | c != "" :: c in countries <==> total(CountryFilter(c)) > 0
  {
  }
}
