/** The region registry (`app/regions/registry.py`): region configurations by code, kept in
    registration order as a Python dictionary keeps its keys. */
module Registry {
  import opened Wrappers
  import opened RegionConfigs
  import Longueuil

  class RegionRegistry {
    var regions: map<string, RegionConfig>
    /** The codes in the order they were first registered. */
    var order: seq<string>

    /** `order` lists every registered code exactly once. */
    ghost predicate Valid()
      reads this
    {
      && (forall c :: c in regions <==> c in order)
      && (forall i, j :: 0 <= i < j < |order| ==> order[i] != order[j])
    }

    constructor()
      ensures Valid() && regions == map[] && order == []
    {
      regions := map[];
      order := [];
    }

    /** `register_region`: a new code goes last; registering a known code again replaces
        its configuration and keeps its place. */
    method RegisterRegion(code: string, config: RegionConfig)
      requires Valid()
      modifies this
      ensures Valid()
      ensures regions == old(regions)[code := config]
      ensures order == if code in old(regions) then old(order) else old(order) + [code]
    {
      if code !in regions {
        order := order + [code];
      }
      regions := regions[code := config];
    }

    /** `get_region`: the configuration, or `None` for an unknown code. */
    function GetRegion(code: string): (r: Option<RegionConfig>)
      reads this
      ensures r.None? <==> code !in regions
      ensures r.Some? ==> r.value == regions[code]
    {
      if code in regions then Some(regions[code]) else None
    }

    /** `list_regions`: the codes in registration order, each once. */
    function ListRegions(): (codes: seq<string>)
      requires Valid()
      reads this
      ensures forall c :: c in codes <==> c in regions
      ensures forall i, j :: 0 <= i < j < |codes| ==> codes[i] != codes[j]
    {
      order
    }

    /** `find_region_by_coordinates`: the first region, in registration order, whose
        non-empty bounds contain the point. */
    method FindRegionByCoordinates(latitude: real, longitude: real) returns (r: Option<string>)
      requires Valid()
      ensures r.Some? ==> exists k :: 0 <= k < |order| && order[k] == r.value
                            && Claims(regions[order[k]], latitude, longitude)
                            && forall j :: 0 <= j < k ==> !Claims(regions[order[j]], latitude, longitude)
      ensures r.None? ==> forall c :: c in regions ==> !Claims(regions[c], latitude, longitude)
    {
      var k := 0;
      while k < |order|
        invariant k <= |order|
        invariant forall j :: 0 <= j < k ==> !Claims(regions[order[j]], latitude, longitude)
      {
        var code := order[k];
        var bounds := BoundsOf(regions[code]);
        if bounds != map[] && InBounds(bounds, latitude, longitude) {
          return Some(code);
        }
        k := k + 1;
      }
      forall c | c in regions ensures !Claims(regions[c], latitude, longitude) {
        var j :| 0 <= j < |order| && order[j] == c;
      }
      return None;
    }
  }

  /** `initialize_regions`: registers Longueuil under "LNG". */
  method InitializeRegions(registry: RegionRegistry)
    requires registry.Valid()
    modifies registry
    ensures registry.Valid()
    ensures registry.regions == old(registry.regions)["LNG" := Longueuil.Config]
    ensures registry.order ==
              if "LNG" in old(registry.regions) then old(registry.order) else old(registry.order) + ["LNG"]
  {
    registry.RegisterRegion("LNG", Longueuil.Config);
  }

  /** On a fresh registry, the centre of Longueuil is found in "LNG" and a point in Quebec
      City is in no region. */
  method FindExample() returns (inside: Option<string>, outside: Option<string>)
    ensures inside == Some("LNG") && outside == None
  {
    var registry := new RegionRegistry();
    InitializeRegions(registry);
    assert registry.order == ["LNG"];
    Longueuil.WithinIsClaimed(45.5312, -73.5185);
    inside := registry.FindRegionByCoordinates(45.5312, -73.5185);
    Longueuil.WithinIsClaimed(46.8139, -71.2080);
    outside := registry.FindRegionByCoordinates(46.8139, -71.2080);
  }

  /** Registering a code twice keeps the second configuration and lists the code once;
      an unregistered code is not found. */
  method RegisterTwiceExample(code: string, other: string, first: RegionConfig, second: RegionConfig)
    returns (found: Option<RegionConfig>, missing: Option<RegionConfig>, codes: seq<string>)
    requires other != code
    ensures found == Some(second) && missing == None && codes == [code]
  {
    var registry := new RegionRegistry();
    registry.RegisterRegion(code, first);
    registry.RegisterRegion(code, second);
    found := registry.GetRegion(code);
    missing := registry.GetRegion(other);
    codes := registry.ListRegions();
  }
}
