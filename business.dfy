/**
 * A business record (src/Business.py): its attributes, fixed when it is
 * built from a parsed record, and its mutable neighbour list, together with
 * the bounded k-slot search and the radius search over other businesses.
 */
module Businesses {
  import opened Wrappers
  import SlotSearch
  import Selection

  /** The fields of one parsed input record that the constructor reads. */
  datatype JsonRecord = JsonRecord(
    latitude: real,
    longitude: real,
    categories: seq<string>,
    stars: real,
    attributes: map<string, int>)

  /**
   * The great-circle distance, left abstract. Its arguments are passed in the
   * order `distance_to` passes them: own latitude, own longitude, other
   * latitude, other longitude.
   */
  type Metric = (real, real, real, real) -> real

  /** A metric that never returns a negative distance, as the haversine does not. */
  ghost predicate NonNegative(metric: Metric) {
    forall a, b, c, d :: metric(a, b, c, d) >= 0.0
  }

  class Business {
    const integerId: int
    const jsonAttrs: JsonRecord
    const latitude: real
    const longitude: real
    const categories: seq<string>
    const isRestaurant: bool
    const isFood: bool
    const rating: real
    const priceRange: int
    /** None until a search result is stored; then one entry per slot. */
    var nearestNeighbors: Option<seq<Option<Business>>>

    /**
     * Every fixed attribute is the one derived from the stored record: the
     * coordinates, categories and rating copied, the two flags as category
     * membership, the price level as the `RestaurantsPriceRange2` attribute
     * or 0 when it is absent.
     */
    ghost predicate FromRecord() {
      && latitude == jsonAttrs.latitude && longitude == jsonAttrs.longitude
      && categories == jsonAttrs.categories && rating == jsonAttrs.stars
      && (isRestaurant <==> "Restaurants" in jsonAttrs.categories)
      && (isFood <==> "Food" in jsonAttrs.categories)
      && ("RestaurantsPriceRange2" in jsonAttrs.attributes ==>
            priceRange == jsonAttrs.attributes["RestaurantsPriceRange2"])
      && ("RestaurantsPriceRange2" !in jsonAttrs.attributes ==> priceRange == 0)
    }

    /** Builds a business from a parsed record, deriving its flags and price level. */
    constructor (jsonObj: JsonRecord, integerId: int)
      ensures this.integerId == integerId && jsonAttrs == jsonObj
      ensures latitude == jsonObj.latitude && longitude == jsonObj.longitude
      ensures categories == jsonObj.categories && rating == jsonObj.stars
      ensures isRestaurant <==> "Restaurants" in jsonObj.categories
      ensures isFood <==> "Food" in jsonObj.categories
      ensures "RestaurantsPriceRange2" in jsonObj.attributes ==>
        priceRange == jsonObj.attributes["RestaurantsPriceRange2"]
      ensures "RestaurantsPriceRange2" !in jsonObj.attributes ==> priceRange == 0
      ensures FromRecord()
      ensures nearestNeighbors == None
    {
      this.integerId := integerId;
      jsonAttrs := jsonObj;
      latitude := jsonObj.latitude;
      longitude := jsonObj.longitude;
      categories := jsonObj.categories;
      isRestaurant := "Restaurants" in jsonObj.categories;
      isFood := "Food" in jsonObj.categories;
      rating := jsonObj.stars;
      if "RestaurantsPriceRange2" in jsonObj.attributes {
        priceRange := jsonObj.attributes["RestaurantsPriceRange2"];
      } else {
        priceRange := 0;
      }
      nearestNeighbors := None;
    }

    /** The distance to `other` under `metric`, from the fixed coordinates alone. */
    function DistanceTo(metric: Metric, other: Business): real {
      metric(latitude, longitude, other.latitude, other.longitude)
    }

    /** `DistanceTo` as a function of the other business. */
    function DistancesFrom(metric: Metric): Business -> real {
      (o: Business) => DistanceTo(metric, o)
    }

    /** Whether a business lies strictly inside `radius`. */
    function InRadius(metric: Metric, radius: real): Business -> bool {
      (o: Business) => DistanceTo(metric, o) < radius
    }

    /**
     * The bounded k-slot search: two arrays of length k, the slots (unset)
     * and their distances (inf); each candidate overwrites the first slot
     * whose distance is strictly greater than its own and stops there.
     */
    method FindKNearestNeighbors(metric: Metric, k: nat, otherBusinesses: seq<Business>)
      returns (nearest: seq<Option<Business>>)
      ensures nearest == SlotSearch.Neighbors(DistancesFrom(metric), k, otherBusinesses)
      ensures |nearest| == k
      ensures forall i :: 0 <= i < k && nearest[i].Some? ==> nearest[i].value in otherBusinesses
    {
      ghost var dist := DistancesFrom(metric);
      var nearestNeighbors := new Option<Business>[k](_ => None);
      var nearestNeighborsDist := new Option<real>[k](_ => None);
      assert SlotSearch.Slots(nearestNeighbors[..], nearestNeighborsDist[..])
        == SlotSearch.Scan(dist, k, otherBusinesses[..0]);
      var j := 0;
      while j < |otherBusinesses|
        invariant 0 <= j <= |otherBusinesses|
        invariant SlotSearch.Slots(nearestNeighbors[..], nearestNeighborsDist[..])
          == SlotSearch.Scan(dist, k, otherBusinesses[..j])
      {
        var o := otherBusinesses[j];
        var distBetween := DistanceTo(metric, o);
        ghost var before := SlotSearch.Slots(nearestNeighbors[..], nearestNeighborsDist[..]);
        var index := 0;
        while index < k
          invariant 0 <= index <= k
          invariant nearestNeighbors[..] == before.neighbors
          invariant nearestNeighborsDist[..] == before.dists
          invariant forall m :: 0 <= m < index ==> !SlotSearch.Exceeds(before.dists[m], distBetween)
        {
          if SlotSearch.Exceeds(nearestNeighborsDist[index], distBetween) {
            SlotSearch.FirstExceedingIs(before.dists, distBetween, index);
            nearestNeighbors[index] := Some(o);
            nearestNeighborsDist[index] := Some(distBetween);
            break;
          }
          index := index + 1;
        }
        assert otherBusinesses[..j + 1][..j] == otherBusinesses[..j];
        if index == k {
          SlotSearch.FirstExceedingIs(before.dists, distBetween, k);
        }
        assert SlotSearch.Slots(nearestNeighbors[..], nearestNeighborsDist[..])
          == SlotSearch.Offer(before, o, dist(o));
        j := j + 1;
      }
      assert otherBusinesses[..j] == otherBusinesses;
      nearest := nearestNeighbors[..];
      SlotSearch.NeighborsAreCandidates(dist, k, otherBusinesses);
    }

    /** Stores a search result; no other field changes (the others are fixed). */
    method SetNearestNeighbors(nearestNeighbors: seq<Option<Business>>)
      modifies this`nearestNeighbors
      ensures this.nearestNeighbors == Some(nearestNeighbors)
    {
      this.nearestNeighbors := Some(nearestNeighbors);
    }

    /**
     * The radius search: exactly the candidates strictly closer than
     * `radius`, in input order.
     */
    method FindNeighborsInRadius(metric: Metric, radius: real, otherBusinesses: seq<Business>)
      returns (neighbors: seq<Business>)
      ensures neighbors == Selection.Filter(InRadius(metric, radius), otherBusinesses)
      ensures forall o :: o in neighbors <==> o in otherBusinesses && DistanceTo(metric, o) < radius
    {
      neighbors := [];
      var j := 0;
      while j < |otherBusinesses|
        invariant 0 <= j <= |otherBusinesses|
        invariant neighbors == Selection.Filter(InRadius(metric, radius), otherBusinesses[..j])
      {
        var o := otherBusinesses[j];
        var distBetween := DistanceTo(metric, o);
        assert otherBusinesses[..j + 1][..j] == otherBusinesses[..j];
        if distBetween < radius {
          neighbors := neighbors + [o];
        }
        j := j + 1;
      }
      assert otherBusinesses[..j] == otherBusinesses;
      Selection.FilterMembership(InRadius(metric, radius), otherBusinesses);
    }
  }

  /**
   * The radius search result is the subsequence of the candidates at the
   * positions whose distance is strictly below the radius: in input order,
   * every such candidate, and no other.
   */
  lemma RadiusSearchSelectsStrictlyInside(self: Business, metric: Metric, radius: real, others: seq<Business>)
    ensures var idx := Selection.KeptIndices(self.InRadius(metric, radius), others);
      && var r := Selection.Filter(self.InRadius(metric, radius), others);
      && |idx| == |r|
      && Selection.StrictlyIncreasing(idx)
      && (forall i :: 0 <= i < |idx| ==> idx[i] < |others| && r[i] == others[idx[i]])
      && (forall j :: 0 <= j < |others| ==> (j in idx <==> self.DistanceTo(metric, others[j]) < radius))
  {
    Selection.FilterSelectsKeptPositions(self.InRadius(metric, radius), others);
  }

  /** With a non-negative metric, a radius of zero or less finds nothing. */
  lemma NonPositiveRadiusFindsNothing(self: Business, metric: Metric, radius: real, others: seq<Business>)
    requires NonNegative(metric) && radius <= 0.0
    ensures Selection.Filter(self.InRadius(metric, radius), others) == []
  {
    forall i | 0 <= i < |others|
      ensures !self.InRadius(metric, radius)(others[i])
    {
      assert metric(self.latitude, self.longitude, others[i].latitude, others[i].longitude) >= 0.0;
    }
    Selection.FilterRejectingAll(self.InRadius(metric, radius), others);
  }
}
