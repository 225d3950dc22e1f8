/**
 * The driver of src/main.py: the record filter of the loader over records
 * that are already parsed, the n-by-n distance matrix, and the batch loader
 * that stores a k-slot search result in every source business.
 */
module Loaders {
  import opened Wrappers
  import opened Businesses
  import SlotSearch
  import Selection

  // ---------------------------------------------------------------------
  // The record filter of load_businesses

  /** The guard as written: `restaurant_only and business.is_restaurant`. */
  function LoadGuard(restaurantOnly: bool): JsonRecord -> bool {
    (r: JsonRecord) => restaurantOnly && "Restaurants" in r.categories
  }

  /**
   * The guard the loader's docstring describes: "mark False if you want to
   * load all businesses, true if you want to load only food & drink
   * establishments". With the flag off every record is kept; with it on, the
   * code's own "Restaurants" test is kept, as one reading of "food & drink
   * establishments" (the "Food" category is another).
   */
  function DocumentedGuard(restaurantOnly: bool): JsonRecord -> bool {
    (r: JsonRecord) => !restaurantOnly || "Restaurants" in r.categories
  }

  /**
   * The filter loop of load_businesses over parsed records, as written: a
   * business is built for every record with the current counter as its id,
   * kept when the guard holds, and the counter advances only on a kept one.
   */
  method LoadBusinesses(restaurantOnly: bool, records: seq<JsonRecord>)
    returns (businessArray: seq<Business>)
    ensures |businessArray| == |Selection.Filter(LoadGuard(restaurantOnly), records)|
    ensures forall i :: 0 <= i < |businessArray| ==>
      && businessArray[i].integerId == i
      && businessArray[i].jsonAttrs == Selection.Filter(LoadGuard(restaurantOnly), records)[i]
      && businessArray[i].FromRecord()
      && businessArray[i].isRestaurant
      && businessArray[i].nearestNeighbors == None
      && fresh(businessArray[i])
    ensures !restaurantOnly ==> businessArray == []
  {
    var lineCount := 0;
    businessArray := [];
    var j := 0;
    while j < |records|
      invariant 0 <= j <= |records|
      invariant lineCount == |businessArray|
      invariant |businessArray| == |Selection.Filter(LoadGuard(restaurantOnly), records[..j])|
      invariant forall i :: 0 <= i < |businessArray| ==>
        && businessArray[i].integerId == i
        && businessArray[i].jsonAttrs == Selection.Filter(LoadGuard(restaurantOnly), records[..j])[i]
        && businessArray[i].FromRecord()
        && businessArray[i].isRestaurant
        && businessArray[i].nearestNeighbors == None
        && fresh(businessArray[i])
      invariant !restaurantOnly ==> businessArray == []
    {
      var business := new Business(records[j], lineCount);
      assert records[..j + 1][..j] == records[..j];
      if restaurantOnly && business.isRestaurant {
        businessArray := businessArray + [business];
        lineCount := lineCount + 1;
      }
      j := j + 1;
    }
    assert records[..j] == records;
  }

  /** As written, turning the flag off loads no business at all. */
  lemma AllBusinessesFlagLoadsNothing(records: seq<JsonRecord>)
    ensures Selection.Filter(LoadGuard(false), records) == []
  {
    Selection.FilterRejectingAll(LoadGuard(false), records);
  }

  /**
   * With the flag on, the loader keeps exactly the restaurant records, in
   * input order.
   */
  lemma RestaurantFlagKeepsRestaurantsInOrder(records: seq<JsonRecord>)
    ensures var idx := Selection.KeptIndices(LoadGuard(true), records);
      && var r := Selection.Filter(LoadGuard(true), records);
      && |idx| == |r|
      && Selection.StrictlyIncreasing(idx)
      && (forall i :: 0 <= i < |idx| ==> idx[i] < |records| && r[i] == records[idx[i]])
      && (forall j :: 0 <= j < |records| ==> (j in idx <==> "Restaurants" in records[j].categories))
  {
    Selection.FilterSelectsKeptPositions(LoadGuard(true), records);
  }

  /**
   * The documented guard loads every record with the flag off; with the flag
   * on it keeps the code's "Restaurants" test, so there it agrees with the
   * guard as written.
   */
  lemma DocumentedGuardLoadsAsDescribed(records: seq<JsonRecord>)
    ensures Selection.Filter(DocumentedGuard(false), records) == records
    ensures Selection.Filter(DocumentedGuard(true), records) == Selection.Filter(LoadGuard(true), records)
  {
    Selection.FilterAcceptingAll(DocumentedGuard(false), records);
    Selection.FilterAgreeingGuards(DocumentedGuard(true), LoadGuard(true), records);
  }

  /**
   * The filter loop with the documented guard `not restaurant_only or
   * business.is_restaurant`: with the flag off every record becomes a
   * business, numbered by its position.
   */
  method LoadBusinessesAsDocumented(restaurantOnly: bool, records: seq<JsonRecord>)
    returns (businessArray: seq<Business>)
    ensures |businessArray| == |Selection.Filter(DocumentedGuard(restaurantOnly), records)|
    ensures forall i :: 0 <= i < |businessArray| ==>
      && businessArray[i].integerId == i
      && businessArray[i].jsonAttrs == Selection.Filter(DocumentedGuard(restaurantOnly), records)[i]
      && businessArray[i].FromRecord()
      && (restaurantOnly ==> businessArray[i].isRestaurant)
      && businessArray[i].nearestNeighbors == None
      && fresh(businessArray[i])
    ensures !restaurantOnly ==>
      |businessArray| == |records| && forall i :: 0 <= i < |records| ==> businessArray[i].jsonAttrs == records[i]
  {
    var lineCount := 0;
    businessArray := [];
    var j := 0;
    while j < |records|
      invariant 0 <= j <= |records|
      invariant lineCount == |businessArray|
      invariant |businessArray| == |Selection.Filter(DocumentedGuard(restaurantOnly), records[..j])|
      invariant forall i :: 0 <= i < |businessArray| ==>
        && businessArray[i].integerId == i
        && businessArray[i].jsonAttrs == Selection.Filter(DocumentedGuard(restaurantOnly), records[..j])[i]
        && businessArray[i].FromRecord()
        && (restaurantOnly ==> businessArray[i].isRestaurant)
        && businessArray[i].nearestNeighbors == None
        && fresh(businessArray[i])
    {
      var business := new Business(records[j], lineCount);
      assert records[..j + 1][..j] == records[..j];
      if !restaurantOnly || business.isRestaurant {
        businessArray := businessArray + [business];
        lineCount := lineCount + 1;
      }
      j := j + 1;
    }
    assert records[..j] == records;
    DocumentedGuardLoadsAsDescribed(records);
  }

  // ---------------------------------------------------------------------
  // The distance matrix

  /**
   * The n-by-n distance matrix, filled over the upper triangle (diagonal
   * included) and mirrored into the lower one.
   */
  method LoadBusinessDistanceMatrix(metric: Metric, businessArray: seq<Business>)
    returns (distanceMatrix: array2<real>)
    ensures fresh(distanceMatrix)
    ensures distanceMatrix.Length0 == |businessArray| && distanceMatrix.Length1 == |businessArray|
    ensures forall i, j :: 0 <= i < |businessArray| && 0 <= j < |businessArray| ==>
      distanceMatrix[i, j] == distanceMatrix[j, i]
    ensures forall i, j :: 0 <= i <= j < |businessArray| ==>
      distanceMatrix[i, j] == businessArray[i].DistanceTo(metric, businessArray[j])
  {
    var n := |businessArray|;
    distanceMatrix := new real[n, n]((_, _) => 0.0);
    for i := 0 to n
      invariant forall p, q :: 0 <= p < i && p <= q < n ==>
        distanceMatrix[p, q] == businessArray[p].DistanceTo(metric, businessArray[q])
      invariant forall p, q :: 0 <= p < i && p <= q < n ==> distanceMatrix[q, p] == distanceMatrix[p, q]
    {
      for j := i to n
        invariant forall p, q :: 0 <= p < i && p <= q < n ==>
          distanceMatrix[p, q] == businessArray[p].DistanceTo(metric, businessArray[q])
        invariant forall p, q :: 0 <= p < i && p <= q < n ==> distanceMatrix[q, p] == distanceMatrix[p, q]
        invariant forall q :: i <= q < j ==>
          distanceMatrix[i, q] == businessArray[i].DistanceTo(metric, businessArray[q])
        invariant forall q :: i <= q < j ==> distanceMatrix[q, i] == distanceMatrix[i, q]
      {
        distanceMatrix[i, j] := businessArray[i].DistanceTo(metric, businessArray[j]);
        distanceMatrix[j, i] := distanceMatrix[i, j];
      }
    }
  }

  // ---------------------------------------------------------------------
  // The batch neighbour loader

  /** The search result the loader stores for `b`. */
  function KNearestOf(metric: Metric, k: nat, b: Business, targetArray: seq<Business>): seq<Option<Business>> {
    SlotSearch.Neighbors(b.DistancesFrom(metric), k, targetArray)
  }

  /**
   * Runs the k-slot search for every source business against the target
   * businesses and stores the result in that business. Only the neighbour
   * lists of the sources change; since the search reads only the fixed
   * coordinates, this holds also when the sources are among the targets.
   */
  method LoadKNeighborsForBusinesses(metric: Metric, k: nat, sourceArray: seq<Business>, targetArray: seq<Business>)
    modifies set b | b in sourceArray
    ensures forall b :: b in sourceArray ==> b.nearestNeighbors == Some(KNearestOf(metric, k, b, targetArray))
  {
    var i := 0;
    while i < |sourceArray|
      invariant 0 <= i <= |sourceArray|
      invariant forall p :: 0 <= p < i ==>
        sourceArray[p].nearestNeighbors == Some(KNearestOf(metric, k, sourceArray[p], targetArray))
    {
      var business := sourceArray[i];
      var nearestNeighbors := business.FindKNearestNeighbors(metric, k, targetArray);
      business.SetNearestNeighbors(nearestNeighbors);
      i := i + 1;
    }
  }

  /**
   * Idempotence: once every source holds the result of a run, running the
   * loader again with the same inputs stores the very same lists.
   */
  method RerunChangesNothing(metric: Metric, k: nat, sourceArray: seq<Business>, targetArray: seq<Business>)
    requires forall b :: b in sourceArray ==> b.nearestNeighbors == Some(KNearestOf(metric, k, b, targetArray))
    modifies set b | b in sourceArray
    ensures forall b :: b in sourceArray ==> b.nearestNeighbors == old(b.nearestNeighbors)
  {
    LoadKNeighborsForBusinesses(metric, k, sourceArray, targetArray);
  }

  /** With no target businesses every source receives k unset slots. */
  lemma EmptyTargetsGiveUnsetSlots(metric: Metric, k: nat, b: Business)
    ensures KNearestOf(metric, k, b, []) == seq(k, _ => None)
  {
    SlotSearch.DegenerateScans(b.DistancesFrom(metric), k, []);
  }
}
