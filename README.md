# Neighbour search over Yelp business records, in Dafny

This project models the neighbour-search core of a small Python analysis of
Yelp business records: the `Business` record with its derived flags and its
mutable neighbour list, the bounded k-slot nearest-neighbour scan, the radius
search, the batch loader that stores a k-slot result in each source business,
the n-by-n distance matrix, and the record filter of the loader that numbers
the kept businesses. The great-circle distance is left abstract.

Layout:

- `wrappers.dfy` — `Option`, used for Python's `None` and for numpy's `inf`.
- `selection.dfy` — `Selection.Filter`, the order-preserving selection shared
  by the radius search and the loader's record filter, with its lemmas.
- `slot_search.dfy` — `SlotSearch`, the k-slot scan as a function
  (`Scan`/`Neighbors`) of the candidates and a distance to each, with the
  scan's invariants and its exact and inexact cases.
- `business.dfy` — `Businesses`: the parsed record `JsonRecord`, the abstract
  `Metric`, and the class `Business` whose attributes are fixed (`const`) and
  whose `nearestNeighbors` is the one mutable field. `FindKNearestNeighbors`
  keeps the two parallel length-k arrays of the source and is proved equal to
  `SlotSearch.Neighbors`; `FindNeighborsInRadius` is proved equal to a
  `Filter`.
- `main.dfy` — `Loaders`: the filter/id loop of `load_businesses` over parsed
  records, `load_business_distance_matrix` over an `array2`, and
  `load_k_neighbors_for_businesses`.

Helpers without a contract of their own: `Business.FromRecord` states that
every fixed attribute is the one derived from the stored record (the
constructor ensures it, and both loaders promise it of every business they
return); `Business.DistanceTo` applies the
metric to (own latitude, own longitude, other latitude, other longitude), the
order in which `distance_to` passes them (src/Business.py:42);
`DistancesFrom` and `InRadius` turn it into a function of the other business;
`SlotSearch.Neighbors` is the slot half of `Scan`; `Loaders.KNearestOf` is
the result stored for one business; `Loaders.LoadGuard` is the guard of
src/main.py:22 as written and `Loaders.DocumentedGuard` the documented one.

Two consequences of the code are worth stating. With no target businesses
every source receives k unset slots (a list of k `None`s), not an empty list.
And a stored distance is at most the k-th smallest candidate distance when
the candidates arrive in non-decreasing order of distance
(`SortedCandidatesFillInOrder`), but not in general, even with every distance
finite: with k = 2 and candidates at distances 2, 10, 1, 3 the slots end as
[1, 3] (`StoredDistanceCanExceedKthSmallest`); and a closer candidate can
push an earlier one out while a slot is still free (`DisplacedNeighborIsLost`).

## Model

| member | source | states |
|---|---|---|
| `Businesses.Business.constructor` | src/Business.py:18-34 | id and record kept; is-restaurant iff "Restaurants" is a category, is-food iff "Food" is; price level is the `RestaurantsPriceRange2` attribute when present, else 0; neighbour list starts unset |
| `Businesses.Business.FindKNearestNeighbors` | src/Business.py:53-62 | the two-array loop with its break returns exactly the slots of the k-slot scan specification; k slots, each unset or one of the candidates |
| `Businesses.Business.SetNearestNeighbors` | src/Business.py:70 | the neighbour list becomes the argument; only that field may change |
| `Businesses.Business.FindNeighborsInRadius` | src/Business.py:77-82 | the append loop returns the input-order selection of candidates strictly inside the radius; a business is in the result iff it is a candidate with distance < radius |
| `Businesses.RadiusSearchSelectsStrictlyInside` | src/Business.py:77-82 | the result is the subsequence at increasing positions, taking every position whose distance is strictly below the radius and no other |
| `Businesses.NonPositiveRadiusFindsNothing` | src/Business.py:80 | with a non-negative metric a radius <= 0 gives the empty list |
| `SlotSearch.Unset` | src/Business.py:53-54 | k unset slots with distance inf |
| `SlotSearch.FirstExceeding` | src/Business.py:57-58 | the break index is the first slot whose distance strictly exceeds the candidate's, and k when there is none |
| `SlotSearch.FirstExceedingIs` | src/Business.py:57-58 | any index below which no slot exceeds and at which one does is the break index |
| `SlotSearch.Offer` | src/Business.py:56-61 | one candidate keeps the number of slots |
| `SlotSearch.OfferOverwritesFirstExceeding` | src/Business.py:57-61 | one candidate overwrites only the first slot whose distance strictly exceeds its own, with itself and its distance; every other slot and distance is unchanged |
| `SlotSearch.OfferOnlyLowers` | src/Business.py:58-60 | offering a candidate never raises a slot distance |
| `SlotSearch.Scan` | src/Business.py:53-61 | the scan always has k slots and k distances |
| `SlotSearch.OfferKeepsConsistent` | src/Business.py:57-60 | one candidate preserves the parallel-array invariant |
| `SlotSearch.ScanConsistent` | src/Business.py:53-61 | throughout the scan a slot is unset iff its distance is inf, a set slot holds a candidate and its true distance, and the distances are non-decreasing by index |
| `SlotSearch.ScanSortedAndPrefix` | src/Business.py:53-61 | the slot distances are sorted and the filled slots form a prefix |
| `SlotSearch.NeighborsAreCandidates` | src/Business.py:53-62 | exactly k slots are returned, each unset or an element of the candidates |
| `SlotSearch.DegenerateScans` | src/Business.py:53-55 | k = 0 gives the empty list; no candidates give k unset slots |
| `SlotSearch.ScanFillsAtMostOnePerCandidate` | src/Business.py:57-61 | with n candidates every slot from index n on stays unset |
| `SlotSearch.ScanOnlyLowers` | src/Business.py:55-60 | each slot distance only decreases as more candidates are scanned |
| `SlotSearch.ArgMin` | src/Business.py:58 | the earliest index of a candidate at minimum distance |
| `SlotSearch.SlotZeroIsEarliestMin` | src/Business.py:55-61 | with k > 0 and a candidate, slot 0 holds the earliest candidate of minimum distance, with that distance |
| `SlotSearch.SortedCandidatesFillInOrder` | src/Business.py:55-61 | candidates in non-decreasing distance order fill the slots in order: slot i is candidate i, later slots stay unset |
| `SlotSearch.DisplacedNeighborIsLost` | src/Business.py:57-61 | with k = 2 and candidates a then a closer b, the result is [b, unset]: a is lost although a slot is free |
| `SlotSearch.StoredDistanceCanExceedKthSmallest` | src/Business.py:55-61 | with k = 2 and finite distances 2, 10, 1, 3 the slots store distances [1, 3] and hold the third and fourth candidates, though the second smallest distance is 2 |
| `Selection.Filter` | src/Business.py:77-82 | the selection is no longer than its input |
| `Selection.FilterSelectsKeptPositions` | src/Business.py:78-81 | the selection is the subsequence at the increasing positions that the guard accepts, all of them |
| `Selection.FilterMembership` | src/Business.py:78-81 | a value is selected iff it occurs in the input and the guard accepts it |
| `Loaders.LoadBusinesses` | src/main.py:16-25 | the loaded businesses are fresh, built from the records the guard keeps, in order, with every derived field taken from that record, id equal to position, all restaurants, neighbour lists unset; with the flag off nothing is loaded |
| `Loaders.AllBusinessesFlagLoadsNothing` | src/main.py:22 | with `restaurant_only` false the guard as written keeps no record |
| `Loaders.RestaurantFlagKeepsRestaurantsInOrder` | src/main.py:19-24 | with the flag on exactly the records carrying "Restaurants" are kept, in input order |
| `Loaders.DocumentedGuardLoadsAsDescribed` | src/main.py:10-11 | the documented guard keeps every record with the flag off; with the flag on it keeps the code's "Restaurants" test, so it agrees with the written guard there |
| `Loaders.LoadBusinessesAsDocumented` | src/main.py:8-25 | the loop with the documented guard builds fresh businesses with every derived field taken from the record; with the flag off it loads every record, numbered by position |
| `Loaders.LoadBusinessDistanceMatrix` | src/main.py:36-42 | a fresh n-by-n matrix, symmetric, whose entry (i, j) for i <= j, the diagonal included, is the distance from business i to business j |
| `Loaders.LoadKNeighborsForBusinesses` | src/main.py:55-57 | every source business's neighbour list becomes its k-slot search over the targets, also when sources and targets are the same array; nothing but source businesses may change |
| `Loaders.RerunChangesNothing` | src/main.py:55-57 | running the loader again with the same inputs stores the same lists |
| `Loaders.EmptyTargetsGiveUnsetSlots` | src/Business.py:53-54 | with no targets the stored list is k unset slots |

## Findings

| source | as written | input that shows it | evidently intended | confidence | as-written member | corrected member |
|---|---|---|---|---|---|---|
| src/main.py:22 | the guard `restaurant_only and business.is_restaurant` keeps nothing when the flag is false | `restaurant_only=False` with any records, e.g. one record whose categories are ["Food"]: the result is [] | the docstring at src/main.py:10-11 reads "mark False if you want to load all businesses, true if you want to load only food & drink establishments"; the corrected guard loads every record when false and keeps the code's "Restaurants" test when true, as one reading of "food & drink establishments" (the "Food" category is another) | high; not executed | `Loaders.LoadBusinesses`, `Loaders.AllBusinessesFlagLoadsNothing` | `Loaders.LoadBusinessesAsDocumented`, `Loaders.DocumentedGuardLoadsAsDescribed` |

## Left out

- The haversine formula and float arithmetic (src/Business.py:86-100): the metric is an abstract total function on four reals, so symmetry, zero at identical points and the 111.19 km fixture are not stated. The argument order of `distance_to` (latitude first, into parameters named longitude first) is kept as passed.
- The docstring of `distance_to` names the Vincenty distance; the code uses the haversine. Both are outside the abstract metric.
- numpy's `inf` and NaN: `inf` is the `None` of an `Option<real>`; distances are exact reals, so NaN is not modelled.
- File reading and JSON parsing in `load_businesses` (src/main.py:18-20): the loop runs over already parsed records. A record with a missing field (Python raises a key error) is not modelled.
- `JsonRecord.attributes` holds integer values only; other JSON attribute values are not modelled. Categories are a list of labels, so "Restaurants" membership is list membership.
- `FindKNearestNeighbors`, `LoadKNeighborsForBusinesses`: k is a natural number; a negative k (where `[None] * k` is empty but `np.full` raises) is not modelled.
- `LoadKNeighborsForBusinesses`: its frame is the source businesses as whole objects; that only `nearestNeighbors` changes follows from every other field being `const`.
- `get_k_random_businesses` (src/main.py:60-66): it depends on random numbers and float rounding; `round(r * len)` can reach `len`, an index past the end.
- src/analyses.py: timing, printing, a global random seed and calls into analysis and plotting code that is not part of this model.
- The `__main__` block of src/main.py and the unused `nearest_neighbor` field (src/Business.py:35).
- An exact (heap-based) k-nearest search: the model follows the first-slot overwrite as written.
