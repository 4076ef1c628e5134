/** The compare list of the home page: id-deduplicated insertion, removal by id, the four
    per-column aggregates of the compare table and its highlight predicates (Home.jsx). */
module Compare {
  import opened Listing

  /** `list.some(item => item.id === id)` */
  predicate HasId(list: seq<Property>, id: string)
  {
    exists i :: 0 <= i < |list| && list[i].id == id
  }

  /** No two entries share an id. */
  predicate UniqueIds(list: seq<Property>)
  {
    forall i, j :: 0 <= i < j < |list| ==> list[i].id != list[j].id
  }

  /** The list update of `handleAddToCompare`: append unless the id is already listed. */
  function Add(list: seq<Property>, p: Property): (r: seq<Property>)
    ensures HasId(r, p.id)
    ensures HasId(list, p.id) ==> r == list
    ensures !HasId(list, p.id) ==> r == list + [p]
    ensures UniqueIds(list) ==> UniqueIds(r)
  {
    if HasId(list, p.id) then list
    else
      assert (list + [p])[|list|] == p;
      list + [p]
  }

  /** `list.filter(item => item.id !== id)` */
  function Remove(list: seq<Property>, id: string): (r: seq<Property>)
    ensures |r| <= |list|
    ensures forall x :: x in r <==> x in list && x.id != id
    ensures !HasId(r, id)
    ensures !HasId(list, id) ==> r == list
  {
    if |list| == 0 then []
    else
      assert list == [list[0]] + list[1..];
      (if list[0].id == id then [] else [list[0]]) + Remove(list[1..], id)
  }

  /** Removal works entry by entry, so it keeps the relative order of what it keeps. */
  lemma {:induction false} RemoveDistributes(a: seq<Property>, b: seq<Property>, id: string)
    ensures Remove(a + b, id) == Remove(a, id) + Remove(b, id)
  {
    if |a| == 0 {
      assert a + b == b;
    } else {
      var x, t := a[0], a[1..];
      assert a == [x] + t && a + b == [x] + (t + b);
      var head := if x.id == id then [] else [x];
      RemoveCons(x, t + b, id);
      RemoveCons(x, t, id);
      RemoveDistributes(t, b, id);
      Associative(head, Remove(t, id), Remove(b, id));
    }
  }

  lemma Associative<T>(x: seq<T>, y: seq<T>, z: seq<T>)
    ensures x + (y + z) == (x + y) + z
  {
  }

  lemma RemoveCons(x: Property, t: seq<Property>, id: string)
    ensures Remove([x] + t, id) == (if x.id == id then [] else [x]) + Remove(t, id)
  {
    assert ([x] + t)[0] == x && ([x] + t)[1..] == t;
  }

  /** On a single entry, removal keeps it exactly when its id differs. */
  lemma RemoveSingle(x: Property, id: string)
    ensures Remove([x], id) == (if x.id == id then [] else [x])
  {
    assert [x][1..] == [];
  }

  /** Adding a property that was not listed and then removing its id restores the list. */
  lemma AddThenRemove(list: seq<Property>, p: Property)
    requires !HasId(list, p.id)
    ensures Remove(Add(list, p), p.id) == list
  {
    RemoveDistributes(list, [p], p.id);
    assert Remove([p], p.id) == [];
  }

  /** Adding the same property twice is the same as adding it once. */
  lemma AddIdempotent(list: seq<Property>, p: Property)
    ensures Add(Add(list, p), p) == Add(list, p)
  {
  }

  /** `Math.min(...xs, 0)`: the least of the values and 0. */
  function MinWithZero(xs: seq<int>): (r: int)
    ensures r <= 0
    ensures forall i :: 0 <= i < |xs| ==> r <= xs[i]
    ensures r == 0 || r in xs
  {
    if |xs| == 0 then 0
    else
      var rest := MinWithZero(xs[1..]);
      assert rest != 0 ==> rest in xs;
      if xs[0] < rest then xs[0] else rest
  }

  /** `Math.max(...xs, 0)`: the greatest of the values and 0. */
  function MaxWithZero(xs: seq<int>): (r: int)
    ensures r >= 0
    ensures forall i :: 0 <= i < |xs| ==> r >= xs[i]
    ensures r == 0 || r in xs
  {
    if |xs| == 0 then 0
    else
      var rest := MaxWithZero(xs[1..]);
      assert rest != 0 ==> rest in xs;
      if xs[0] > rest then xs[0] else rest
  }

  function Prices(list: seq<Property>): (r: seq<int>)
    ensures |r| == |list| && forall i :: 0 <= i < |list| ==> r[i] == list[i].price
  {
    seq(|list|, i requires 0 <= i < |list| => list[i].price)
  }

  function Bedrooms(list: seq<Property>): (r: seq<int>)
    ensures |r| == |list| && forall i :: 0 <= i < |list| ==> r[i] == list[i].bedrooms
  {
    seq(|list|, i requires 0 <= i < |list| => list[i].bedrooms)
  }

  function Bathrooms(list: seq<Property>): (r: seq<int>)
    ensures |r| == |list| && forall i :: 0 <= i < |list| ==> r[i] == list[i].bathrooms
  {
    seq(|list|, i requires 0 <= i < |list| => list[i].bathrooms)
  }

  function Sizes(list: seq<Property>): (r: seq<int>)
    ensures |r| == |list| && forall i :: 0 <= i < |list| ==> r[i] == list[i].sizeSqft
  {
    seq(|list|, i requires 0 <= i < |list| => list[i].sizeSqft)
  }

  /** The aggregate Home.jsx names `maxPrice`; it is a minimum that includes 0. */
  function BestPrice(list: seq<Property>): int { MinWithZero(Prices(list)) }
  function BestBedrooms(list: seq<Property>): int { MaxWithZero(Bedrooms(list)) }
  function BestBathrooms(list: seq<Property>): int { MaxWithZero(Bathrooms(list)) }
  function BestSize(list: seq<Property>): int { MaxWithZero(Sizes(list)) }

  /** The `highlight` class of each cell of the compare table. */
  predicate PriceHighlighted(list: seq<Property>, i: int)
    requires 0 <= i < |list|
  {
    list[i].price == BestPrice(list)
  }

  predicate BedroomsHighlighted(list: seq<Property>, i: int)
    requires 0 <= i < |list|
  {
    list[i].bedrooms == BestBedrooms(list)
  }

  predicate BathroomsHighlighted(list: seq<Property>, i: int)
    requires 0 <= i < |list|
  {
    list[i].bathrooms == BestBathrooms(list)
  }

  predicate SizeHighlighted(list: seq<Property>, i: int)
    requires 0 <= i < |list|
  {
    list[i].sizeSqft == BestSize(list)
  }

  /** An empty compare list has every aggregate equal to 0. */
  lemma EmptyAggregatesAreZero()
    ensures BestPrice([]) == 0 && BestBedrooms([]) == 0
    ensures BestBathrooms([]) == 0 && BestSize([]) == 0
  {
  }

  /** The value at `i` equals the maximum-with-zero exactly when it is non-negative and no
      other value exceeds it. */
  lemma MaxWithZeroAttained(xs: seq<int>, i: int)
    requires 0 <= i < |xs|
    ensures xs[i] == MaxWithZero(xs) <==> xs[i] >= 0 && forall j :: 0 <= j < |xs| ==> xs[j] <= xs[i]
  {
  }

  /** The value at `i` equals the minimum-with-zero exactly when it is at most 0 and no
      other value is below it. */
  lemma MinWithZeroAttained(xs: seq<int>, i: int)
    requires 0 <= i < |xs|
    ensures xs[i] == MinWithZero(xs) <==> xs[i] <= 0 && forall j :: 0 <= j < |xs| ==> xs[i] <= xs[j]
  {
  }

  /** A bedroom cell is highlighted iff no listed property has more bedrooms and the count is
      not negative; equal maxima are all highlighted. The bathroom and size columns behave
      the same way. */
  lemma HighlightIsColumnMaximum(list: seq<Property>, i: int)
    requires 0 <= i < |list|
    ensures BedroomsHighlighted(list, i)
            <==> list[i].bedrooms >= 0 && forall j :: 0 <= j < |list| ==> list[j].bedrooms <= list[i].bedrooms
    ensures BathroomsHighlighted(list, i)
            <==> list[i].bathrooms >= 0 && forall j :: 0 <= j < |list| ==> list[j].bathrooms <= list[i].bathrooms
    ensures SizeHighlighted(list, i)
            <==> list[i].sizeSqft >= 0 && forall j :: 0 <= j < |list| ==> list[j].sizeSqft <= list[i].sizeSqft
  {
    MaxWithZeroAttained(Bedrooms(list), i);
    MaxWithZeroAttained(Bathrooms(list), i);
    MaxWithZeroAttained(Sizes(list), i);
  }

  /** A price cell is highlighted iff its price is at most 0 and no listed price is lower. */
  lemma PriceHighlightIsNonPositiveMinimum(list: seq<Property>, i: int)
    requires 0 <= i < |list|
    ensures PriceHighlighted(list, i)
            <==> list[i].price <= 0 && forall j :: 0 <= j < |list| ==> list[i].price <= list[j].price
  {
    MinWithZeroAttained(Prices(list), i);
  }

  /** Because 0 takes part in the minimum, a list of positive prices has best price 0 and no
      price cell is ever highlighted. */
  lemma NoPriceHighlightForPositivePrices(list: seq<Property>)
    requires forall j :: 0 <= j < |list| ==> list[j].price > 0
    ensures BestPrice(list) == 0
    ensures forall i :: 0 <= i < |list| ==> !PriceHighlighted(list, i)
  {
  }
}
