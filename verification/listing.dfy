/** Catalogue entries and the "Sort by" view of the filtered catalogue (Home.jsx). */
module Listing {

  /** One catalogue entry as the catalogue service returns it. Prices and sizes are
      JavaScript numbers in Home.jsx; the model keeps them as integers. */
  datatype Property = Property(
    id: string,
    title: string,
    price: int,
    location: string,
    bedrooms: int,
    bathrooms: int,
    sizeSqft: int,
    amenities: seq<string>,
    imageUrl: string)

  /** The options of the "Sort by" select; any other value of the select's state,
      the empty string of "None" included, falls to the comparator's default case. */
  datatype SortOption = Unsorted | PriceAsc | PriceDesc | SizeAsc | SizeDesc

  function ParseSortOption(option: string): (r: SortOption)
    ensures r == PriceAsc <==> option == "price-asc"
    ensures r == PriceDesc <==> option == "price-desc"
    ensures r == SizeAsc <==> option == "size-asc"
    ensures r == SizeDesc <==> option == "size-desc"
  {
    if option == "price-asc" then PriceAsc
    else if option == "price-desc" then PriceDesc
    else if option == "size-asc" then SizeAsc
    else if option == "size-desc" then SizeDesc
    else Unsorted
  }

  /** The number each option orders by, smallest first. Descending orders negate the field;
      the default case gives every entry the same key. */
  function Key(option: SortOption, p: Property): int
  {
    match option
    case Unsorted => 0
    case PriceAsc => p.price
    case PriceDesc => -p.price
    case SizeAsc => p.sizeSqft
    case SizeDesc => -p.sizeSqft
  }

  /** The comparator handed to `Array.prototype.sort`: negative keeps `a` first,
      positive puts `b` first, zero leaves the pair in input order. */
  function Comparator(option: SortOption, a: Property, b: Property): (r: int)
    ensures r == Key(option, a) - Key(option, b)
  {
    match option
    case PriceAsc => a.price - b.price
    case PriceDesc => b.price - a.price
    case SizeAsc => a.sizeSqft - b.sizeSqft
    case SizeDesc => b.sizeSqft - a.sizeSqft
    case Unsorted => 0
  }

  /** `s` is ordered by the comparator: no later entry compares below an earlier one. */
  ghost predicate SortedBy(option: SortOption, s: seq<Property>)
  {
    forall i, j :: 0 <= i < j < |s| ==> Key(option, s[i]) <= Key(option, s[j])
  }

  /** The entries of `s` whose key is `k`, in their order in `s`. A sort is stable exactly
      when it leaves every such subsequence unchanged. */
  ghost function WithKey(option: SortOption, s: seq<Property>, k: int): seq<Property>
  {
    if |s| == 0 then []
    else (if Key(option, s[0]) == k then [s[0]] else []) + WithKey(option, s[1..], k)
  }

  /** Places `p` in front of the first entry of `s` that does not compare below it. */
  function Insert(option: SortOption, p: Property, s: seq<Property>): (r: seq<Property>)
    ensures multiset(r) == multiset(s) + multiset{p}
  {
    if |s| == 0 then [p]
    else if Comparator(option, p, s[0]) <= 0 then [p] + s
    else
      assert s == [s[0]] + s[1..];
      [s[0]] + Insert(option, p, s[1..])
  }

  lemma WithKeyCons(option: SortOption, x: Property, t: seq<Property>, k: int)
    ensures WithKey(option, [x] + t, k) == (if Key(option, x) == k then [x] else []) + WithKey(option, t, k)
  {
    assert ([x] + t)[1..] == t;
  }

  /** A bound below `p` and every entry of `s` stays below every entry after insertion. */
  lemma {:induction false} InsertKeepsLowerBound(option: SortOption, p: Property, s: seq<Property>, b: int)
    requires b <= Key(option, p)
    requires forall i :: 0 <= i < |s| ==> b <= Key(option, s[i])
    ensures forall j :: 0 <= j < |Insert(option, p, s)| ==> b <= Key(option, Insert(option, p, s)[j])
  {
    if |s| > 0 && Comparator(option, p, s[0]) > 0 {
      InsertKeepsLowerBound(option, p, s[1..], b);
    }
  }

  lemma {:induction false} InsertSorted(option: SortOption, p: Property, s: seq<Property>)
    requires SortedBy(option, s)
    ensures SortedBy(option, Insert(option, p, s))
  {
    if |s| > 0 && Comparator(option, p, s[0]) > 0 {
      InsertSorted(option, p, s[1..]);
      InsertKeepsLowerBound(option, p, s[1..], Key(option, s[0]));
    }
  }

  lemma {:induction false} InsertStable(option: SortOption, p: Property, s: seq<Property>, k: int)
    ensures WithKey(option, Insert(option, p, s), k)
            == (if Key(option, p) == k then [p] else []) + WithKey(option, s, k)
  {
    if |s| == 0 {
    } else if Comparator(option, p, s[0]) <= 0 {
      WithKeyCons(option, p, s, k);
    } else {
      var rest := Insert(option, p, s[1..]);
      var front := if Key(option, s[0]) == k then [s[0]] else [];
      var mine := if Key(option, p) == k then [p] else [];
      assert Insert(option, p, s) == [s[0]] + rest;
      WithKeyCons(option, s[0], rest, k);
      InsertStable(option, p, s[1..], k);
      assert s == [s[0]] + s[1..];
      WithKeyCons(option, s[0], s[1..], k);
      // `p` goes after `s[0]` only when its key is larger, so at most one of them has key `k`
      SwapWhenOneEmpty(front, mine, WithKey(option, s[1..], k));
    }
  }

  lemma SwapWhenOneEmpty<T>(x: seq<T>, y: seq<T>, w: seq<T>)
    requires x == [] || y == []
    ensures x + (y + w) == y + (x + w)
  {
  }

  /** `[...filtered].sort(comparator)`: a new, stably sorted array; the input is a value and
      is therefore left as it was. */
  function SortCopy(option: SortOption, s: seq<Property>): (r: seq<Property>)
    ensures multiset(r) == multiset(s)
    ensures SortedBy(option, r)
    ensures forall k :: WithKey(option, r, k) == WithKey(option, s, k)
  {
    if |s| == 0 then []
    else
      assert s == [s[0]] + s[1..];
      var tail := SortCopy(option, s[1..]);
      InsertSorted(option, s[0], tail);
      assert forall k :: WithKey(option, Insert(option, s[0], tail), k) == WithKey(option, s, k) by {
        forall k ensures WithKey(option, Insert(option, s[0], tail), k) == WithKey(option, s, k) {
          InsertStable(option, s[0], tail, k);
        }
      }
      Insert(option, s[0], tail)
  }

  /** The list the property grid renders for the select's current value. */
  function Displayed(sortOption: string, filtered: seq<Property>): (r: seq<Property>)
    ensures multiset(r) == multiset(filtered)
    ensures SortedBy(ParseSortOption(sortOption), r)
  {
    SortCopy(ParseSortOption(sortOption), filtered)
  }

  lemma {:induction false} WithKeyOfConstantKey(option: SortOption, s: seq<Property>, k: int)
    requires forall i :: 0 <= i < |s| ==> Key(option, s[i]) == k
    ensures WithKey(option, s, k) == s
  {
    if |s| > 0 {
      WithKeyOfConstantKey(option, s[1..], k);
      assert s == [s[0]] + s[1..];
    }
  }

  /** With "None" or any unknown option the comparator always answers 0, and the stable sort
      returns the catalogue in the order received. */
  lemma UnsortedKeepsOrder(sortOption: string, filtered: seq<Property>)
    requires ParseSortOption(sortOption) == Unsorted
    ensures Displayed(sortOption, filtered) == filtered
  {
    var r := Displayed(sortOption, filtered);
    assert forall i :: 0 <= i < |r| ==> r[i] in multiset(filtered);
    WithKeyOfConstantKey(Unsorted, r, 0);
    WithKeyOfConstantKey(Unsorted, filtered, 0);
  }

  lemma {:induction false} WithKeyMembers(option: SortOption, s: seq<Property>, k: int)
    ensures forall x :: x in WithKey(option, s, k) ==> x in s && Key(option, x) == k
  {
    if |s| > 0 {
      WithKeyMembers(option, s[1..], k);
    }
  }

  /** A non-empty sequence has at least one entry with the key of its first entry. */
  lemma WithKeyOfHead(option: SortOption, s: seq<Property>)
    ensures |s| > 0 ==> WithKey(option, s, Key(option, s[0])) != []
  {
  }

  /** Two ordered sequences that agree on the entries of every key start with the same
      entry: the first entry of each carries the least key of both. */
  lemma SortedHeadsAgree(option: SortOption, a: seq<Property>, b: seq<Property>)
    requires |a| > 0 && |b| > 0
    requires SortedBy(option, a) && SortedBy(option, b)
    requires forall k :: WithKey(option, a, k) == WithKey(option, b, k)
    ensures a[0] == b[0]
  {
    var ka, kb := Key(option, a[0]), Key(option, b[0]);
    assert WithKey(option, a, ka)[0] == a[0];
    WithKeyMembers(option, b, ka);
    assert WithKey(option, b, ka)[0] in b;
    assert kb <= ka;
    assert WithKey(option, b, kb)[0] == b[0];
    WithKeyMembers(option, a, kb);
    assert WithKey(option, a, kb)[0] in a;
  }

  /** Dropping a common first entry keeps the sequences in agreement on every key. */
  lemma WithKeyTails(option: SortOption, a: seq<Property>, b: seq<Property>)
    requires |a| > 0 && |b| > 0 && a[0] == b[0]
    requires forall k :: WithKey(option, a, k) == WithKey(option, b, k)
    ensures forall k :: WithKey(option, a[1..], k) == WithKey(option, b[1..], k)
  {
    forall k
      ensures WithKey(option, a[1..], k) == WithKey(option, b[1..], k)
    {
      var head := if Key(option, a[0]) == k then [a[0]] else [];
      assert a == [a[0]] + a[1..] && b == [b[0]] + b[1..];
      WithKeyCons(option, a[0], a[1..], k);
      WithKeyCons(option, b[0], b[1..], k);
      var wa, wb := WithKey(option, a[1..], k), WithKey(option, b[1..], k);
      assert head + wa == head + wb;
      assert wa == (head + wa)[|head|..] && wb == (head + wb)[|head|..];
    }
  }

  /** Two sequences ordered by the same key that agree on the entries of every key, in order,
      are equal. */
  lemma {:induction false} SortedStableUnique(option: SortOption, a: seq<Property>, b: seq<Property>)
    requires SortedBy(option, a) && SortedBy(option, b)
    requires forall k :: WithKey(option, a, k) == WithKey(option, b, k)
    ensures a == b
    decreases |a| + |b|
  {
    if |a| == 0 || |b| == 0 {
      WithKeyOfHead(option, a);
      WithKeyOfHead(option, b);
    } else {
      SortedHeadsAgree(option, a, b);
      WithKeyTails(option, a, b);
      SortedStableUnique(option, a[1..], b[1..]);
      assert a == [a[0]] + a[1..] && b == [b[0]] + b[1..];
    }
  }

  /** The model's sort is the only stable sort by the comparator: any ordered arrangement that
      keeps the entries of each key in input order is exactly `SortCopy`. So whatever stable
      algorithm the engine uses, the grid shows the same list. */
  lemma StableSortIsUnique(option: SortOption, s: seq<Property>, r: seq<Property>)
    requires SortedBy(option, r)
    requires forall k :: WithKey(option, r, k) == WithKey(option, s, k)
    ensures r == SortCopy(option, s)
  {
    SortedStableUnique(option, r, SortCopy(option, s));
  }

  /** What each of the four orders promises, stated on the fields themselves. */
  lemma SortDirections(sortOption: string, filtered: seq<Property>)
    ensures var r := Displayed(sortOption, filtered);
      forall i, j :: 0 <= i < j < |r| ==>
        && (sortOption == "price-asc" ==> r[i].price <= r[j].price)
        && (sortOption == "price-desc" ==> r[i].price >= r[j].price)
        && (sortOption == "size-asc" ==> r[i].sizeSqft <= r[j].sizeSqft)
        && (sortOption == "size-desc" ==> r[i].sizeSqft >= r[j].sizeSqft)
  {
    var r := Displayed(sortOption, filtered);
    forall i, j | 0 <= i < j < |r|
      ensures sortOption == "price-asc" ==> r[i].price <= r[j].price
      ensures sortOption == "price-desc" ==> r[i].price >= r[j].price
      ensures sortOption == "size-asc" ==> r[i].sizeSqft <= r[j].sizeSqft
      ensures sortOption == "size-desc" ==> r[i].sizeSqft >= r[j].sizeSqft
    {
      assert Key(ParseSortOption(sortOption), r[i]) <= Key(ParseSortOption(sortOption), r[j]);
    }
  }

}
