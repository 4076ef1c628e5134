/** The index state of the property carousel shown inside a bot message
    (PropertyCarousel.jsx). `len` is `properties.length`; the buttons exist only once the
    empty-list guard has passed, so both updates require a non-empty list. */
module Carousel {
  import opened Listing

  /** The "&gt;" button. */
  function Next(i: int, len: int): (r: int)
    requires len > 0
    ensures 0 <= i < len ==> 0 <= r < len && r == (i + 1) % len
  {
    if i == len - 1 then 0 else i + 1
  }

  /** The "&lt;" button. */
  function Prev(i: int, len: int): (r: int)
    requires len > 0
    ensures 0 <= i < len ==> 0 <= r < len && r == (i - 1) % len
  {
    if i == 0 then len - 1 else i - 1
  }

  /** What the component renders for a list and an index: nothing for an empty list (no
      index is read), the indexed property, or, for an index outside the list, the
      undefined entry whose `.id` read throws. */
  datatype View = Hidden | Showing(property: Property) | Broken

  function Render(properties: seq<Property>, index: int): (v: View)
    ensures |properties| == 0 <==> v == Hidden
    ensures v.Showing? ==> 0 <= index < |properties| && v.property == properties[index]
    ensures v == Broken <==> |properties| > 0 && !(0 <= index < |properties|)
  {
    if |properties| == 0 then Hidden
    else if 0 <= index < |properties| then Showing(properties[index])
    else Broken
  }

  datatype Click = PrevClick | NextClick

  /** The index after a sequence of button clicks. */
  function Walk(i: int, len: int, clicks: seq<Click>): int
    requires len > 0
    decreases |clicks|
  {
    if |clicks| == 0 then i
    else
      var j := if clicks[0] == PrevClick then Prev(i, len) else Next(i, len);
      Walk(j, len, clicks[1..])
  }

  /** Starting inside the list, no sequence of clicks leaves it. */
  lemma {:induction false} WalkStaysInRange(i: int, len: int, clicks: seq<Click>)
    requires 0 <= i < len
    ensures 0 <= Walk(i, len, clicks) < len
    decreases |clicks|
  {
    if |clicks| > 0 {
      var j := if clicks[0] == PrevClick then Prev(i, len) else Next(i, len);
      WalkStaysInRange(j, len, clicks[1..]);
    }
  }

  /** From the initial index 0, the carousel of a non-empty list always shows an entry. */
  lemma ClicksNeverBreakRendering(properties: seq<Property>, clicks: seq<Click>)
    requires |properties| > 0
    ensures Render(properties, Walk(0, |properties|, clicks)).Showing?
  {
    WalkStaysInRange(0, |properties|, clicks);
  }

  /** The two buttons undo each other inside the list. */
  lemma PrevNextInverse(i: int, len: int)
    requires 0 <= i < len
    ensures Prev(Next(i, len), len) == i
    ensures Next(Prev(i, len), len) == i
  {
  }

  /** `k` presses of "next". */
  function NextTimes(i: int, len: int, k: nat): int
    requires len > 0
    decreases k
  {
    if k == 0 then i else NextTimes(Next(i, len), len, k - 1)
  }

  /** Pressing "next" k times from i, for k up to the end of the list, moves to i + k. */
  lemma {:induction false} NextTimesBeforeWrap(i: int, len: int, k: nat)
    requires 0 <= i && i + k < len
    ensures NextTimes(i, len, k) == i + k
    decreases k
  {
    if k > 0 {
      NextTimesBeforeWrap(i + 1, len, k - 1);
    }
  }

  lemma {:induction false} NextTimesAdd(i: int, len: int, a: nat, b: nat)
    requires len > 0
    ensures NextTimes(i, len, a + b) == NextTimes(NextTimes(i, len, a), len, b)
    decreases a
  {
    if a > 0 {
      NextTimesAdd(Next(i, len), len, a - 1, b);
    }
  }

  /** `len` presses of "next" return to the starting index. */
  lemma FullTurnReturns(i: int, len: int)
    requires 0 <= i < len
    ensures NextTimes(i, len, len) == i
  {
    var toEnd := len - 1 - i;
    NextTimesAdd(i, len, toEnd, 1 + i);
    NextTimesBeforeWrap(i, len, toEnd);
    NextTimesAdd(len - 1, len, 1, i);
    NextTimesBeforeWrap(0, len, i);
  }

  /** A one-entry carousel never moves. */
  lemma SingleEntryFixed(i: int)
    requires i == 0
    ensures Next(i, 1) == i && Prev(i, 1) == i
  {
  }
}
