/**
  The receipt service: the points a receipt earns (seven independent,
  additive rules) and the in-memory store of results keyed by receipt id.
 */
module Receipts {
  import opened JsText
  import opened Money

  datatype Item = Item(shortDescription: string, price: string)

  datatype Receipt = Receipt(
    retailer: string,
    purchaseDate: string,
    purchaseTime: string,
    items: seq<Item>,
    total: string)

  /** Minutes since midnight that open and close the afternoon window. */
  const AfternoonStart: int := 14 * 60
  const AfternoonEnd: int := 16 * 60

  predicate PricesWellFormed(items: seq<Item>) {
    forall i :: 0 <= i < |items| ==> IsMoneyText(items[i].price)
  }

  /** The amounts are money text, as the validator guarantees; the service
      reads them as numbers and scores nothing meaningful otherwise. */
  predicate AmountsWellFormed(r: Receipt) {
    IsMoneyText(r.total) && PricesWellFormed(r.items)
  }

  // ---------------------------------------------------------------------
  // The seven rules

  /** `s.replace(/[^a-zA-Z0-9]/g, "")`: the ASCII letters and digits of `s`, in order. */
  function KeepAlnum(s: string): (t: string)
    ensures |t| <= |s|
    ensures forall i :: 0 <= i < |t| ==> IsAlnum(t[i])
  {
    if s == [] then []
    else if IsAlnum(s[0]) then [s[0]] + KeepAlnum(s[1..])
    else KeepAlnum(s[1..])
  }

  /** Rule 1: one point per alphanumeric character of the retailer name. */
  function RetailerPoints(retailer: string): nat {
    |KeepAlnum(retailer)|
  }

  /** Rule 2: 50 points for a round-dollar total. */
  function RoundDollarPoints(total: string): nat {
    if EndsWith(total, ".00") || EndsWith(total, ".0") then 50 else 0
  }

  /** Rule 3: 25 points for a total that is a multiple of 0.25. */
  function QuarterPoints(total: string): nat
    requires IsMoneyText(total)
  {
    if Cents(total) % 25 == 0 then 25 else 0
  }

  /** Rule 4: 5 points for every two items. */
  function PairPoints(itemCount: nat): nat {
    itemCount / 2 * 5
  }

  /** The smallest whole number of points at least `cents / 500`:
      `Math.ceil(price * 0.2)` with the price in dollars. */
  function CeilFifth(cents: nat): (p: nat)
    ensures p * 500 >= cents
    ensures p == 0 || (p - 1) * 500 < cents
  {
    (cents + 499) / 500
  }

  /** Rule 5, for one item. */
  function ItemPoints(item: Item): nat
    requires IsMoneyText(item.price)
  {
    if |Trim(item.shortDescription)| % 3 == 0 then CeilFifth(Cents(item.price)) else 0
  }

  /** Rule 5: the sum of the item bonuses. */
  function DescriptionPoints(items: seq<Item>): nat
    requires PricesWellFormed(items)
  {
    if items == [] then 0
    else DescriptionPoints(items[..|items| - 1]) + ItemPoints(items[|items| - 1])
  }

  /** Rule 6: 6 points when the third `-`-separated part of the date parses to
      an odd number (JavaScript's `%`, so a negative day earns nothing). */
  function OddDayPoints(purchaseDate: string): nat {
    var parts := Split(purchaseDate, '-');
    if |parts| == 3 then
      match ParseInt(parts[2])
      case Some(day) => if TruncRem(day, 2) == 1 then 6 else 0
      case None => 0
    else 0
  }

  /** Rule 7: 10 points when `hours * 60 + minutes` lies in [14:00, 16:00). */
  function AfternoonPoints(purchaseTime: string): nat {
    var parts := Split(purchaseTime, ':');
    if |parts| == 2 then
      match (ParseInt(parts[0]), ParseInt(parts[1]))
      case (Some(hours), Some(minutes)) =>
        var t := hours * 60 + minutes;
        if AfternoonStart <= t < AfternoonEnd then 10 else 0
      case _ => 0
    else 0
  }

  /** The description rule over a prefix one item longer. */
  lemma DescriptionPointsStep(items: seq<Item>, i: nat)
    requires PricesWellFormed(items) && i < |items|
    ensures PricesWellFormed(items[..i]) && PricesWellFormed(items[..i + 1])
    ensures DescriptionPoints(items[..i + 1]) == DescriptionPoints(items[..i]) + ItemPoints(items[i])
  {
    assert items[..i + 1][..i] == items[..i];
  }

  /** The points of a receipt: the sum of the seven rules. */
  function Points(r: Receipt): nat
    requires AmountsWellFormed(r)
  {
    RetailerPoints(r.retailer)
    + RoundDollarPoints(r.total)
    + QuarterPoints(r.total)
    + PairPoints(|r.items|)
    + DescriptionPoints(r.items)
    + OddDayPoints(r.purchaseDate)
    + AfternoonPoints(r.purchaseTime)
  }

  /** `processReceipt`: accumulates the points rule by rule, the item bonus
      in a loop over the items; the date and time bonuses are the rule
      functions above, which take the same branches as the source. */
  method ProcessReceipt(receipt: Receipt) returns (points: int)
    requires AmountsWellFormed(receipt)
    ensures points == Points(receipt)
  {
    points := 0;
    points := points + |KeepAlnum(receipt.retailer)|;
    if EndsWith(receipt.total, ".00") || EndsWith(receipt.total, ".0") {
      points := points + 50;
    }
    if Cents(receipt.total) % 25 == 0 {
      points := points + 25;
    }
    points := points + |receipt.items| / 2 * 5;
    assert points == RetailerPoints(receipt.retailer) + RoundDollarPoints(receipt.total)
                     + QuarterPoints(receipt.total) + PairPoints(|receipt.items|);

    var items := receipt.items;
    ghost var beforeItems := points;
    var i := 0;
    while i < |items|
      invariant 0 <= i <= |items|
      invariant PricesWellFormed(items[..i])
      invariant points == beforeItems + DescriptionPoints(items[..i])
    {
      DescriptionPointsStep(items, i);
      var item := items[i];
      var trimmed := Trim(item.shortDescription);
      if |trimmed| % 3 == 0 {
        points := points + (Cents(item.price) + 499) / 500;
      }
      i := i + 1;
    }
    assert items[..i] == items;

    points := points + OddDayPoints(receipt.purchaseDate);
    points := points + AfternoonPoints(receipt.purchaseTime);
  }

  // ---------------------------------------------------------------------
  // What the rules mean

  /** The retailer rule keeps exactly the ASCII letters and digits: each one
      as often as it occurs in the name, every other character never. */
  lemma {:induction false} KeepAlnumCounts(s: string, c: char)
    ensures multiset(KeepAlnum(s))[c] == if IsAlnum(c) then multiset(s)[c] else 0
  {
    if s != [] {
      KeepAlnumCounts(s[1..], c);
      assert s == [s[0]] + s[1..];
      assert multiset(s) == multiset([s[0]]) + multiset(s[1..]);
    }
  }

  /** The retailer rule counts each part of a name separately. */
  lemma {:induction false} RetailerPointsAppend(a: string, b: string)
    ensures RetailerPoints(a + b) == RetailerPoints(a) + RetailerPoints(b)
  {
    if a == [] {
      assert a + b == b;
    } else {
      assert (a + b)[1..] == a[1..] + b;
      RetailerPointsAppend(a[1..], b);
    }
  }

  /** The two total rules together: a round-dollar total earns 75, another
      quarter multiple 25, anything else 0. */
  lemma TotalPoints(total: string)
    requires IsMoneyText(total)
    ensures RoundDollarPoints(total) + QuarterPoints(total) ==
            if Cents(total) % 100 == 0 then 75
            else if Cents(total) % 25 == 0 then 25
            else 0
  {
    RoundIffZeroCents(total);
  }

  /** The pair rule on small counts: 0 or 1 item earns 0, 2 or 3 earn 5,
      4 or 5 earn 10; each further pair adds 5. */
  lemma PairPointsSteps(n: nat)
    ensures PairPoints(0) == 0 && PairPoints(1) == 0
    ensures PairPoints(2) == 5 && PairPoints(3) == 5
    ensures PairPoints(4) == 10 && PairPoints(5) == 10
    ensures PairPoints(n + 2) == PairPoints(n) + 5
  {
  }

  /** A description that is all whitespace trims to length 0, a multiple of
      3, so the item still earns its price bonus. */
  lemma BlankDescriptionEarns(item: Item)
    requires IsMoneyText(item.price)
    requires AllSpace(item.shortDescription)
    ensures ItemPoints(item) == CeilFifth(Cents(item.price))
  {
    TrimEmptyIffAllSpace(item.shortDescription);
  }

  /** The description rule adds item by item. */
  lemma {:induction false} DescriptionPointsAppend(a: seq<Item>, b: seq<Item>)
    requires PricesWellFormed(a) && PricesWellFormed(b)
    ensures PricesWellFormed(a + b)
    ensures DescriptionPoints(a + b) == DescriptionPoints(a) + DescriptionPoints(b)
  {
    assert PricesWellFormed(a + b) by {
      forall i | 0 <= i < |a + b| ensures IsMoneyText((a + b)[i].price) {
        if i >= |a| { assert (a + b)[i] == b[i - |a|]; }
      }
    }
    if b == [] {
      assert a + b == a;
    } else {
      var b' := b[..|b| - 1];
      assert (a + b)[..|a + b| - 1] == a + b';
      assert (a + b)[|a + b| - 1] == b[|b| - 1];
      DescriptionPointsAppend(a, b');
    }
  }

  /** The afternoon rule on a time whose two colon-separated parts parse to
      an hour and a minute: 10 points exactly inside [14:00, 16:00). */
  lemma AfternoonOfParts(purchaseTime: string, hours: int, minutes: int)
    requires |Split(purchaseTime, ':')| == 2
    requires ParseInt(Split(purchaseTime, ':')[0]) == Some(hours)
    requires ParseInt(Split(purchaseTime, ':')[1]) == Some(minutes)
    ensures AfternoonPoints(purchaseTime) ==
            if AfternoonStart <= hours * 60 + minutes < AfternoonEnd then 10 else 0
  {
  }

  /** JavaScript's `day % 2 === 1` holds for exactly the positive odd days. */
  lemma OddRemainder(day: int)
    ensures TruncRem(day, 2) == 1 <==> day > 0 && day % 2 == 1
  {
  }

  // ---------------------------------------------------------------------
  // The result store

  /** The process-wide table of results: receipt id to points. */
  class ResultStore {
    var results: map<string, int>

    constructor ()
      ensures results == map[]
    {
      results := map[];
    }

    /** `getResult`: the stored points, or nothing for an unknown id. */
    function GetResult(id: string): (r: Option<int>)
      reads this
      ensures r.Some? <==> id in results
      ensures r.Some? ==> r.value == results[id]
    {
      if id in results then Some(results[id]) else None
    }

    /** `saveResult`: stores the points, floored to an integer, under an id
        that no stored result has yet, and returns that id. */
    method SaveResult(points: real, id: string) returns (saved: string)
      requires id !in results
      modifies this
      ensures saved == id && saved !in old(results)
      ensures results == old(results)[id := points.Floor]
      ensures GetResult(saved) == Some(points.Floor)
      ensures forall k :: k != saved ==> GetResult(k) == old(GetResult(k))
    {
      results := results[id := points.Floor];
      saved := id;
    }
  }

  /** Scoring a receipt, saving the score and looking it up again returns the
      score itself; the other stored results stay as they were. */
  method ScoreAndLookUp(store: ResultStore, receipt: Receipt, id: string)
    returns (points: int, found: Option<int>)
    requires AmountsWellFormed(receipt)
    requires id !in store.results
    modifies store
    ensures points == Points(receipt) && found == Some(points)
    ensures store.results == old(store.results)[id := points]
  {
    points := ProcessReceipt(receipt);
    var saved := store.SaveResult(points as real, id);
    found := store.GetResult(saved);
  }
}
