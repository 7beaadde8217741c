/**
  The request validators in front of the receipt service: the per-field
  format rules for a submitted receipt and its items, the range rule for a
  points value, and the outcome of the two middleware checks (continue to
  the handler, or reject with a status and a fixed message).
  A request body is a decoded JSON value; JSON numbers are modelled by their
  exact value as a `real`.
 */
module ReceiptsMiddleware {
  import opened JsText
  import opened Money
  import opened Receipts

  datatype Json =
    | JNull
    | JBool(b: bool)
    | JNumber(n: real)
    | JString(s: string)
    | JArray(elems: seq<Json>)
    | JObject(fields: map<string, Json>)

  const InvalidReceiptMessage: string := "The receipt is invalid."
  const InvalidIdMessage: string := "No receipt found for that ID."
  const HttpBadRequest: int := 400
  const HttpNotFound: int := 404
  /** `Number.MAX_SAFE_INTEGER`, 2^53 - 1. */
  const MaxSafeInteger: int := 9007199254740991

  /** What a middleware does with a request: hand it on, or answer it. */
  datatype Outcome = Next | Reject(status: int, error: string)

  // ---------------------------------------------------------------------
  // Field formats, one predicate per anchored regular expression

  /** `[\w\s\-&]` */
  predicate IsRetailerChar(c: char) { IsWordChar(c) || IsSpace(c) || c == '-' || c == '&' }

  /** `[\w\s-]` */
  predicate IsDescriptionChar(c: char) { IsWordChar(c) || IsSpace(c) || c == '-' }

  /** `^[\w\s\-&]+$` */
  predicate RetailerText(s: string) {
    |s| > 0 && forall i :: 0 <= i < |s| ==> IsRetailerChar(s[i])
  }

  /** `^\d{4}-\d{2}-\d{2}$`, with no calendar check. */
  predicate DateText(s: string) {
    |s| == 10 && AllDigits(s[..4]) && s[4] == '-' && AllDigits(s[5..7]) && s[7] == '-' && AllDigits(s[8..])
  }

  /** `[01]?[0-9]|2[0-3]` */
  predicate HourText(h: string) {
    (|h| == 1 && IsDigit(h[0])) ||
    (|h| == 2 && (((h[0] == '0' || h[0] == '1') && IsDigit(h[1])) || (h[0] == '2' && '0' <= h[1] <= '3')))
  }

  /** `[0-5][0-9]` */
  predicate MinuteText(m: string) {
    |m| == 2 && '0' <= m[0] <= '5' && IsDigit(m[1])
  }

  /** `^([01]?[0-9]|2[0-3]):[0-5][0-9]$` */
  predicate TimeText(s: string) {
    |s| >= 4 && HourText(s[..|s| - 3]) && s[|s| - 3] == ':' && MinuteText(s[|s| - 2..])
  }

  /** `^[\w\s-]+$` */
  predicate DescriptionText(s: string) {
    |s| > 0 && forall i :: 0 <= i < |s| ==> IsDescriptionChar(s[i])
  }

  // ---------------------------------------------------------------------
  // The rule tables

  /** `typeof v === "object" && v !== null` */
  predicate IsObject(v: Json) { v.JObject? || v.JArray? }

  /** `key in v`; an array has none of the keys the rules ask for. */
  predicate HasKey(v: Json, key: string) { v.JObject? && key in v.fields }

  function Field(v: Json, key: string): Json
    requires HasKey(v, key)
  {
    v.fields[key]
  }

  /** `Object.keys(validationRules)` */
  const ReceiptKeys: seq<string> := ["retailer", "purchaseDate", "purchaseTime", "total", "items"]

  /** `Object.keys(itemValidationRules)` */
  const ItemKeys: seq<string> := ["shortDescription", "price"]

  /** `itemValidationRules[key](v)` */
  predicate ItemRule(key: string, v: Json) {
    if key == "shortDescription" then v.JString? && DescriptionText(v.s)
    else if key == "price" then v.JString? && IsMoneyText(v.s)
    else false
  }

  /** `validateItem` */
  predicate ValidateItem(v: Json) {
    IsObject(v) &&
    (forall i :: 0 <= i < |ItemKeys| ==> HasKey(v, ItemKeys[i])) &&
    (forall i :: 0 <= i < |ItemKeys| ==> ItemRule(ItemKeys[i], Field(v, ItemKeys[i])))
  }

  /** `validationRules[key](v)` */
  predicate ReceiptRule(key: string, v: Json) {
    if key == "retailer" then v.JString? && RetailerText(v.s)
    else if key == "purchaseDate" then v.JString? && DateText(v.s)
    else if key == "purchaseTime" then v.JString? && TimeText(v.s)
    else if key == "total" then v.JString? && IsMoneyText(v.s)
    else if key == "items" then
      v.JArray? && |v.elems| > 0 && forall i :: 0 <= i < |v.elems| ==> ValidateItem(v.elems[i])
    else false
  }

  /** `validateReceipt` */
  predicate ValidateReceipt(v: Json) {
    IsObject(v) &&
    (forall i :: 0 <= i < |ReceiptKeys| ==> HasKey(v, ReceiptKeys[i])) &&
    (forall i :: 0 <= i < |ReceiptKeys| ==> ReceiptRule(ReceiptKeys[i], Field(v, ReceiptKeys[i])))
  }

  /** `pointsValidationRules.points`: a safe non-negative integer. */
  predicate PointsRule(v: Json) {
    v.JNumber? && v.n.Floor as real == v.n && 0.0 <= v.n && v.n <= MaxSafeInteger as real
  }

  // ---------------------------------------------------------------------
  // The typed view of a valid receipt

  predicate ValidItem(item: Item) {
    DescriptionText(item.shortDescription) && IsMoneyText(item.price)
  }

  /** Every field of the receipt has the format its rule asks for. */
  predicate ValidReceipt(r: Receipt) {
    RetailerText(r.retailer) && DateText(r.purchaseDate) && TimeText(r.purchaseTime) &&
    IsMoneyText(r.total) && |r.items| > 0 &&
    forall i :: 0 <= i < |r.items| ==> ValidItem(r.items[i])
  }

  function ItemToJson(item: Item): Json {
    JObject(map["shortDescription" := JString(item.shortDescription), "price" := JString(item.price)])
  }

  function ReceiptToJson(r: Receipt): Json {
    JObject(map[
      "retailer" := JString(r.retailer),
      "purchaseDate" := JString(r.purchaseDate),
      "purchaseTime" := JString(r.purchaseTime),
      "total" := JString(r.total),
      "items" := JArray(seq(|r.items|, i requires 0 <= i < |r.items| => ItemToJson(r.items[i])))])
  }

  /** The item a valid item value describes: its description and price are
      the value's two strings. */
  function AsItem(v: Json): (item: Item)
    requires ValidateItem(v)
    ensures ValidItem(item)
    ensures HasKey(v, "shortDescription") && Field(v, "shortDescription") == JString(item.shortDescription)
    ensures HasKey(v, "price") && Field(v, "price") == JString(item.price)
  {
    assert HasKey(v, ItemKeys[0]) && ItemRule(ItemKeys[0], Field(v, ItemKeys[0]));
    assert HasKey(v, ItemKeys[1]) && ItemRule(ItemKeys[1], Field(v, ItemKeys[1]));
    Item(v.fields["shortDescription"].s, v.fields["price"].s)
  }

  /** The receipt a valid receipt value describes, which the scoring rules
      can read: its text fields are the value's strings, and its items are
      the value's item values, one for one and in order. */
  function AsReceipt(v: Json): (r: Receipt)
    requires ValidateReceipt(v)
    ensures ValidReceipt(r) && AmountsWellFormed(r)
    ensures HasKey(v, "retailer") && Field(v, "retailer") == JString(r.retailer)
    ensures HasKey(v, "purchaseDate") && Field(v, "purchaseDate") == JString(r.purchaseDate)
    ensures HasKey(v, "purchaseTime") && Field(v, "purchaseTime") == JString(r.purchaseTime)
    ensures HasKey(v, "total") && Field(v, "total") == JString(r.total)
    ensures HasKey(v, "items") && Field(v, "items").JArray?
    ensures |r.items| == |Field(v, "items").elems|
    ensures forall i :: 0 <= i < |r.items| ==>
              ValidateItem(Field(v, "items").elems[i]) && r.items[i] == AsItem(Field(v, "items").elems[i])
  {
    assert ReceiptKeys[0] == "retailer" && ReceiptRule(ReceiptKeys[0], Field(v, ReceiptKeys[0]));
    assert ReceiptKeys[1] == "purchaseDate" && ReceiptRule(ReceiptKeys[1], Field(v, ReceiptKeys[1]));
    assert ReceiptKeys[2] == "purchaseTime" && ReceiptRule(ReceiptKeys[2], Field(v, ReceiptKeys[2]));
    assert ReceiptKeys[3] == "total" && ReceiptRule(ReceiptKeys[3], Field(v, ReceiptKeys[3]));
    assert ReceiptKeys[4] == "items" && ReceiptRule(ReceiptKeys[4], Field(v, ReceiptKeys[4]));
    var elems := v.fields["items"].elems;
    Receipt(
      v.fields["retailer"].s,
      v.fields["purchaseDate"].s,
      v.fields["purchaseTime"].s,
      seq(|elems|, i requires 0 <= i < |elems| => AsItem(elems[i])),
      v.fields["total"].s)
  }

  // ---------------------------------------------------------------------
  // The middleware checks

  /** JavaScript truthiness of a value. */
  predicate Truthy(v: Json) {
    match v
    case JNull => false
    case JBool(b) => b
    case JNumber(n) => n != 0.0
    case JString(s) => s != []
    case _ => true
  }

  /** `validateReceiptMiddleware`: a missing body, or one that fails any
      rule, is answered with 400 and the one fixed message. */
  function ReceiptRequestCheck(body: Option<Json>): (r: Outcome)
    ensures r == Next <==> body.Some? && ValidateReceipt(body.value)
    ensures r != Next ==> r == Reject(HttpBadRequest, InvalidReceiptMessage)
  {
    if body.None? || !Truthy(body.value) || !ValidateReceipt(body.value) then
      Reject(HttpBadRequest, InvalidReceiptMessage)
    else
      Next
  }

  /** `validatePointsRequestMiddleware`: a missing or blank id is a bad
      request, an id with no stored result is not found, a stored id passes. */
  function PointsRequestCheck(id: Option<string>, store: ResultStore): (r: Outcome)
    reads store
    ensures r == Reject(HttpBadRequest, InvalidIdMessage) <==> id.None? || AllSpace(id.value)
    ensures r == Reject(HttpNotFound, InvalidIdMessage) <==>
              id.Some? && !AllSpace(id.value) && id.value !in store.results
    ensures r == Next <==> id.Some? && !AllSpace(id.value) && id.value in store.results
  {
    if id.None? || id.value == "" || (TrimEmptyIffAllSpace(id.value); Trim(id.value) == "") then
      Reject(HttpBadRequest, InvalidIdMessage)
    else if store.GetResult(id.value).None? then
      Reject(HttpNotFound, InvalidIdMessage)
    else
      Next
  }
}

/** Properties of the validators and of the scoring rules on validated fields. */
module MiddlewareProperties {
  import opened JsText
  import opened Money
  import opened Receipts
  import opened ReceiptsMiddleware

  /** Validation accepts the encoding of a receipt exactly when every field
      of the receipt has its format, and then reads the receipt back. */
  lemma ValidateReceiptOfJson(r: Receipt)
    ensures ValidateReceipt(ReceiptToJson(r)) <==> ValidReceipt(r)
    ensures ValidReceipt(r) ==> AsReceipt(ReceiptToJson(r)) == r
  {
    var v := ReceiptToJson(r);
    var elems := v.fields["items"].elems;
    forall i | 0 <= i < |r.items|
      ensures ValidateItem(elems[i]) <==> ValidItem(r.items[i])
      ensures ValidItem(r.items[i]) ==> AsItem(elems[i]) == r.items[i]
    {
      assert elems[i] == ItemToJson(r.items[i]);
      assert ItemKeys[0] == "shortDescription" && ItemKeys[1] == "price";
    }
    assert ReceiptKeys[0] == "retailer" && ReceiptKeys[1] == "purchaseDate";
    assert ReceiptKeys[2] == "purchaseTime" && ReceiptKeys[3] == "total" && ReceiptKeys[4] == "items";
    if ValidReceipt(r) {
      assert ValidateReceipt(v);
      assert AsReceipt(v).items == r.items;
    }
  }

  /** Keys without a rule do not change the verdict. */
  lemma ExtraKeysIgnored(fields: map<string, Json>, key: string, x: Json)
    requires key !in ReceiptKeys
    ensures ValidateReceipt(JObject(fields[key := x])) == ValidateReceipt(JObject(fields))
  {
    forall i | 0 <= i < |ReceiptKeys|
      ensures ReceiptKeys[i] != key
    {
      assert ReceiptKeys[i] in ReceiptKeys;
    }
  }

  /** An item object is valid exactly when it has a description and a price
      of the right formats. */
  lemma ValidateItemObject(fields: map<string, Json>)
    ensures ValidateItem(JObject(fields)) <==>
      "shortDescription" in fields && ItemRule("shortDescription", fields["shortDescription"]) &&
      "price" in fields && ItemRule("price", fields["price"])
  {
    assert ItemKeys[0] == "shortDescription" && ItemKeys[1] == "price";
  }

  /** A receipt object is valid exactly when each of its five keys is present
      and its value passes that key's rule. */
  lemma ValidateReceiptObject(fields: map<string, Json>)
    ensures ValidateReceipt(JObject(fields)) <==>
      "retailer" in fields && ReceiptRule("retailer", fields["retailer"]) &&
      "purchaseDate" in fields && ReceiptRule("purchaseDate", fields["purchaseDate"]) &&
      "purchaseTime" in fields && ReceiptRule("purchaseTime", fields["purchaseTime"]) &&
      "total" in fields && ReceiptRule("total", fields["total"]) &&
      "items" in fields && ReceiptRule("items", fields["items"])
  {
    assert ReceiptKeys[0] == "retailer" && ReceiptKeys[1] == "purchaseDate";
    assert ReceiptKeys[2] == "purchaseTime" && ReceiptKeys[3] == "total" && ReceiptKeys[4] == "items";
  }

  /** A receipt without one of its five keys is rejected. */
  lemma MissingKeyRejected(fields: map<string, Json>, key: string)
    requires key in ReceiptKeys && key !in fields
    ensures !ValidateReceipt(JObject(fields))
  {
  }

  /** An empty item list is rejected, whatever the other fields hold. */
  lemma EmptyItemsRejected(fields: map<string, Json>)
    requires "items" in fields && fields["items"] == JArray([])
    ensures !ValidateReceipt(JObject(fields))
  {
    assert ReceiptKeys[4] == "items";
  }

  /** Only an object can be a valid receipt: an array, a string, a number,
      a boolean or null is rejected. */
  lemma OnlyObjectsValidate(v: Json)
    requires !v.JObject?
    ensures !ValidateReceipt(v)
  {
    assert ReceiptKeys[0] == "retailer";
  }

  // ---------------------------------------------------------------------
  // Scoring on validated dates and times

  /** On a validated date, the odd-day rule reads the two day digits:
      6 points exactly when the day of month is odd. */
  lemma OddDayOnValidDate(date: string)
    requires DateText(date)
    ensures OddDayPoints(date) == if DigitsValue(date[8..]) % 2 == 1 then 6 else 0
  {
    var y, m, d := date[..4], date[5..7], date[8..];
    assert date == y + ['-'] + m + ['-'] + d;
    NoSeparatorInDigits(y, '-');
    NoSeparatorInDigits(m, '-');
    NoSeparatorInDigits(d, '-');
    SplitInThree(y, '-', m, d);
    ParseIntOfDigits(d);
    OddRemainder(DigitsValue(d));
  }

  /** Any four-digit year, two-digit month and two-digit day form an accepted
      date, in range or not (so "2022-13-99" passes), and the odd-day rule
      looks only at the parity of the day. */
  lemma DatesValidate(year: nat, month: nat, day: nat)
    requires year < 10000 && month < 100 && day < 100
    ensures DateText(FourDigits(year) + ['-'] + TwoDigits(month) + ['-'] + TwoDigits(day))
    ensures OddDayPoints(FourDigits(year) + ['-'] + TwoDigits(month) + ['-'] + TwoDigits(day))
            == if day % 2 == 1 then 6 else 0
  {
    var d := FourDigits(year) + ['-'] + TwoDigits(month) + ['-'] + TwoDigits(day);
    assert d[..4] == FourDigits(year) && d[5..7] == TwoDigits(month) && d[8..] == TwoDigits(day);
    OddDayOnValidDate(d);
    DigitsValueTwo(TwoDigits(day));
  }

  /** The hour of a validated time, as written before the colon. */
  function Hour(time: string): nat
    requires TimeText(time)
  {
    DigitsValue(time[..|time| - 3])
  }

  /** The minute of a validated time. */
  function Minute(time: string): nat
    requires TimeText(time)
  {
    DigitsValue(time[|time| - 2..])
  }

  /** A validated time is a real clock time: hour 0 to 23, minute 0 to 59. */
  lemma TimeTextInRange(time: string)
    requires TimeText(time)
    ensures Hour(time) <= 23 && Minute(time) <= 59
  {
    var h := time[..|time| - 3];
    DigitsValueTwo(time[|time| - 2..]);
    if |h| == 2 {
      DigitsValueTwo(h);
    } else {
      assert h[..0] == [];
    }
  }

  /** Every clock time is accepted, with or without a leading zero on the hour. */
  lemma ClockTimesValidate(hour: nat, minute: nat)
    requires hour <= 23 && minute <= 59
    ensures TimeText(Decimal(hour) + [':'] + TwoDigits(minute))
    ensures TimeText(TwoDigits(hour) + [':'] + TwoDigits(minute))
  {
    var t := Decimal(hour) + [':'] + TwoDigits(minute);
    assert t[..|t| - 3] == Decimal(hour);
    assert t[|t| - 2..] == TwoDigits(minute);
    if hour >= 10 {
      assert Decimal(hour) == Decimal(hour / 10) + [DigitChar(hour % 10)];
      assert Decimal(hour / 10) == [DigitChar(hour / 10)];
    }
    var u := TwoDigits(hour) + [':'] + TwoDigits(minute);
    assert u[..|u| - 3] == TwoDigits(hour);
    assert u[|u| - 2..] == TwoDigits(minute);
  }

  /** A validated time splits at its one colon into hour and minute text. */
  lemma SplitValidTime(time: string)
    requires TimeText(time)
    ensures Split(time, ':') == [time[..|time| - 3], time[|time| - 2..]]
  {
    var k := |time| - 3;
    var h, m := time[..k], time[k + 1..];
    assert AllDigits(h) by {
      assert |h| == 1 || |h| == 2;
      assert IsDigit(h[0]);
      assert |h| == 2 ==> IsDigit(h[1]);
    }
    assert AllDigits(m) by {
      assert |m| == 2 && IsDigit(m[0]) && IsDigit(m[1]);
    }
    NoSeparatorInDigits(h, ':');
    NoSeparatorInDigits(m, ':');
    SplitAt(time, ':', k);
  }

  /** With minutes 0 to 59, the minute of the day falls in [14:00, 16:00)
      exactly when the hour is 14 or 15. */
  lemma AfternoonWindow(hour: int, minute: int)
    requires 0 <= minute <= 59
    ensures AfternoonStart <= hour * 60 + minute < AfternoonEnd <==> 14 <= hour <= 15
  {
  }

  /** A validated time splits into the two texts whose values are its hour
      and minute. */
  lemma ParseValidTime(time: string)
    requires TimeText(time)
    ensures |Split(time, ':')| == 2
    ensures ParseInt(Split(time, ':')[0]) == Some(Hour(time))
    ensures ParseInt(Split(time, ':')[1]) == Some(Minute(time))
  {
    var h, m := time[..|time| - 3], time[|time| - 2..];
    assert h != [] && AllDigits(h);
    assert m != [] && AllDigits(m);
    SplitValidTime(time);
    assert Split(time, ':')[0] == h && Split(time, ':')[1] == m;
    ParseIntOfDigits(h);
    ParseIntOfDigits(m);
  }

  /** On a validated time, the afternoon rule is 10 points exactly when the
      hour is 14 or 15: the window [14:00, 16:00) is half open. */
  lemma AfternoonOnValidTime(time: string)
    requires TimeText(time)
    ensures AfternoonPoints(time) == if 14 <= Hour(time) <= 15 then 10 else 0
  {
    ParseValidTime(time);
    TimeTextInRange(time);
    var hour, minute := Hour(time), Minute(time);
    AfternoonOfParts(time, hour, minute);
    AfternoonWindow(hour, minute);
  }

  /** "14:00" and "15:59" earn the afternoon bonus; "13:59" and "16:00" do not. */
  lemma AfternoonBoundaries()
    ensures AfternoonPoints("14:00") == 10
    ensures AfternoonPoints("15:59") == 10
    ensures AfternoonPoints("13:59") == 0
    ensures AfternoonPoints("16:00") == 0
  {
    AfternoonAtTime("14:00", 14);
    AfternoonAtTime("15:59", 15);
    AfternoonAtTime("13:59", 13);
    AfternoonAtTime("16:00", 16);
  }

  lemma AfternoonAtTime(time: string, hour: nat)
    requires |time| == 5 && time[2] == ':' && '0' <= time[0] <= '1' && IsDigit(time[1])
    requires '0' <= time[3] <= '5' && IsDigit(time[4])
    requires hour == DigitValue(time[0]) * 10 + DigitValue(time[1])
    ensures AfternoonPoints(time) == if 14 <= hour <= 15 then 10 else 0
  {
    assert time[..|time| - 3] == time[..2];
    assert time[|time| - 2..] == time[3..];
    DigitsValueTwo(time[..2]);
    AfternoonOnValidTime(time);
  }

  // ---------------------------------------------------------------------
  // Whole receipts and field classes

  /** The points of a validated receipt, rule by rule: the retailer's
      letters and digits, 75, 25 or 0 for the total, 5 per pair of items,
      the item bonuses, 6 for an odd day of month and 10 for an hour of 14
      or 15. */
  lemma ScoreOfValidReceipt(r: Receipt)
    requires ValidReceipt(r)
    ensures AmountsWellFormed(r)
    ensures Points(r) ==
              RetailerPoints(r.retailer)
              + (if Cents(r.total) % 100 == 0 then 75 else if Cents(r.total) % 25 == 0 then 25 else 0)
              + |r.items| / 2 * 5
              + DescriptionPoints(r.items)
              + (if DigitsValue(r.purchaseDate[8..]) % 2 == 1 then 6 else 0)
              + (if 14 <= Hour(r.purchaseTime) <= 15 then 10 else 0)
  {
    assert PricesWellFormed(r.items) by {
      forall i | 0 <= i < |r.items| ensures IsMoneyText(r.items[i].price) {
        assert ValidItem(r.items[i]);
      }
    }
    TotalPoints(r.total);
    OddDayOnValidDate(r.purchaseDate);
    AfternoonOnValidTime(r.purchaseTime);
  }

  /** A non-empty description made only of whitespace passes validation and
      still earns the item its price bonus, since it trims to length 0. */
  lemma BlankDescriptionAccepted(item: Item)
    requires IsMoneyText(item.price)
    requires |item.shortDescription| > 0 && AllSpace(item.shortDescription)
    ensures ValidItem(item)
    ensures ItemPoints(item) == CeilFifth(Cents(item.price))
  {
    BlankDescriptionEarns(item);
  }

  /** The description class is the retailer class without `&`: a
      description is always an acceptable retailer name, and a retailer name
      without `&` is always an acceptable description. */
  lemma DescriptionIsRetailerWithoutAmpersand(s: string)
    ensures DescriptionText(s) ==> RetailerText(s)
    ensures RetailerText(s) && '&' !in s ==> DescriptionText(s)
    ensures '&' in s ==> !DescriptionText(s)
  {
    if '&' in s {
      var k :| 0 <= k < |s| && s[k] == '&';
      assert !IsDescriptionChar(s[k]);
    }
  }

  /** Letters, digits, underscores, whitespace, hyphens and ampersands make a
      retailer name; an empty name or one with other symbols does not. */
  lemma RetailerExamples()
    ensures RetailerText("M&M Corner_Market-1")
    ensures !RetailerText("")
    ensures !RetailerText("T@rget")
  {
    assert !IsRetailerChar("T@rget"[1]);
  }

  // ---------------------------------------------------------------------
  // Examples from the middleware tests

  /** The receipt of the middleware tests, with the fields the tests vary. */
  function TestReceipt(retailer: string, date: string, items: seq<Item>, total: string): Receipt {
    Receipt(retailer, date, "13:01", items, total)
  }

  /** The well-formed receipt of the middleware tests passes. */
  lemma WellFormedTestReceiptPasses()
    ensures ReceiptRequestCheck(Some(ReceiptToJson(
              TestReceipt("Target", "2022-01-01", [Item("Mountain Dew 12PK", "6.49")], "6.49")))) == Next
  {
    var r := TestReceipt("Target", "2022-01-01", [Item("Mountain Dew 12PK", "6.49")], "6.49");
    assert ValidReceipt(r) by {
      assert TimeText("13:01") by { assert "13:01"[..2] == "13"; }
    }
    ValidateReceiptOfJson(r);
  }

  /** The test receipt without its total is rejected. */
  lemma MissingTotalRejected()
    ensures ReceiptRequestCheck(Some(JObject(ReceiptToJson(
              TestReceipt("Target", "2022-01-01", [Item("Mountain Dew 12PK", "6.49")], "6.49")).fields - {"total"})))
            == Reject(400, "The receipt is invalid.")
  {
    var good := ReceiptToJson(TestReceipt("Target", "2022-01-01", [Item("Mountain Dew 12PK", "6.49")], "6.49"));
    MissingKeyRejected(good.fields - {"total"}, "total");
  }

  /** A retailer with symbols, a date with slashes, a one-decimal price and
      an empty item list are each rejected with the one invalid-receipt
      answer, and so is a missing body. */
  lemma MalformedTestReceiptsRejected()
    ensures ReceiptRequestCheck(Some(ReceiptToJson(
              TestReceipt("T@rg#t!!!*", "2022-01-01", [Item("Mountain Dew 12PK", "6.49")], "6.49"))))
            == Reject(400, "The receipt is invalid.")
    ensures ReceiptRequestCheck(Some(ReceiptToJson(
              TestReceipt("Target", "01/01/2022", [Item("Mountain Dew 12PK", "6.49")], "6.49"))))
            == Reject(400, "The receipt is invalid.")
    ensures ReceiptRequestCheck(Some(ReceiptToJson(
              TestReceipt("Target", "2022-01-01", [Item("Mountain Dew 12PK", "6.5")], "6.50"))))
            == Reject(400, "The receipt is invalid.")
    ensures ReceiptRequestCheck(Some(ReceiptToJson(TestReceipt("Target", "2022-01-01", [], "0.00"))))
            == Reject(400, "The receipt is invalid.")
    ensures ReceiptRequestCheck(None) == Reject(400, "The receipt is invalid.")
  {
    var symbols := TestReceipt("T@rg#t!!!*", "2022-01-01", [Item("Mountain Dew 12PK", "6.49")], "6.49");
    assert !ValidateReceipt(ReceiptToJson(symbols)) by {
      assert !IsRetailerChar(symbols.retailer[1]);
      ValidateReceiptOfJson(symbols);
    }
    var slashes := TestReceipt("Target", "01/01/2022", [Item("Mountain Dew 12PK", "6.49")], "6.49");
    assert !ValidateReceipt(ReceiptToJson(slashes)) by {
      assert !IsDigit(slashes.purchaseDate[2]);
      ValidateReceiptOfJson(slashes);
    }
    var oneDecimal := TestReceipt("Target", "2022-01-01", [Item("Mountain Dew 12PK", "6.5")], "6.50");
    assert !ValidateReceipt(ReceiptToJson(oneDecimal)) by {
      assert !ValidItem(oneDecimal.items[0]);
      ValidateReceiptOfJson(oneDecimal);
    }
    var empty := TestReceipt("Target", "2022-01-01", [], "0.00");
    assert !ValidateReceipt(ReceiptToJson(empty)) by {
      ValidateReceiptOfJson(empty);
    }
  }

  /** Hours run 0 to 23 with an optional leading zero, minutes need two digits. */
  lemma TimeFormatExamples()
    ensures TimeText("9:30") && TimeText("09:30") && TimeText("23:59") && TimeText("0:00")
    ensures !TimeText("24:00") && !TimeText("12:5") && !TimeText("12:60")
  {
    assert "9:30"[..1] == "9";
    assert "09:30"[..2] == "09";
    assert "23:59"[..2] == "23";
    assert "0:00"[..1] == "0";
    assert "24:00"[..2] == "24";
    assert "12:5"[..1] == "1";
  }

  // ---------------------------------------------------------------------
  // The points-request check and the points rule

  /** The points-request tests: the stored id passes, an empty or missing id
      is a bad request, an unknown id is not found; both failures carry the
      same message. */
  method PointsRequestTestCases() returns (outcomes: seq<Outcome>)
    ensures outcomes == [Next, Reject(400, "No receipt found for that ID."),
                         Reject(400, "No receipt found for that ID."), Reject(404, "No receipt found for that ID.")]
  {
    var store := new ResultStore();
    var id := store.SaveResult(100.0, "abcd-1234-hire-chuck-at-fetch");
    assert !AllSpace(id) by { assert !IsSpace(id[0]); }
    assert !AllSpace("chuck-fetch-chuck-fetch-chuck") by { assert !IsSpace("chuck-fetch-chuck-fetch-chuck"[0]); }
    outcomes := [
      PointsRequestCheck(Some(id), store),
      PointsRequestCheck(Some(""), store),
      PointsRequestCheck(None, store),
      PointsRequestCheck(Some("chuck-fetch-chuck-fetch-chuck"), store)];
  }

  /** The points rule accepts exactly the integers from 0 to 2^53 - 1 and
      rejects every fraction and every value that is not a number. */
  lemma PointsRuleRange(n: int, x: real, v: Json)
    ensures PointsRule(JNumber(n as real)) <==> 0 <= n <= MaxSafeInteger
    ensures x.Floor as real != x ==> !PointsRule(JNumber(x))
    ensures !v.JNumber? ==> !PointsRule(v)
  {
  }

  /** Every score of a receipt up to 2^53 - 1 satisfies the points rule. */
  lemma ScoresSatisfyPointsRule(r: Receipt)
    requires AmountsWellFormed(r) && Points(r) <= MaxSafeInteger
    ensures PointsRule(JNumber(Points(r) as real))
  {
    PointsRuleRange(Points(r), 0.0, JNull);
  }
}
