/**
 * The receipt record and the engine's validateReceiptPoints: a method that checks the
 * receipt's fields one after another, accumulating points as it goes, and on success
 * stores the total in the receipt.
 */
module Receipts {
  import opened Wrappers
  import opened Text
  import opened DateTime
  import opened Decimals
  import opened Scoring

  /** A submitted receipt; points is written by ValidateReceiptPoints. */
  class Receipt {
    var retailer: string
    var purchaseDate: string
    var purchaseTime: string
    var total: string
    var items: seq<Item>
    var points: int

    constructor (retailer: string, purchaseDate: string, purchaseTime: string, total: string, items: seq<Item>)
      ensures this.retailer == retailer && this.purchaseDate == purchaseDate
      ensures this.purchaseTime == purchaseTime && this.total == total
      ensures this.items == items && this.points == 0
    {
      this.retailer := retailer;
      this.purchaseDate := purchaseDate;
      this.purchaseTime := purchaseTime;
      this.total := total;
      this.items := items;
      this.points := 0;
    }

    /** What the receipt's text fields score, or the first check they fail. */
    function Outcome(): Result<int, Error>
      reads this`retailer, this`purchaseDate, this`purchaseTime, this`total, this`items
    {
      Score(retailer, purchaseDate, purchaseTime, total, items)
    }
  }

  /** Rule 1 as the engine's loop: one point per letter or number in the retailer name. */
  method RetailerPoints(retailer: string) returns (points: int)
    ensures points == AlnumCount(retailer)
  {
    points := 0;
    var k := 0;
    while k < |retailer|
      invariant 0 <= k <= |retailer|
      invariant points == AlnumCount(retailer[..k])
    {
      assert retailer[..k + 1] == retailer[..k] + [retailer[k]];
      AlnumCountAppend(retailer[..k], [retailer[k]]);
      if IsLetterOrNumber(retailer[k]) {
        points := points + 1;
      }
      k := k + 1;
    }
    assert retailer[..k] == retailer;
  }

  /**
   * Rules 6 and 7 as the engine's item loop: 5 points at every odd index, and the price
   * points of every qualifying item; stops at the first qualifying item whose price is
   * not a decimal.
   */
  method ItemsPoints(items: seq<Item>) returns (result: Result<int, Error>)
    ensures DescriptionPoints(items).Ok? ==> result == Ok(PairPoints(|items|) + DescriptionPoints(items).value)
    ensures DescriptionPoints(items).Err? ==> result == Err(InvalidNumber)
  {
    var points: int := 0;
    ghost var rs := ItemResults(items);
    var i := 0;
    while i < |items|
      invariant 0 <= i <= |items|
      invariant Total(rs[..i]).Ok?
      invariant points == OddIndexPoints(i) + Total(rs[..i]).value
    {
      // Rule 6
      if i % 2 == 1 {
        points := points + 5;
      }
      // Rule 7
      ItemResultsAt(items, i);
      TotalStep(rs, i);
      var trimmed := Trim(items[i].shortDescription);
      var size := ByteLength(trimmed);
      if size % 3 == 0 {
        var price := Parse(items[i].price);
        if price.None? {
          DescriptionPointsFails(items);
          return Err(InvalidNumber);
        }
        var scaled := Mul(Fifth, price.value);
        points := points + IntPart(Ceil(scaled));
      }
      i := i + 1;
    }
    assert rs[..i] == rs;
    OddIndexPointsArePairs(|items|);
    return Ok(points);
  }

  /**
   * The receipt-level half of the engine: checks the retailer, date, time and total in
   * that order, returning the first check that fails or the points of rules 1 to 5.
   */
  method FieldsPoints(retailer: string, purchaseDate: string, purchaseTime: string, total: string) returns (result: Result<int, Error>)
    ensures ReadFields(retailer, purchaseDate, purchaseTime, total).Err? ==>
      result == Err(ReadFields(retailer, purchaseDate, purchaseTime, total).error)
    ensures ReadFields(retailer, purchaseDate, purchaseTime, total).Ok? ==>
      result == Ok(Points(retailer, ReadFields(retailer, purchaseDate, purchaseTime, total).value, 0, 0))
  {
    if retailer == [] {
      return Err(EmptyField);
    }
    // Rule 1
    var points := RetailerPoints(retailer);

    if purchaseDate == [] {
      return Err(EmptyField);
    }
    var datePurchased := ParseDate(purchaseDate);
    if datePurchased.None? {
      return Err(InvalidFormat);
    }
    // Rule 2
    if datePurchased.value.day % 2 == 1 {
      points := points + 6;
    }
    assert points == AlnumCount(retailer) + DayPoints(datePurchased.value);

    if purchaseTime == [] {
      return Err(EmptyField);
    }
    var timePurchased := ParseClock(purchaseTime);
    if timePurchased.None? {
      return Err(InvalidFormat);
    }
    // Rule 3
    WindowBounds();
    var startTime := ParseClock("14:00");
    var endTime := ParseClock("16:00");
    if After(timePurchased.value, startTime.value) && Before(timePurchased.value, endTime.value) {
      points := points + 10;
    }
    assert points == AlnumCount(retailer) + DayPoints(datePurchased.value) + TimePoints(timePurchased.value);

    var amount := Parse(total);
    if amount.None? {
      return Err(InvalidNumber);
    }
    // Rule 4
    if IsInteger(amount.value) {
      points := points + 50;
    }
    // Rule 5
    if IsZero(Mod(amount.value, Quarter)) {
      points := points + 25;
    }
    assert points - AlnumCount(retailer) - DayPoints(datePurchased.value) - TimePoints(timePurchased.value)
      == RoundTotalPoints(amount.value) + QuarterTotalPoints(amount.value);
    ghost var fields := Fields(datePurchased.value, timePurchased.value, amount.value);
    assert ReadFields(retailer, purchaseDate, purchaseTime, total) == Ok(fields);
    assert points == Points(retailer, fields, 0, 0);
    return Ok(points);
  }

  /**
   * Validates r and, when every check passes, stores its points in r.points.
   * On the first failing check it reports that check's error and leaves r untouched.
   */
  method ValidateReceiptPoints(r: Receipt) returns (outcome: Outcome<Error>)
    modifies r`points
    ensures r.Outcome().Ok? ==> outcome == Pass && r.points == r.Outcome().value
    ensures r.Outcome().Err? ==> outcome == Fail(r.Outcome().error) && r.points == old(r.points)
  {
    var head := FieldsPoints(r.retailer, r.purchaseDate, r.purchaseTime, r.total);
    if head.Err? {
      return Fail(head.error);
    }
    var points := head.value;
    ghost var fields := ReadFields(r.retailer, r.purchaseDate, r.purchaseTime, r.total).value;

    if |r.items| < 1 {
      return Fail(TooFewItems);
    }
    // Rules 6 and 7
    var rest := ItemsPoints(r.items);
    if rest.Err? {
      DescriptionPointsFails(r.items);
      return Fail(rest.error);
    }
    ghost var descriptions := DescriptionPoints(r.items).value;
    assert r.Outcome() == Ok(Points(r.retailer, fields, |r.items|, descriptions));
    r.points := points + rest.value;
    return Pass;
  }
}
