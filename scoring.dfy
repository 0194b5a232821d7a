/**
 * The receipt points rules as a specification: each of the seven rules as a function
 * of the parsed fields, and Score, which validates the raw fields in the engine's order
 * and sums the rules when every check passes.
 */
module Scoring {
  import opened Wrappers
  import opened Arith
  import opened Text
  import opened DateTime
  import opened Decimals

  /** Why a receipt is rejected. */
  datatype Error = EmptyField | InvalidFormat | InvalidNumber | TooFewItems

  /** One purchased line, its fields as the raw text the receipt carries. */
  datatype Item = Item(shortDescription: string, price: string)

  // Rule 1 is AlnumCount(retailer): one point per letter or number in the retailer name.

  /** Rule 2: 6 points when the day of the month is odd. */
  function DayPoints(d: Date): nat
  {
    if d.day % 2 == 1 then 6 else 0
  }

  /** Rule 3: 10 points when the purchase time is strictly between 14:00 and 16:00. */
  function TimePoints(c: Clock): nat
  {
    if InAfternoonWindow(c) then 10 else 0
  }

  /** Rule 4: 50 points when the total is a whole number. */
  function RoundTotalPoints(total: Decimal): nat
  {
    if IsInteger(total) then 50 else 0
  }

  /** Rule 5: 25 points when the total leaves no remainder when divided by 0.25. */
  function QuarterTotalPoints(total: Decimal): nat
  {
    if IsZero(Mod(total, Quarter)) then 25 else 0
  }

  /** Rule 6: 5 points for every two items. */
  function PairPoints(count: nat): nat
  {
    5 * (count / 2)
  }

  /** What the item loop adds for rule 6 over its first n iterations: 5 at every odd index. */
  function OddIndexPoints(n: nat): nat
  {
    if n == 0 then 0 else OddIndexPoints(n - 1) + (if (n - 1) % 2 == 1 then 5 else 0)
  }

  /** Adding 5 at each odd index gives 5 for every two items, whatever the items hold. */
  lemma {:induction false} OddIndexPointsArePairs(n: nat)
    ensures OddIndexPoints(n) == PairPoints(n)
  {
    if n > 0 {
      OddIndexPointsArePairs(n - 1);
    }
  }

  /** Rule 7 applies to an item whose description, trimmed of spaces, is a multiple of 3 bytes long (0 included). */
  predicate Qualifies(item: Item)
  {
    ByteLength(Trim(item.shortDescription)) % 3 == 0
  }

  /** Ceil(0.2 * price).IntPart(): the least whole number c with 0.2 * price <= c. */
  function PricePoints(price: Decimal): int
  {
    IntPart(Ceil(Mul(Fifth, price)))
  }

  /** c is the ceiling of 0.2 * m / 10^k, that is of 2 * m / 10^(k + 1). */
  lemma PricePointsBounds(price: Decimal)
    ensures var c := PricePoints(price);
      (c - 1) * Pow10(price.scale + 1) < 2 * price.mantissa <= c * Pow10(price.scale + 1)
  {
    CeilBounds(Mul(Fifth, price));
  }

  lemma PricePointsNonNegative(price: Decimal)
    requires price.mantissa >= 0
    ensures PricePoints(price) >= 0
  {
    var c, p := PricePoints(price), Pow10(price.scale + 1);
    PricePointsBounds(price);
    if c < 0 {
      MulAtLeast(-c, p);
    }
  }

  /** Rule 7 for one item: its price is read only when the item qualifies. */
  function ItemPoints(item: Item): Result<int, Error>
  {
    if !Qualifies(item) then Ok(0)
    else match Parse(item.price)
      case None => Err(InvalidNumber)
      case Some(price) => Ok(PricePoints(price))
  }

  /** An item that stops rule 7: it qualifies and its price is not a decimal. */
  predicate PriceUnreadable(item: Item)
  {
    Qualifies(item) && Parse(item.price).None?
  }

  /** One item fails rule 7 exactly when its price is unreadable, and then with InvalidNumber. */
  lemma ItemPointsFails(item: Item)
    ensures ItemPoints(item).Err? <==> PriceUnreadable(item)
    ensures ItemPoints(item).Err? ==> ItemPoints(item).error == InvalidNumber
  {
  }

  /** Adds one item's rule 7 result to the running sum; the first error wins. */
  function Combine(sum: Result<int, Error>, item: Result<int, Error>): (r: Result<int, Error>)
    ensures r.Ok? <==> sum.Ok? && item.Ok?
    ensures r.Ok? ==> r.value == sum.value + item.value
    ensures r.Err? ==> r.error == if sum.Err? then sum.error else item.error
  {
    match sum
    case Err(e) => Err(e)
    case Ok(p) =>
      match item
      case Err(e) => Err(e)
      case Ok(q) => Ok(p + q)
  }

  /** The running sum of a sequence of per-item results, stopping at the first error. */
  function Total(rs: seq<Result<int, Error>>): Result<int, Error>
  {
    if rs == [] then Ok(0) else Combine(Total(rs[..|rs| - 1]), rs[|rs| - 1])
  }

  /** Extending the results by one adds that result to the total. */
  lemma TotalStep(rs: seq<Result<int, Error>>, i: nat)
    requires i < |rs|
    ensures Total(rs[..i + 1]) == Combine(Total(rs[..i]), rs[i])
  {
    assert rs[..i + 1][..i] == rs[..i];
  }

  /** The total fails exactly when one of the results does, and with the error of the first that does. */
  lemma {:induction false} TotalFails(rs: seq<Result<int, Error>>)
    ensures Total(rs).Err? <==> exists j :: 0 <= j < |rs| && rs[j].Err?
    ensures Total(rs).Err? ==> exists j :: 0 <= j < |rs| && rs[j] == Total(rs) && forall i :: 0 <= i < j ==> rs[i].Ok?
  {
    if rs != [] {
      var n := |rs| - 1;
      var init := rs[..n];
      TotalFails(init);
      if Total(init).Err? {
        var j :| 0 <= j < |init| && init[j] == Total(init) && forall i :: 0 <= i < j ==> init[i].Ok?;
        assert rs[j] == init[j];
        assert forall i :: 0 <= i < j ==> rs[i] == init[i];
      } else {
        assert forall i :: 0 <= i < n ==> rs[i] == init[i];
      }
    }
  }

  /** A total of results that are never negative is never negative. */
  lemma {:induction false} TotalNonNegative(rs: seq<Result<int, Error>>)
    requires forall j :: 0 <= j < |rs| && rs[j].Ok? ==> rs[j].value >= 0
    ensures Total(rs).Ok? ==> Total(rs).value >= 0
  {
    if rs != [] {
      var init := rs[..|rs| - 1];
      assert forall j :: 0 <= j < |init| ==> init[j] == rs[j];
      TotalNonNegative(init);
    }
  }

  /** Rule 7 applied to each item on its own, in order. */
  function ItemResults(items: seq<Item>): (rs: seq<Result<int, Error>>)
    ensures |rs| == |items|
  {
    if items == [] then [] else ItemResults(items[..|items| - 1]) + [ItemPoints(items[|items| - 1])]
  }

  lemma {:induction false} ItemResultsAt(items: seq<Item>, j: nat)
    requires j < |items|
    ensures ItemResults(items)[j] == ItemPoints(items[j])
  {
    var n := |items| - 1;
    if j < n {
      ItemResultsAt(items[..n], j);
    }
  }

  /** Rule 7 over the items in order, stopping at the first qualifying item whose price is not a decimal. */
  function DescriptionPoints(items: seq<Item>): Result<int, Error>
  {
    Total(ItemResults(items))
  }

  /** Rule 7 fails exactly when some qualifying item has an unreadable price, and then with InvalidNumber. */
  lemma DescriptionPointsFails(items: seq<Item>)
    ensures DescriptionPoints(items).Err? <==> exists i :: 0 <= i < |items| && PriceUnreadable(items[i])
    ensures DescriptionPoints(items).Err? ==> DescriptionPoints(items).error == InvalidNumber
  {
    var rs := ItemResults(items);
    forall j | 0 <= j < |items|
      ensures rs[j].Err? <==> PriceUnreadable(items[j])
      ensures rs[j].Err? ==> rs[j].error == InvalidNumber
    {
      ItemResultsAt(items, j);
      ItemPointsFails(items[j]);
    }
    TotalFails(rs);
  }

  /** The price of an item that does not qualify is never examined: replacing it changes nothing. */
  lemma UnqualifiedPriceIgnored(items: seq<Item>, i: nat, price: string)
    requires i < |items| && !Qualifies(items[i])
    ensures DescriptionPoints(items[i := Item(items[i].shortDescription, price)]) == DescriptionPoints(items)
  {
    var items' := items[i := Item(items[i].shortDescription, price)];
    forall j | 0 <= j < |items|
      ensures ItemResults(items')[j] == ItemResults(items)[j]
    {
      ItemResultsAt(items, j);
      ItemResultsAt(items', j);
    }
    assert ItemResults(items') == ItemResults(items);
  }

  /** Prices with no minus sign never take points away. */
  lemma DescriptionPointsNonNegative(items: seq<Item>)
    requires forall i :: 0 <= i < |items| ==> Parse(items[i].price).Some? ==> Parse(items[i].price).value.mantissa >= 0
    ensures DescriptionPoints(items).Ok? ==> DescriptionPoints(items).value >= 0
  {
    var rs := ItemResults(items);
    forall j | 0 <= j < |rs| && rs[j].Ok?
      ensures rs[j].value >= 0
    {
      ItemResultsAt(items, j);
      if Qualifies(items[j]) {
        PricePointsNonNegative(Parse(items[j].price).value);
      }
    }
    TotalNonNegative(rs);
  }

  /** A total of zeros is zero. */
  lemma {:induction false} TotalOfZeros(rs: seq<Result<int, Error>>)
    requires forall j :: 0 <= j < |rs| ==> rs[j] == Ok(0)
    ensures Total(rs) == Ok(0)
  {
    if rs != [] {
      var init := rs[..|rs| - 1];
      assert forall j :: 0 <= j < |init| ==> init[j] == rs[j];
      TotalOfZeros(init);
    }
  }

  /** An item that does not qualify earns nothing, whatever its price. */
  lemma UnqualifiedItem(item: Item)
    requires !Qualifies(item)
    ensures ItemPoints(item) == Ok(0)
  {
  }

  /** Rule 7 adds nothing when no item qualifies. */
  lemma NoneQualify(items: seq<Item>)
    requires forall i :: 0 <= i < |items| ==> !Qualifies(items[i])
    ensures DescriptionPoints(items) == Ok(0)
  {
    var rs := ItemResults(items);
    forall j | 0 <= j < |rs|
      ensures rs[j] == Ok(0)
    {
      ItemResultsAt(items, j);
      UnqualifiedItem(items[j]);
    }
    TotalOfZeros(rs);
  }

  /** The receipt-level fields once they have been read. */
  datatype Fields = Fields(date: Date, clock: Clock, total: Decimal)

  /** Reads the receipt-level fields in the engine's order: retailer, date, time, then total. */
  function ReadFields(retailer: string, purchaseDate: string, purchaseTime: string, total: string): Result<Fields, Error>
  {
    if retailer == [] then Err(EmptyField)
    else if purchaseDate == [] then Err(EmptyField)
    else match ParseDate(purchaseDate)
      case None => Err(InvalidFormat)
      case Some(date) =>
        if purchaseTime == [] then Err(EmptyField)
        else match ParseClock(purchaseTime)
          case None => Err(InvalidFormat)
          case Some(clock) =>
            match Parse(total)
            case None => Err(InvalidNumber)
            case Some(amount) => Ok(Fields(date, clock, amount))
  }

  /** The sum of the seven rules. */
  function Points(retailer: string, f: Fields, count: nat, descriptions: int): int
  {
    AlnumCount(retailer) + DayPoints(f.date) + TimePoints(f.clock)
      + RoundTotalPoints(f.total) + QuarterTotalPoints(f.total)
      + PairPoints(count) + descriptions
  }

  /**
   * The points of a receipt given as raw text, or the first check it fails, in the
   * engine's order: retailer, date, time, total, item count, then item prices.
   */
  function Score(retailer: string, purchaseDate: string, purchaseTime: string, total: string, items: seq<Item>): Result<int, Error>
  {
    match ReadFields(retailer, purchaseDate, purchaseTime, total)
    case Err(e) => Err(e)
    case Ok(f) =>
      if |items| < 1 then Err(TooFewItems)
      else match DescriptionPoints(items)
        case Err(e) => Err(e)
        case Ok(descriptions) => Ok(Points(retailer, f, |items|, descriptions))
  }

  /** A receipt is scored exactly when every field passes its check. */
  lemma ScoreSucceedsIff(retailer: string, purchaseDate: string, purchaseTime: string, total: string, items: seq<Item>)
    ensures Score(retailer, purchaseDate, purchaseTime, total, items).Ok? <==>
      && retailer != []
      && ParseDate(purchaseDate).Some?
      && ParseClock(purchaseTime).Some?
      && Parse(total).Some?
      && |items| >= 1
      && forall i :: 0 <= i < |items| ==> !PriceUnreadable(items[i])
  {
    DescriptionPointsFails(items);
  }

  /** EmptyField is reported exactly when the retailer or date is empty, or the date reads and the time is empty. */
  lemma ScoreEmptyField(retailer: string, purchaseDate: string, purchaseTime: string, total: string, items: seq<Item>)
    ensures Score(retailer, purchaseDate, purchaseTime, total, items) == Err(EmptyField) <==>
      retailer == [] || purchaseDate == [] || (ParseDate(purchaseDate).Some? && purchaseTime == [])
  {
    DescriptionPointsFails(items);
  }

  /** InvalidFormat is reported exactly when a non-empty date or time fails to parse after the earlier checks pass. */
  lemma ScoreInvalidFormat(retailer: string, purchaseDate: string, purchaseTime: string, total: string, items: seq<Item>)
    ensures Score(retailer, purchaseDate, purchaseTime, total, items) == Err(InvalidFormat) <==>
      && retailer != [] && purchaseDate != []
      && (ParseDate(purchaseDate).None? || (purchaseTime != [] && ParseClock(purchaseTime).None?))
  {
    DescriptionPointsFails(items);
  }

  /** InvalidNumber is reported exactly when the total, or a qualifying item's price, is not a decimal. */
  lemma ScoreInvalidNumber(retailer: string, purchaseDate: string, purchaseTime: string, total: string, items: seq<Item>)
    ensures Score(retailer, purchaseDate, purchaseTime, total, items) == Err(InvalidNumber) <==>
      && retailer != [] && ParseDate(purchaseDate).Some? && ParseClock(purchaseTime).Some?
      && (Parse(total).None? || (items != [] && exists i :: 0 <= i < |items| && PriceUnreadable(items[i])))
  {
    DescriptionPointsFails(items);
  }

  /** TooFewItems is reported exactly when every receipt-level field reads and there are no items. */
  lemma ScoreTooFewItems(retailer: string, purchaseDate: string, purchaseTime: string, total: string, items: seq<Item>)
    ensures Score(retailer, purchaseDate, purchaseTime, total, items) == Err(TooFewItems) <==>
      && retailer != [] && ParseDate(purchaseDate).Some? && ParseClock(purchaseTime).Some?
      && Parse(total).Some? && items == []
  {
    DescriptionPointsFails(items);
  }

  /** Score reads the items only through their count and their rule 7 points. */
  lemma ScoreOfEquivalentItems(retailer: string, purchaseDate: string, purchaseTime: string, total: string, items: seq<Item>, items': seq<Item>)
    requires |items'| == |items| && DescriptionPoints(items') == DescriptionPoints(items)
    ensures Score(retailer, purchaseDate, purchaseTime, total, items') == Score(retailer, purchaseDate, purchaseTime, total, items)
  {
  }

  /** A malformed price on an item that does not qualify for rule 7 does not affect the receipt. */
  lemma UnqualifiedPriceNeverRead(retailer: string, purchaseDate: string, purchaseTime: string, total: string, items: seq<Item>, i: nat, price: string)
    requires i < |items| && !Qualifies(items[i])
    ensures var items' := items[i := Item(items[i].shortDescription, price)];
      Score(retailer, purchaseDate, purchaseTime, total, items') == Score(retailer, purchaseDate, purchaseTime, total, items)
  {
    var items' := items[i := Item(items[i].shortDescription, price)];
    UnqualifiedPriceIgnored(items, i, price);
    ScoreOfEquivalentItems(retailer, purchaseDate, purchaseTime, total, items, items');
  }

  /** A whole-number total earns both total rules, 75 points together. */
  lemma WholeTotalEarnsBoth(total: Decimal)
    requires IsInteger(total)
    ensures RoundTotalPoints(total) + QuarterTotalPoints(total) == 75
  {
    IntegerIsQuarterMultiple(total);
  }

  /** When no price is negative, a scored receipt has at least the points of its retailer name. */
  lemma ScoreNonNegative(retailer: string, purchaseDate: string, purchaseTime: string, total: string, items: seq<Item>)
    requires forall i :: 0 <= i < |items| ==> Parse(items[i].price).Some? ==> Parse(items[i].price).value.mantissa >= 0
    ensures var r := Score(retailer, purchaseDate, purchaseTime, total, items);
      r.Ok? ==> r.value >= AlnumCount(retailer) >= 0
  {
    DescriptionPointsNonNegative(items);
  }
}
