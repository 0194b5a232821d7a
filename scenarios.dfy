/**
 * Worked receipts: one example per rule, edge cases of the parsers, and the Target and
 * M&M Corner Market receipts, each component evaluated on its own and then assembled.
 */
module Scenarios {
  import opened Wrappers
  import opened Arith
  import opened Digits
  import opened Text
  import opened DateTime
  import opened Decimals
  import opened Scoring

  /** A word made only of letters and numbers counts every rune. */
  lemma Word(w: string)
    requires forall i :: 0 <= i < |w| ==> IsLetterOrNumber(w[i])
    ensures AlnumCount(w) == |w|
  {
    AlnumCountFull(w);
  }

  /** A rune that is neither a letter nor a number between two strings adds nothing. */
  lemma Separated(a: string, c: char, b: string)
    requires !IsLetterOrNumber(c)
    ensures AlnumCount(a + [c] + b) == AlnumCount(a) + AlnumCount(b)
  {
    AlnumCountIgnores(a, c, b);
    AlnumCountAppend(a, b);
  }

  /** Rule 1: every character of "Target" is a letter. */
  lemma TargetRetailer(retailer: string)
    requires retailer == "Target"
    ensures AlnumCount(retailer) == 6
  {
    Word(retailer);
  }

  /** Four words, the first two joined by '&' and the rest by spaces, count their letters only. */
  lemma Words(s: string, a: string, b: string, c: string, d: string)
    requires s == a + ['&'] + (b + [' '] + (c + [' '] + d))
    requires forall i :: 0 <= i < |a| ==> IsLetterOrNumber(a[i])
    requires forall i :: 0 <= i < |b| ==> IsLetterOrNumber(b[i])
    requires forall i :: 0 <= i < |c| ==> IsLetterOrNumber(c[i])
    requires forall i :: 0 <= i < |d| ==> IsLetterOrNumber(d[i])
    ensures AlnumCount(s) == |a| + |b| + |c| + |d|
  {
    Word(a);
    Word(b);
    Word(c);
    Word(d);
    Separated(c, ' ', d);
    Separated(b, ' ', c + [' '] + d);
    Separated(a, '&', b + [' '] + (c + [' '] + d));
  }

  /** Rule 1: the '&' and the spaces of "M&M Corner Market" earn nothing. */
  lemma CornerMarketRetailer(retailer: string)
    requires retailer == "M&M Corner Market"
    ensures AlnumCount(retailer) == 14
  {
    Words(retailer, "M", "M", "Corner", "Market");
  }

  /** Rule 3: the window is open at both ends, so 14:00 and 16:00 earn nothing. */
  lemma WindowEdges()
    ensures ParseClock("14:00") == Some(Clock(14, 0)) && TimePoints(Clock(14, 0)) == 0
    ensures ParseClock("16:00") == Some(Clock(16, 0)) && TimePoints(Clock(16, 0)) == 0
  {
    WindowBounds();
  }

  /** Rule 3: a minute after 14:00 earns 10. */
  lemma JustAfterTwo(s: string)
    requires s == "14:01"
    ensures ParseClock(s) == Some(Clock(14, 1)) && TimePoints(Clock(14, 1)) == 10
  {
    assert s[..2] == "14" && s[2..] == ":01" && s[2..][1..] == "01";
    assert Value("14") == 14 && Value("01") == 1;
  }

  /** Rule 3: a minute before 16:00 earns 10. */
  lemma JustBeforeFour(s: string)
    requires s == "15:59"
    ensures ParseClock(s) == Some(Clock(15, 59)) && TimePoints(Clock(15, 59)) == 10
  {
    assert s[..2] == "15" && s[2..] == ":59" && s[2..][1..] == "59";
    assert Value("15") == 15 && Value("59") == 59;
  }

  /** A one-digit hour is accepted, as the "15" layout element allows. */
  lemma OneDigitHour(s: string)
    requires s == "9:05"
    ensures ParseClock(s) == Some(Clock(9, 5))
  {
    assert s[..1] == "9" && s[1..] == ":05" && s[1..][1..] == "05";
    assert Value("9") == 9 && Value("05") == 5;
  }

  /** The hour stops at 23. */
  lemma HourOutOfRange(s: string)
    requires s == "24:00"
    ensures ParseClock(s) == None
  {
    assert s[..2] == "24" && Value("24") == 24;
  }

  /** The minute stops at 59. */
  lemma MinuteOutOfRange(s: string)
    requires s == "12:60"
    ensures ParseClock(s) == None
  {
    assert s[2..] == ":60" && s[2..][1..] == "60" && Value("60") == 60;
  }

  /** The minute takes exactly two digits. */
  lemma OneDigitMinute(s: string)
    requires s == "12:5"
    ensures ParseClock(s) == None
  {
    assert s[2..] == ":5";
  }

  /** Rules 4 and 5: 12.00 earns both, 12.25 only the quarter bonus, 12.10 neither. */
  lemma TwelveRules()
    ensures RoundTotalPoints(Decimal(1200, 2)) == 50 && QuarterTotalPoints(Decimal(1200, 2)) == 25
    ensures RoundTotalPoints(Decimal(1225, 2)) == 0 && QuarterTotalPoints(Decimal(1225, 2)) == 25
    ensures RoundTotalPoints(Decimal(1210, 2)) == 0 && QuarterTotalPoints(Decimal(1210, 2)) == 0
  {
    assert Pow10(0) == 1 && Pow10(2) == 100;
  }

  /** "12.00" reads as 1200 hundredths. */
  lemma WholeTotal(s: string)
    requires s == "12.00"
    ensures Parse(s) == Some(Decimal(1200, 2))
  {
    assert s[..2] + s[3..] == "1200" && Value("1200") == 1200;
    ParseCents(s, 1200);
  }

  /** "12.25" reads as 1225 hundredths. */
  lemma QuarterTotal(s: string)
    requires s == "12.25"
    ensures Parse(s) == Some(Decimal(1225, 2))
  {
    assert s[..2] + s[3..] == "1225" && Value("1225") == 1225;
    ParseCents(s, 1225);
  }

  /** "12.10" reads as 1210 hundredths. */
  lemma TenthTotal(s: string)
    requires s == "12.10"
    ensures Parse(s) == Some(Decimal(1210, 2))
  {
    assert s[..2] + s[3..] == "1210" && Value("1210") == 1210;
    ParseCents(s, 1210);
  }

  /** A decimal written as digits, one '.', and digits. */
  lemma ParsePointText(s: string, p: nat, m: int)
    requires 2 <= |s| && p < |s| && s[p] == '.'
    requires AllDigits(s[..p] + s[p + 1..]) && Value(s[..p] + s[p + 1..]) == m
    ensures Parse(s) == Some(Decimal(m, |s| - p - 1))
  {
    var digits := s[..p] + s[p + 1..];
    forall i | 0 <= i < p
      ensures s[..p][i] != '.'
    {
      assert s[..p][i] == digits[i];
    }
    var tail := s[p + 1..];
    forall i | 0 <= i < |tail|
      ensures tail[i] != '.'
    {
      assert tail[i] == digits[p + i];
    }
    assert IsDigit(digits[0]);
    ParseWithPoint(s, p, m);
  }

  /**
   * An ASCII description with p leading and q trailing spaces around text that neither
   * starts nor ends with a space is as many bytes long, once trimmed, as that text.
   */
  lemma PaddedAscii(s: string, p: nat, q: nat)
    requires p + q < |s| && s[p] != ' ' && s[|s| - q - 1] != ' '
    requires forall i :: 0 <= i < p ==> s[i] == ' '
    requires forall i :: |s| - q <= i < |s| ==> s[i] == ' '
    requires forall i :: 0 <= i < |s| ==> s[i] as int < 0x80
    ensures ByteLength(Trim(s)) == |s| - p - q
  {
    var m := s[p..|s| - q];
    assert s == Spaces(p) + m + Spaces(q);
    TrimPadded(p, m, q);
    ByteLengthAscii(m);
  }

  /** The total of five results, unfolded. */
  lemma TotalOfFive(a: Result<int, Error>, b: Result<int, Error>, c: Result<int, Error>, d: Result<int, Error>, e: Result<int, Error>)
    ensures Total([a, b, c, d, e]) == Combine(Combine(Combine(Combine(Combine(Ok(0), a), b), c), d), e)
  {
    assert [a][..0] == [];
    assert Total([a]) == Combine(Ok(0), a);
    assert [a, b][..1] == [a];
    assert Total([a, b]) == Combine(Total([a]), b);
    assert [a, b, c][..2] == [a, b];
    assert Total([a, b, c]) == Combine(Total([a, b]), c);
    assert [a, b, c, d][..3] == [a, b, c];
    assert Total([a, b, c, d]) == Combine(Total([a, b, c]), d);
    assert [a, b, c, d, e][..4] == [a, b, c, d];
  }

  /** Five results in order. */
  lemma FiveResults(rs: seq<Result<int, Error>>, a: Result<int, Error>, b: Result<int, Error>, c: Result<int, Error>, d: Result<int, Error>, e: Result<int, Error>)
    requires |rs| == 5 && rs[0] == a && rs[1] == b && rs[2] == c && rs[3] == d && rs[4] == e
    ensures rs == [a, b, c, d, e]
  {
  }

  // ------------------------------------------------ the classic "Target" receipt

  /** The five items of the Target receipt, in order. */
  predicate TargetItems(items: seq<Item>)
  {
    && |items| == 5
    && items[0] == Item("Mountain Dew 12PK", "6.49")
    && items[1] == Item("Emils Cheese Pizza", "12.25")
    && items[2] == Item("Knorr Creamy Chicken", "1.26")
    && items[3] == Item("Doritos Nacho Cheese", "3.35")
    && items[4] == Item("   Klarbrunn 12-PK 12 FL OZ  ", "12.00")
  }

  /** An item whose trimmed description is a multiple of 3 bytes long qualifies. */
  lemma QualifiedLength(d: string, price: string, k: nat)
    requires ByteLength(Trim(d)) == 3 * k
    ensures Qualifies(Item(d, price))
  {
  }

  /** An item whose trimmed description is not a multiple of 3 bytes long earns nothing. */
  lemma UnqualifiedLength(d: string, price: string, k: nat, r: nat)
    requires ByteLength(Trim(d)) == 3 * k + r && 0 < r < 3
    ensures ItemPoints(Item(d, price)) == Ok(0)
  {
  }

  /** An item that qualifies earns its price points once its price reads. */
  lemma QualifiedItem(item: Item, price: Decimal)
    requires Qualifies(item) && Parse(item.price) == Some(price)
    ensures ItemPoints(item) == Ok(PricePoints(price))
  {
  }

  /** ceil(0.2 * 12.25) = ceil(2.45) = 3 and ceil(0.2 * 12.00) = ceil(2.4) = 3. */
  lemma TwelvePrices()
    ensures PricePoints(Decimal(1225, 2)) == 3 && PricePoints(Decimal(1200, 2)) == 3
  {
    assert Pow10(0) == 1 && Pow10(3) == 1000;
  }

  lemma PizzaBytes(d: string)
    requires d == "Emils Cheese Pizza"
    ensures ByteLength(Trim(d)) == 18
  {
    PaddedAscii(d, 0, 0);
  }

  /** Rule 7: "Emils Cheese Pizza" is 18 bytes long and earns ceil(0.2 * 12.25) = 3. */
  lemma PizzaItem(item: Item)
    requires item == Item("Emils Cheese Pizza", "12.25")
    ensures ItemPoints(item) == Ok(3)
  {
    PizzaBytes(item.shortDescription);
    QualifiedLength(item.shortDescription, item.price, 6);
    QuarterTotal(item.price);
    TwelvePrices();
    QualifiedItem(item, Decimal(1225, 2));
  }

  lemma KlarbrunnBytes(d: string)
    requires d == "   Klarbrunn 12-PK 12 FL OZ  "
    ensures ByteLength(Trim(d)) == 24
  {
    PaddedAscii(d, 3, 2);
  }

  /** Rule 7: the padded "Klarbrunn 12-PK 12 FL OZ" is 24 bytes once trimmed and earns ceil(0.2 * 12.00) = 3. */
  lemma KlarbrunnItem(item: Item)
    requires item == Item("   Klarbrunn 12-PK 12 FL OZ  ", "12.00")
    ensures ItemPoints(item) == Ok(3)
  {
    KlarbrunnBytes(item.shortDescription);
    QualifiedLength(item.shortDescription, item.price, 8);
    WholeTotal(item.price);
    TwelvePrices();
    QualifiedItem(item, Decimal(1200, 2));
  }

  lemma MountainDewBytes(d: string)
    requires d == "Mountain Dew 12PK"
    ensures ByteLength(Trim(d)) == 17
  {
    PaddedAscii(d, 0, 0);
  }

  /** Rule 7: "Mountain Dew 12PK" is 17 bytes long and does not qualify. */
  lemma MountainDewItem(item: Item)
    requires item == Item("Mountain Dew 12PK", "6.49")
    ensures ItemPoints(item) == Ok(0)
  {
    MountainDewBytes(item.shortDescription);
    UnqualifiedLength(item.shortDescription, item.price, 5, 2);
  }

  lemma TwentyBytes(d: string)
    requires d == "Knorr Creamy Chicken" || d == "Doritos Nacho Cheese"
    ensures ByteLength(Trim(d)) == 20
  {
    PaddedAscii(d, 0, 0);
  }

  /** Rule 7: "Knorr Creamy Chicken" is 20 bytes long and does not qualify. */
  lemma KnorrItem(item: Item)
    requires item == Item("Knorr Creamy Chicken", "1.26")
    ensures ItemPoints(item) == Ok(0)
  {
    TwentyBytes(item.shortDescription);
    UnqualifiedLength(item.shortDescription, item.price, 6, 2);
  }

  /** Rule 7: "Doritos Nacho Cheese" is 20 bytes long and does not qualify. */
  lemma DoritosItem(item: Item)
    requires item == Item("Doritos Nacho Cheese", "3.35")
    ensures ItemPoints(item) == Ok(0)
  {
    TwentyBytes(item.shortDescription);
    UnqualifiedLength(item.shortDescription, item.price, 6, 2);
  }

  /** A total written as two digits, '.', and two digits. */
  lemma ParseCents(s: string, m: int)
    requires |s| == 5 && s[2] == '.' && AllDigits(s[..2] + s[3..]) && Value(s[..2] + s[3..]) == m
    ensures Parse(s) == Some(Decimal(m, 2))
  {
    var digits := s[..2] + s[3..];
    assert '.' !in s[..2] && '.' !in s[3..] by {
      assert forall i :: 0 <= i < 2 ==> s[..2][i] == digits[i];
      assert forall i :: 0 <= i < 2 ==> s[3..][i] == digits[i + 2];
    }
    ParseWithPoint(s, 2, m);
  }

  lemma TargetDate(s: string)
    requires s == "2022-01-01"
    ensures ParseDate(s) == Some(Date(2022, 1, 1))
  {
    assert s[..4] == "2022" && s[5..7] == "01" && s[8..] == "01";
    assert Value("2022") == 2022 && Value("01") == 1;
  }

  lemma TargetTime(s: string)
    requires s == "13:01"
    ensures ParseClock(s) == Some(Clock(13, 1))
  {
    assert s[..2] == "13" && s[2..] == ":01" && s[2..][1..] == "01";
    assert Value("13") == 13 && Value("01") == 1;
  }

  lemma TargetTotal(s: string)
    requires s == "35.35"
    ensures Parse(s) == Some(Decimal(3535, 2))
  {
    assert s[..2] + s[3..] == "3535" && Value("3535") == 3535;
    ParseCents(s, 3535);
  }

  /** The Target receipt's fields: 2022-01-01, 13:01 and 35.35. */
  lemma TargetFields(retailer: string, purchaseDate: string, purchaseTime: string, total: string)
    requires retailer == "Target" && purchaseDate == "2022-01-01" && purchaseTime == "13:01" && total == "35.35"
    ensures ReadFields(retailer, purchaseDate, purchaseTime, total) == Ok(Fields(Date(2022, 1, 1), Clock(13, 1), Decimal(3535, 2)))
  {
    TargetDate(purchaseDate);
    TargetTime(purchaseTime);
    TargetTotal(total);
  }

  /** Rules 2 to 5 on the Target receipt: the odd day earns 6, 13:01 and 35.35 earn nothing. */
  lemma TargetRules()
    ensures DayPoints(Date(2022, 1, 1)) == 6 && TimePoints(Clock(13, 1)) == 0
    ensures RoundTotalPoints(Decimal(3535, 2)) == 0 && QuarterTotalPoints(Decimal(3535, 2)) == 0
  {
    assert Pow10(0) == 1 && Pow10(2) == 100;
  }

  /** Rule 7 on the Target items: two qualify, each earning 3. */
  lemma TargetItemResults(items: seq<Item>)
    requires TargetItems(items)
    ensures ItemResults(items) == [Ok(0), Ok(3), Ok(0), Ok(0), Ok(3)]
  {
    MountainDewItem(items[0]);
    PizzaItem(items[1]);
    KnorrItem(items[2]);
    DoritosItem(items[3]);
    KlarbrunnItem(items[4]);
    ItemResultsAt(items, 0);
    ItemResultsAt(items, 1);
    ItemResultsAt(items, 2);
    ItemResultsAt(items, 3);
    ItemResultsAt(items, 4);
    FiveResults(ItemResults(items), Ok(0), Ok(3), Ok(0), Ok(0), Ok(3));
  }

  lemma TargetDescriptions(items: seq<Item>)
    requires TargetItems(items)
    ensures DescriptionPoints(items) == Ok(6)
  {
    TargetItemResults(items);
    TotalOfFive(Ok(0), Ok(3), Ok(0), Ok(0), Ok(3));
  }

  /** The Target receipt scores 6 + 6 + 0 + 0 + 0 + 10 + 6 = 28. */
  lemma TargetScore(retailer: string, purchaseDate: string, purchaseTime: string, total: string, items: seq<Item>)
    requires retailer == "Target" && purchaseDate == "2022-01-01" && purchaseTime == "13:01" && total == "35.35"
    requires TargetItems(items)
    ensures Score(retailer, purchaseDate, purchaseTime, total, items) == Ok(28)
  {
    var fields := Fields(Date(2022, 1, 1), Clock(13, 1), Decimal(3535, 2));
    TargetFields(retailer, purchaseDate, purchaseTime, total);
    TargetDescriptions(items);
    assert |items| == 5;
    assert Score(retailer, purchaseDate, purchaseTime, total, items) == Ok(Points(retailer, fields, 5, 6));
    TargetRetailer(retailer);
    TargetPoints(retailer);
  }

  /** The seven rules on the Target receipt's fields add up to 28. */
  lemma TargetPoints(retailer: string)
    requires AlnumCount(retailer) == 6
    ensures Points(retailer, Fields(Date(2022, 1, 1), Clock(13, 1), Decimal(3535, 2)), 5, 6) == 28
  {
    TargetRules();
  }

  // ------------------------------------------------ the classic "M&M Corner Market" receipt

  /** The four items of the Corner Market receipt: the same drink four times. */
  predicate CornerMarketItems(items: seq<Item>)
  {
    |items| == 4 && forall i :: 0 <= i < 4 ==> items[i] == Item("Gatorade", "2.25")
  }

  /** An item whose trimmed description is not a multiple of 3 bytes long does not qualify. */
  lemma NotQualified(item: Item, k: nat, r: nat)
    requires ByteLength(Trim(item.shortDescription)) == 3 * k + r && 0 < r < 3
    ensures !Qualifies(item)
  {
  }

  /** Rule 7: "Gatorade" is 8 bytes long and does not qualify. */
  lemma GatoradeItem(item: Item)
    requires item == Item("Gatorade", "2.25")
    ensures !Qualifies(item)
  {
    PaddedAscii(item.shortDescription, 0, 0);
    NotQualified(item, 2, 2);
  }

  lemma CornerMarketDescriptions(items: seq<Item>)
    requires CornerMarketItems(items)
    ensures DescriptionPoints(items) == Ok(0)
  {
    forall i | 0 <= i < |items|
      ensures !Qualifies(items[i])
    {
      GatoradeItem(items[i]);
    }
    NoneQualify(items);
  }

  lemma CornerMarketDate(s: string)
    requires s == "2022-03-20"
    ensures ParseDate(s) == Some(Date(2022, 3, 20))
  {
    assert s[..4] == "2022" && s[5..7] == "03" && s[8..] == "20";
    assert Value("2022") == 2022 && Value("03") == 3 && Value("20") == 20;
  }

  lemma CornerMarketTime(s: string)
    requires s == "14:33"
    ensures ParseClock(s) == Some(Clock(14, 33))
  {
    assert s[..2] == "14" && s[2..] == ":33" && s[2..][1..] == "33";
    assert Value("14") == 14 && Value("33") == 33;
  }

  lemma CornerMarketTotal(s: string)
    requires s == "9.00"
    ensures Parse(s) == Some(Decimal(900, 2))
  {
    assert s[..1] + s[2..] == "900" && Value("900") == 900;
    ParsePointText(s, 1, 900);
  }

  lemma CornerMarketFields(retailer: string, purchaseDate: string, purchaseTime: string, total: string)
    requires retailer == "M&M Corner Market" && purchaseDate == "2022-03-20" && purchaseTime == "14:33" && total == "9.00"
    ensures ReadFields(retailer, purchaseDate, purchaseTime, total) == Ok(Fields(Date(2022, 3, 20), Clock(14, 33), Decimal(900, 2)))
  {
    CornerMarketDate(purchaseDate);
    CornerMarketTime(purchaseTime);
    CornerMarketTotal(total);
  }

  /** The seven rules on the Corner Market receipt's fields add up to 109. */
  lemma CornerMarketPoints(retailer: string)
    requires AlnumCount(retailer) == 14
    ensures Points(retailer, Fields(Date(2022, 3, 20), Clock(14, 33), Decimal(900, 2)), 4, 0) == 109
  {
    assert Pow10(0) == 1 && Pow10(2) == 100;
  }

  /** The Corner Market receipt scores 14 + 0 + 10 + 50 + 25 + 10 + 0 = 109. */
  lemma CornerMarketScore(retailer: string, purchaseDate: string, purchaseTime: string, total: string, items: seq<Item>)
    requires retailer == "M&M Corner Market" && purchaseDate == "2022-03-20" && purchaseTime == "14:33" && total == "9.00"
    requires CornerMarketItems(items)
    ensures Score(retailer, purchaseDate, purchaseTime, total, items) == Ok(109)
  {
    var fields := Fields(Date(2022, 3, 20), Clock(14, 33), Decimal(900, 2));
    CornerMarketFields(retailer, purchaseDate, purchaseTime, total);
    CornerMarketDescriptions(items);
    assert Score(retailer, purchaseDate, purchaseTime, total, items) == Ok(Points(retailer, fields, 4, 0));
    CornerMarketRetailer(retailer);
    CornerMarketPoints(retailer);
  }

  // ------------------------------------------------ edge cases of rule 7

  /** A description of spaces only trims to length 0, a multiple of 3, so it qualifies: ceil(0.2 * 5) = 1. */
  lemma BlankDescription(item: Item)
    requires item == Item("   ", "5")
    ensures ItemPoints(item) == Ok(1)
  {
    assert Spaces(3) + [] + Spaces(0) == item.shortDescription;
    TrimPadded(3, [], 0);
    assert Parse("5") == Some(Decimal(5, 0));
    QualifiedItem(item, Decimal(5, 0));
    assert Pow10(0) == 1 && Pow10(1) == 10;
  }

  /** A negative price is accepted and earns negative points: ceil(0.2 * -100) = -20. */
  lemma NegativePrice(item: Item)
    requires item == Item("abc", "-100")
    ensures ItemPoints(item) == Ok(-20)
  {
    PaddedAscii(item.shortDescription, 0, 0);
    QualifiedLength(item.shortDescription, item.price, 1);
    NegativeText(item.price);
    QualifiedItem(item, Decimal(-100, 0));
    NegativePricePoints();
  }

  lemma NegativeText(s: string)
    requires s == "-100"
    ensures Parse(s) == Some(Decimal(-100, 0))
  {
    assert s[1..] == "100" && Value("100") == 100;
  }

  /** The point may come before the sign: ".-5" is read as -0.05. */
  lemma PointBeforeSign(s: string)
    requires s == ".-5"
    ensures Parse(s) == Some(Decimal(-5, 2))
  {
    assert s[..0] + s[1..] == "-" + "5";
    assert Value("5") == 5;
    ParseIntegerDigits("-", "5");
    ParseWithPoint(s, 0, -5);
  }

  /** A second point is refused. */
  lemma TwoPoints(s: string)
    requires s == "1.2.5"
    ensures Parse(s) == None
  {
    assert s[..1] == "1";
    FindDotAt(s, 1);
    assert s[2..][1] == '.';
  }

  /** A sign needs at least one digit after it. */
  lemma SignWithoutDigits(s: string)
    requires s == "-."
    ensures Parse(s) == None
  {
    assert s[..1] == "-";
    FindDotAt(s, 1);
    assert s[..1] + s[2..] == "-";
  }

  lemma NegativePricePoints()
    ensures PricePoints(Decimal(-100, 0)) == -20
  {
    assert Pow10(0) == 1 && Pow10(1) == 10;
  }

  /** A malformed price on a qualifying item is an error. */
  lemma MalformedQualifiedPrice(item: Item)
    requires item == Item("abc", "x")
    ensures ItemPoints(item) == Err(InvalidNumber)
  {
    PaddedAscii(item.shortDescription, 0, 0);
    QualifiedLength(item.shortDescription, item.price, 1);
    assert Parse(item.price) == None;
  }

  /** A malformed price on an item that does not qualify is never read. */
  lemma MalformedUnqualifiedPrice(item: Item)
    requires item == Item("ab", "x")
    ensures ItemPoints(item) == Ok(0)
  {
    PaddedAscii(item.shortDescription, 0, 0);
    UnqualifiedLength(item.shortDescription, item.price, 0, 2);
  }
}
