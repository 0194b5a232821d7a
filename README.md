# Receipt points engine

This is a model of the scoring engine of a small receipt-processing web service.
A receipt arrives as a retailer name, a purchase date, a purchase time, a total and a
list of items, each item having a short description and a price, all as text.
`validateReceiptPoints` checks the fields in a fixed order. Along the way it adds up
the points of seven rules:

1. One point per letter or number in the retailer name.
2. Six points when the day of the month is odd.
3. Ten points when the time is strictly after 14:00 and strictly before 16:00.
4. Fifty points when the total is a whole number.
5. Twenty-five points when the total is a multiple of 0.25.
6. Five points for every second item.
7. The ceiling of a fifth of the price, for every item whose description is a multiple
   of three bytes long once its leading and trailing spaces are trimmed.

The first check that fails ends the run with an error. When every check passes, the
sum is stored in the receipt.

The project is organised in modules:

- `Wrappers`: `Option`, `Result` and `Outcome`.
- `Arith`: powers of ten and small arithmetic facts.
- `Digits`: decimal digit strings and their values.
- `Text`: Go's `unicode.IsLetter || unicode.IsNumber` on runes, `strings.Trim(s, " ")`
  and `len` of a string in UTF-8 bytes.
- `DateTime`: `time.Parse` for the layouts `2006-01-02` and `15:04`, and
  `After`/`Before`.
- `Decimals`: the parts of the shopspring `decimal` library the engine calls.
  These are `NewFromString`, `IsInteger`, `Mod`, `IsZero`, `Mul`, `Ceil` and
  `IntPart`; decimals are exact, with value mantissa / 10^scale.
- `Scoring`: the seven rules as functions, and `Score`, the reference definition of a
  receipt's outcome.
- `Receipts`: the `Receipt` class and the engine itself. The engine is imperative in
  the source's own form: a loop over the retailer's runes, a loop over the items, and
  an update of `points` in place. It is proved against `Score`.
- `Scenarios`: worked receipts and edge cases:
  - the two example receipts;
  - the edges of the time window;
  - clock texts the parser accepts and rejects;
  - decimal texts the parser accepts and rejects;
  - blank descriptions;
  - negative and malformed prices.

The errors are modelled as four kinds, one per class of failing check:

- `EmptyField`: an empty retailer, date or time.
- `InvalidFormat`: a date or time that does not parse.
- `InvalidNumber`: a total or qualifying price that is not a decimal.
- `TooFewItems`: no items.

### Behaviour worth noting

These facts about main.go are proved, or shown on a worked receipt. Some differ from
what a reader of the rules might expect.

- A total or price is read by `decimal.NewFromString`. It may have any number of
  fraction digits. It may carry a `+` sign, end in a point (`12.`) or start with one
  (`.5`). The point may even stand before the sign: `.-5` reads as -0.05
  (`Scenarios.PointBeforeSign`). `Decimals.ParseIff` states exactly what is accepted.
  Exponent notation is not modelled (see "Left out").
- A negative price is accepted, and rule 7 then adds a negative number of points
  (`Scenarios.NegativePrice`). So a receipt's score can be below zero.
  `Scoring.ScoreNonNegative` needs the hypothesis that no price is negative.
- A description that is empty or all spaces trims to zero bytes. Zero is a multiple of
  three, so such an item earns rule 7 points (`Scenarios.BlankDescription`).
- An item that does not qualify for rule 7 never has its price read. A malformed price
  on such an item is accepted (`Scoring.UnqualifiedPriceNeverRead`).
- The "Target" receipt with five items scores 28 (`Scenarios.TargetScore`):
  6 + 6 + 10 + 3 + 3. That is:
  - 6 for the name;
  - 6 for the odd day;
  - 10 for the two pairs of items;
  - 3 each for the 18-byte and the 24-byte descriptions.
- The time layout `15:04` lets `time.Parse` take a one-digit hour (`9:05`). The minute
  must have exactly two digits.

## Model

| member | source | states |
|---|---|---|
| Receipts.Receipt.constructor | main.go:15-28 | a receipt holds the four text fields and the item list as given, with 0 points |
| Receipts.ValidateReceiptPoints | main.go:72-158 | when every check passes, the outcome is Pass and the receipt's points become its score; otherwise the outcome is the first failing check's error and the points are unchanged |
| Receipts.FieldsPoints | main.go:73-128 | checks the retailer, date, time and total in the engine's order; returns the first failing check's error, or the points of rules 1 to 5 for the fields it read |
| Receipts.Receipt.Outcome | main.go:72-158 | definition: the receipt's outcome as Scoring.Score computes it from its fields |
| Receipts.RetailerPoints | main.go:79-84 | the loop over the retailer's runes counts exactly the letters and numbers |
| Receipts.ItemsPoints | main.go:134-154 | the item loop, with rule 7 evaluated in its body as the source does, returns rule 6's five points per pair plus every item's rule 7 points, or InvalidNumber exactly when some item's rule 7 result is an error |
| Text.IsLetterOrNumber | main.go:81 | definition: unicode.IsLetter or unicode.IsNumber, exact on Latin-1; characterised through AlnumCountFull and the retailer scenarios |
| Text.AlnumCount | main.go:80-84 | the rule 1 count never exceeds the number of runes |
| Text.AlnumCountIsPositions | main.go:80-84 | the rule 1 count is the number of positions holding a letter or number |
| Text.AlnumCountAppend | main.go:80-84 | the rule 1 count of a concatenation is the sum of the counts |
| Text.AlnumCountIgnores | main.go:80-84 | inserting a rune that is neither a letter nor a number leaves the count unchanged |
| Text.AlnumCountFull | main.go:80-84 | the count equals the length exactly when every rune is a letter or number |
| Text.TrimLeft | main.go:142 | definition: drops leading spaces; characterised by TrimLeftShape |
| Text.TrimRight | main.go:142 | definition: drops trailing spaces; characterised by TrimRightShape |
| Text.TrimLeftShape | main.go:142 | trimming the left removes a prefix of spaces only, and the rest does not start with a space |
| Text.TrimRightShape | main.go:142 | trimming the right removes a suffix of spaces only, and the rest does not end with a space |
| Text.Trim | main.go:142 | the trimmed description neither starts nor ends with a space and is no longer than the original |
| Text.TrimPadded | main.go:142 | spaces around a part that neither starts nor ends with a space trim to exactly that part |
| Text.TrimRemovesSpaces | main.go:142 | every description is the front spaces Trim removes, what it keeps, and the back spaces it removes |
| Text.RuneLen | main.go:143 | definition of utf8.RuneLen by code-point range; every rune takes one to four bytes |
| Text.ByteLength | main.go:143 | a string's UTF-8 length lies between its rune count and four times that |
| Text.ByteLengthAppend | main.go:143 | the byte length of a concatenation is the sum of the byte lengths |
| Text.ByteLengthAscii | main.go:143 | an ASCII string has one byte per rune |
| DateTime.ParseDate | main.go:90-94 | definition of time.Parse("2006-01-02", s); characterised by ParseFormatDate and FormatParseDate |
| DateTime.ParseFormatDate | main.go:90-94 | every calendar date's layout text parses back to that date |
| DateTime.FormatParseDate | main.go:90-94 | every accepted date text is a calendar date, written exactly in the layout |
| DateTime.OddDayFromText | main.go:95-98 | the day is odd exactly when the date text's last digit is odd |
| DateTime.ParseClock | main.go:104-108 | definition of time.Parse("15:04", s); characterised by ParseFormatClock, ParseShortHourClock and FormatParseClock |
| DateTime.ParseFormatClock | main.go:104-108 | every time of day's layout text parses back to that time |
| DateTime.ParseShortHourClock | main.go:104-108 | a time of day with an hour below ten also parses from its text with a one-digit hour |
| DateTime.FormatParseClock | main.go:104-108 | every accepted time text denotes a time of day and is its layout text, or the same text with an hour below ten written with one digit |
| DateTime.WindowBounds | main.go:110-111 | "14:00" and "16:00" parse to 14:00 and 16:00 |
| DateTime.After | main.go:112 | definition: strictly later in the day |
| DateTime.Before | main.go:112 | definition: strictly earlier in the day |
| DateTime.InAfternoonWindow | main.go:109-114 | definition: after 14:00 and before 16:00; characterised by AfternoonWindowHours |
| DateTime.AfternoonWindowHours | main.go:109-114 | a time earns rule 3 exactly when it is 14:01 to 14:59 or within hour 15 |
| Digits.ValueOfFixed | main.go:91 | a number written in a fixed number of digits reads back as that number |
| Digits.FixedOfValue | main.go:91 | a digit string is its value written in its own width |
| Digits.ValueAppend | main.go:117 | the value of two digit strings side by side is the first shifted by the second's length, plus the second |
| Decimals.Parse | main.go:117 | definition of decimal.NewFromString; characterised by ParseIff and ParseFormat |
| Decimals.ParseInteger | main.go:117 | definition of reading a signed integer; characterised by ParseIntegerIff |
| Decimals.WithoutPoints | main.go:117 | the text with its points taken out contains no point |
| Decimals.PointCount | main.go:117 | the number of points is zero exactly when the text has no point |
| Decimals.ParseIntegerIff | main.go:117 | an integer is read exactly from an optional sign and at least one digit, as the number they spell |
| Decimals.ParseIff | main.go:117-120 | a text is read exactly when it has at most one point and, without it, is an optional sign and at least one digit; the value is those signed digits at the scale of the characters after the point |
| Decimals.PointSplit | main.go:117 | taking the points out of a text splits it at its first point |
| Decimals.FindDot | main.go:117 | finds the first decimal point, or reports that there is none |
| Decimals.ParseIntegerDigits | main.go:117 | a signed or unsigned digit string reads as its value with that sign |
| Decimals.ParseWithoutPoint | main.go:117 | text without a point reads as an integer at scale 0 |
| Decimals.ParseWithPoint | main.go:117 | text with one point reads as the digits without it, with a scale of the digits after it |
| Decimals.ParseFormat | main.go:117 | every decimal's plain text reads back as that decimal |
| Decimals.ParsePlain | main.go:117 | plain text (a sign, digits, optionally a point and digits) reads as the digits' value at the scale of the fraction |
| Decimals.Mul | main.go:150 | definition: the exact product, mantissas multiplied and scales added |
| Decimals.IsZero | main.go:126 | definition: the mantissa is zero |
| Decimals.TruncRem | main.go:126 | definition: the remainder of division rounded toward zero; characterised by TruncRemZero and TruncRemOfMultiple |
| Decimals.TruncQuo | main.go:152 | definition: the quotient rounded toward zero; characterised by IntPartOfWhole |
| Decimals.Mod | main.go:126 | definition of a.Mod(b) at the common scale; characterised by ModZeroIff |
| Decimals.IsInteger | main.go:122 | definition: no non-zero digit after the point; characterised by IsIntegerIff |
| Decimals.Ceil | main.go:152 | definition; characterised by CeilBounds |
| Decimals.IntPart | main.go:152 | definition: the value cut toward zero; characterised by IntPartOfWhole |
| Decimals.IsIntegerIff | main.go:121-124 | IsInteger holds exactly of decimals equal to a whole number |
| Decimals.ModZeroIff | main.go:125-128 | the remainder of a by b is zero exactly when a is a whole multiple of b |
| Decimals.TruncRemZero | main.go:126 | a zero truncated remainder means the dividend is a multiple of the divisor |
| Decimals.TruncRemOfMultiple | main.go:126 | a multiple of the divisor has truncated remainder zero |
| Decimals.IntegerIsQuarterMultiple | main.go:121-128 | a whole-number total is also a multiple of 0.25 |
| Decimals.CeilBounds | main.go:152 | Ceil yields a whole number c with c - 1 < d <= c |
| Decimals.IntPartOfWhole | main.go:152 | the integer part of a whole number is that number |
| Scoring.DayPoints | main.go:95-98 | definition of rule 2; with OddDayFromText, 6 points exactly when the date's last digit is odd |
| Scoring.TimePoints | main.go:109-114 | definition of rule 3; characterised by AfternoonWindowHours |
| Scoring.RoundTotalPoints | main.go:121-124 | definition of rule 4; characterised by IsIntegerIff |
| Scoring.QuarterTotalPoints | main.go:125-128 | definition of rule 5; characterised by ModZeroIff |
| Scoring.PairPoints | main.go:134-139 | definition of rule 6 as five points per complete pair |
| Scoring.OddIndexPoints | main.go:134-139 | definition of rule 6 as the loop counts it; related to PairPoints by OddIndexPointsArePairs |
| Scoring.OddIndexPointsArePairs | main.go:134-139 | five points at every odd index add up to five points per complete pair of items |
| Scoring.Qualifies | main.go:142-144 | definition: the trimmed description's byte length is a multiple of 3 |
| Scoring.PricePoints | main.go:149-152 | definition of Ceil(0.2 * price).IntPart(); characterised by PricePointsBounds |
| Scoring.ItemPoints | main.go:140-153 | definition of rule 7 for one item; characterised by ItemPointsFails and UnqualifiedItem |
| Scoring.PricePointsBounds | main.go:149-152 | rule 7 adds the least whole c with 0.2 * price <= c |
| Scoring.PricePointsNonNegative | main.go:149-152 | a price that is not negative earns no negative points |
| Scoring.ItemPointsFails | main.go:144-148 | an item's rule 7 result is an error exactly when it qualifies and its price does not parse, and the error is InvalidNumber |
| Scoring.UnqualifiedItem | main.go:144 | an item that does not qualify earns no rule 7 points and never fails |
| Scoring.Total | main.go:134-154 | definition of the running sum that stops at the first error; characterised by TotalStep and TotalFails |
| Scoring.ItemResults | main.go:134-154 | one rule 7 result per item, in order |
| Scoring.DescriptionPoints | main.go:140-153 | definition of rule 7 over all items; characterised by DescriptionPointsFails and NoneQualify |
| Scoring.Combine | main.go:134-154 | the running sum stays a sum while no item fails, and keeps the first error |
| Scoring.TotalStep | main.go:134-154 | the sum over one more item is the previous sum combined with that item |
| Scoring.TotalFails | main.go:134-154 | the item sum is an error exactly when some item fails, and then it is the first failing item's error |
| Scoring.TotalNonNegative | main.go:134-154 | a sum of results that are never negative is not negative |
| Scoring.TotalOfZeros | main.go:134-154 | a sum of zero results is zero |
| Scoring.ItemResultsAt | main.go:134-154 | the j-th item result is the j-th item's rule 7 points |
| Scoring.DescriptionPointsFails | main.go:140-153 | rule 7 fails exactly when some item is unreadable, with InvalidNumber |
| Scoring.UnqualifiedPriceIgnored | main.go:144-148 | changing the price of an item that does not qualify leaves rule 7's points unchanged |
| Scoring.DescriptionPointsNonNegative | main.go:140-153 | with no negative price, rule 7 earns no negative points |
| Scoring.NoneQualify | main.go:140-153 | when no item qualifies, rule 7 earns nothing and cannot fail |
| Scoring.ReadFields | main.go:73-128 | definition: the retailer, date, time and total checks in order; characterised through the Score lemmas |
| Scoring.Points | main.go:79-154 | definition: the sum of the seven rules |
| Scoring.Score | main.go:72-158 | definition of the outcome validateReceiptPoints computes; characterised by ScoreSucceedsIff and the four error lemmas, and matched by ValidateReceiptPoints |
| Scoring.ScoreSucceedsIff | main.go:72-158 | a receipt scores exactly when the retailer is non-empty, the date, time and total read, there is an item, and no qualifying price is unreadable |
| Scoring.ScoreEmptyField | main.go:76-78 | EmptyField exactly when the retailer or date is empty, or the date reads and the time is empty |
| Scoring.ScoreInvalidFormat | main.go:91-94 | InvalidFormat exactly when a non-empty date, or a non-empty time after a valid date, does not parse |
| Scoring.ScoreInvalidNumber | main.go:117-120 | InvalidNumber exactly when the earlier checks pass and the total, or a qualifying item's price, is not a decimal |
| Scoring.ScoreTooFewItems | main.go:131-133 | TooFewItems exactly when every field reads and the item list is empty |
| Scoring.ScoreOfEquivalentItems | main.go:134-154 | the score depends on the items only through their number and their rule 7 points |
| Scoring.UnqualifiedPriceNeverRead | main.go:140-148 | any price on an item that does not qualify gives the same outcome |
| Scoring.WholeTotalEarnsBoth | main.go:121-128 | a whole-number total earns rules 4 and 5, 75 points together |
| Scoring.ScoreNonNegative | main.go:72-158 | with no negative price, a scored receipt has at least its retailer's points |
| Scenarios.TargetRetailer | main.go:80-84 | "Target" earns 6 points |
| Scenarios.CornerMarketRetailer | main.go:80-84 | "M&M Corner Market" earns 14 points: the '&' and spaces do not count |
| Scenarios.WindowEdges | main.go:109-114 | 14:00 and 16:00 themselves earn no rule 3 points |
| Scenarios.JustAfterTwo | main.go:109-114 | 14:01 earns the rule 3 points |
| Scenarios.JustBeforeFour | main.go:109-114 | 15:59 earns the rule 3 points |
| Scenarios.OneDigitHour | main.go:104-108 | "9:05" is accepted as 09:05 |
| Scenarios.HourOutOfRange | main.go:104-108 | "24:00" is rejected |
| Scenarios.MinuteOutOfRange | main.go:104-108 | "12:60" is rejected |
| Scenarios.OneDigitMinute | main.go:104-108 | "12:5" is rejected |
| Scenarios.TwelveRules | main.go:121-128 | 12.00 earns 50 + 25; 12.25 earns only 25; 12.10 earns neither |
| Scenarios.WholeTotal | main.go:117 | "12.00" reads as 1200 at scale 2 |
| Scenarios.QuarterTotal | main.go:117 | "12.25" reads as 1225 at scale 2 |
| Scenarios.TenthTotal | main.go:117 | "12.10" reads as 1210 at scale 2 |
| Scenarios.PointBeforeSign | main.go:117 | ".-5" reads as -5 at scale 2, that is -0.05 |
| Scenarios.TwoPoints | main.go:117-120 | "1.2.5" is refused |
| Scenarios.SignWithoutDigits | main.go:117-120 | "-." is refused: a sign needs a digit |
| Scenarios.PizzaItem | main.go:140-153 | an 18-byte description priced 12.25 earns 3 points |
| Scenarios.KlarbrunnItem | main.go:140-153 | a description padded with spaces is measured after trimming (24 bytes) and, priced 12.00, earns 3 points |
| Scenarios.MountainDewItem | main.go:140-153 | a 17-byte description earns nothing |
| Scenarios.KnorrItem | main.go:140-153 | a 20-byte description earns nothing |
| Scenarios.DoritosItem | main.go:140-153 | a 20-byte description earns nothing |
| Scenarios.TargetItemResults | main.go:140-153 | the five Target items earn 0, 3, 0, 0 and 3 rule 7 points |
| Scenarios.TargetFields | main.go:86-120 | the Target receipt's fields read as 2022-01-01, 13:01 and 35.35 |
| Scenarios.TargetRules | main.go:95-128 | that date earns 6 points; that time and that total earn none |
| Scenarios.TargetScore | main.go:72-158 | the Target receipt with its five items scores 28 |
| Scenarios.CornerMarketDescriptions | main.go:140-153 | four "Gatorade" items earn no rule 7 points |
| Scenarios.CornerMarketFields | main.go:86-120 | the corner market receipt's fields read as 2022-03-20, 14:33 and 9.00 |
| Scenarios.CornerMarketScore | main.go:72-158 | the corner market receipt with four items scores 109 |
| Scenarios.BlankDescription | main.go:142-152 | an all-space description qualifies: priced 5, it earns 1 point |
| Scenarios.NegativePrice | main.go:145-152 | a price of -100 earns -20 points |
| Scenarios.MalformedQualifiedPrice | main.go:145-148 | a qualifying item with price "x" fails with InvalidNumber |
| Scenarios.MalformedUnqualifiedPrice | main.go:144 | an item that does not qualify, with price "x", earns nothing and does not fail |

## Left out

- The HTTP layer is not modelled: the router, the two handlers (`getPoints`,
  `postReceipts`), JSON binding and its `binding` tags, `main`, the in-memory
  `Receipts` map and uuid generation. They are I/O around the engine.
- Error messages are modelled as their four kinds, not as Go error strings.
- Decimals.Parse: exponent notation (`1e3`, `1.5E-2`), which `decimal.NewFromString`
  accepts, is rejected by the model. Neither example receipt uses it.
- Text.IsLetterOrNumber: it is exact for runes up to U+00FF. Runes above U+00FF are
  treated as neither letters nor numbers, because Go's full Unicode tables are not
  modelled.
- Receipts.ValidateReceiptPoints: points are unbounded integers. The source's `int64`
  accumulator and `IntPart`'s `int64` value would wrap on overflow, and only for
  absurdly large prices.
- Decimals.Quarter: `decimal.NewFromFloat(.25)` is taken as the exact 0.25.
- Decimals.Fifth: `decimal.NewFromFloat(.2)` is taken as the exact 0.2. The library
  gives these values from the shortest decimal that round-trips the float.
- Items are values, so nil item pointers in `Items []*Item` are not modelled. The
  binding layer, which is not modelled either, is what would reject them.
- Go strings are byte sequences, but the model's strings are sequences of Unicode
  scalar values. For invalid UTF-8, `range` yields U+FFFD and `len` counts raw bytes;
  neither case can be expressed. JSON binding, the only producer of these strings,
  always yields valid UTF-8.
- Dates and times are modelled as the fields the engine reads (year, month, day; hour,
  minute). Time zones, and Go's `time.Time` representation, are left out.
