/**
 Prices and the spend ceiling behind the paid tool (apps/mcp/src/tools.ts).  A price is whole
 halalas; the caller is shown riyals and sends them back as a floating-point number.
 */
module ToolPrices {
  import opened Options

  // ---------- Floating point ----------

  /** Unit roundoff of binary64, 2^-53 (section 4.3.1 of IEEE 754-2019). */
  const UNIT: real := 1.0 / 9007199254740992.0

  function Abs(x: real): real {
    if x < 0.0 then -x else x
  }

  /** Zero, and magnitudes from a thousandth to 2^53: all that a price meets, and well within the normal range. */
  predicate InRange(x: real) {
    x == 0.0 || 0.001 <= Abs(x) <= 9007199254740992.0
  }

  /** A rounding to the nearest double, of which only the relative error bound there is used. */
  ghost predicate Rounds(fl: real -> real) {
    forall x | InRange(x) :: Abs(fl(x) - x) <= UNIT * Abs(x)
  }

  // ---------- riyals and toHalalas ----------

  /** Math.round: the nearest integer, a tie going up. */
  function Round(x: real): int {
    (x + 0.5).Floor
  }

  lemma RoundsToNearest(x: real, n: int)
    ensures Round(x) == n <==> n as real - 0.5 <= x < n as real + 0.5
  {
  }

  /** toHalalas: the product is rounded once, then taken to the nearest integer. */
  function ToHalalas(riyals: real, fl: real -> real): int {
    Round(fl(riyals * 100.0))
  }

  function Digit(d: nat): char
    requires d < 10
  {
    ['0', '1', '2', '3', '4', '5', '6', '7', '8', '9'][d]
  }

  function DigitValue(c: char): Option<nat> {
    if '0' <= c <= '9' then Some(c as int - '0' as int) else None
  }

  function Digits(n: nat): (s: string)
    ensures s != [] && forall i | 0 <= i < |s| :: DigitValue(s[i]).Some?
  {
    if n < 10 then [Digit(n)] else Digits(n / 10) + [Digit(n % 10)]
  }

  /** The integer n for which n / 100 is nearest x, the larger of two (section 21.1.3.3 of ECMA-262). */
  function Nearest(x: real): int {
    Round(x * 100.0)
  }

  lemma NearestIsNearest(x: real, n: int)
    ensures Abs(Nearest(x) as real / 100.0 - x) <= Abs(n as real / 100.0 - x)
    ensures Abs(Nearest(x) as real / 100.0 - x) == Abs(n as real / 100.0 - x) ==> n <= Nearest(x)
  {
    var best := Nearest(x);
    assert best as real <= x * 100.0 + 0.5 < best as real + 1.0;
    if n < best {
      assert n as real <= best as real - 1.0;
    } else if best < n {
      assert best as real + 1.0 <= n as real;
    }
  }

  /** x.toFixed(2), for |x| below 10^21. */
  function ToFixed2(x: real): string {
    if x < 0.0 then "-" + Decimal(Nearest(-x)) else Decimal(Nearest(x))
  }

  /** n / 100 written with two decimals. */
  function Decimal(n: int): string {
    if n < 0 then "" else Digits(n / 100) + "." + [Digit(n / 10 % 10), Digit(n % 10)]
  }

  /** h / 100 written with two decimals, and a sign below zero. */
  function Signed(h: int): string {
    if h < 0 then "-" + Decimal(-h) else Decimal(h)
  }

  /** riyals(h). */
  function Riyals(halalas: int, fl: real -> real): string {
    ToFixed2(fl(halalas as real / 100.0))
  }

  /** The number a run of digits spells, and ten to its length. */
  function Spelled(s: string): Option<nat> {
    if s == [] then Some(0)
    else
      match (Spelled(s[..|s| - 1]), DigitValue(s[|s| - 1]))
      case (Some(front), Some(last)) => Some(10 * front + last)
      case _ => None
  }

  function PowerOfTen(n: nat): (p: real)
    ensures 0.0 < p
  {
    if n == 0 then 1.0 else 10.0 * PowerOfTen(n - 1)
  }

  function DotAt(s: string, from: nat): nat
    requires from <= |s|
    ensures from <= DotAt(s, from) <= |s|
    decreases |s| - from
  {
    if from == |s| || s[from] == '.' then from else DotAt(s, from + 1)
  }

  /** The exact value of digits, a dot, and digits. */
  function UnsignedValue(s: string): Option<real> {
    var dot := DotAt(s, 0);
    if dot == 0 || |s| <= dot + 1 then None
    else
      match (Spelled(s[..dot]), Spelled(s[dot + 1..]))
      case (Some(whole), Some(part)) => Some(whole as real + part as real / PowerOfTen(|s| - dot - 1))
      case _ => None
  }

  /** The same, with a sign before it or not. */
  function DecimalValue(s: string): Option<real> {
    if s != "" && s[0] == '-'
    then match UnsignedValue(s[1..])
         case Some(x) => Some(-x)
         case None => None
    else UnsignedValue(s)
  }

  /** Number(s): the exact value, rounded once. */
  function NumberOf(s: string, fl: real -> real): Option<real> {
    match DecimalValue(s)
    case Some(x) => Some(fl(x))
    case None => None
  }

  lemma {:induction false} DigitsSpell(n: nat)
    ensures Spelled(Digits(n)) == Some(n)
  {
    if n >= 10 {
      DigitsSpell(n / 10);
      assert Digits(n)[..|Digits(n)| - 1] == Digits(n / 10);
    } else {
      assert Digits(n)[..0] == "";
      assert Spelled("") == Some(0);
    }
  }

  lemma {:induction false} DotAfterDigits(s: string, rest: string, from: nat)
    requires from <= |s| && forall i | 0 <= i < |s| :: DigitValue(s[i]).Some?
    ensures DotAt(s + "." + rest, from) == |s|
    decreases |s| - from
  {
    var all := s + "." + rest;
    if from < |s| {
      assert all[from] == s[from] && DigitValue(s[from]).Some?;
      DotAfterDigits(s, rest, from + 1);
    } else {
      assert all[from] == '.';
    }
  }

  lemma TwoDigitsSpell(a: nat, b: nat)
    requires a < 10 && b < 10
    ensures Spelled([Digit(a), Digit(b)]) == Some(10 * a + b)
  {
    var s := [Digit(a), Digit(b)];
    assert s[..1] == [Digit(a)];
    assert [Digit(a)][..0] == "";
    assert Spelled("") == Some(0);
    assert Spelled([Digit(a)]) == Some(a);
  }

  lemma Hundredths(n: nat)
    ensures n == 100 * (n / 100) + 10 * (n / 10 % 10) + n % 10
  {
    var tens := n / 10;
    assert n == 10 * tens + n % 10;
    assert tens == 10 * (tens / 10) + tens % 10;
    TenTimesTen(n, tens, tens / 10);
  }

  lemma TenTimesTen(n: nat, tens: nat, hundreds: nat)
    requires 10 * tens <= n < 10 * tens + 10 && 10 * hundreds <= tens < 10 * hundreds + 10
    ensures hundreds == n / 100
  {
  }

  lemma WholeAndHundredths(n: nat, whole: nat, part: nat)
    requires n == 100 * whole + part
    ensures whole as real + part as real / 100.0 == n as real / 100.0
  {
    assert n as real == 100.0 * whole as real + part as real;
  }

  lemma UnsignedReadsBack(n: nat)
    ensures UnsignedValue(Decimal(n)) == Some(n as real / 100.0)
  {
    hide Digits, Digit, DotAt, Spelled, PowerOfTen;
    var whole, part := Digits(n / 100), [Digit(n / 10 % 10), Digit(n % 10)];
    DotAfterDigits(whole, part, 0);
    var s := whole + "." + part;
    assert Decimal(n) == s;
    assert s[..|whole|] == whole && s[|whole| + 1..] == part;
    DigitsSpell(n / 100);
    TwoDigitsSpell(n / 10 % 10, n % 10);
    TwoPlaces();
    Hundredths(n);
    WholeAndHundredths(n, n / 100, 10 * (n / 10 % 10) + n % 10);
    assert |s| - |whole| - 1 == 2;
    assert PowerOfTen(|s| - |whole| - 1) == 100.0;
    assert DotAt(s, 0) == |whole|;
    assert Spelled(s[..|whole|]) == Some(n / 100);
    assert Spelled(s[|whole| + 1..]) == Some(10 * (n / 10 % 10) + n % 10);
  }

  lemma DecimalStartsWithADigit(n: nat)
    ensures Decimal(n) != "" && DigitValue(Decimal(n)[0]).Some?
  {
    assert Decimal(n)[0] == Digits(n / 100)[0];
  }

  /** Reading back what was printed gives the exact hundredths. */
  lemma DecimalReadsBack(h: int)
    ensures DecimalValue(Signed(h)) == Some(h as real / 100.0)
  {
    hide UnsignedValue, Decimal;
    if h < 0 {
      UnsignedReadsBack(-h);
      assert Signed(h)[1..] == Decimal(-h);
      assert (-h) as real / 100.0 == -(h as real / 100.0);
    } else {
      UnsignedReadsBack(h);
      DecimalStartsWithADigit(h);
    }
  }

  lemma TwoPlaces()
    ensures PowerOfTen(2) == 100.0
  {
    assert PowerOfTen(1) == 10.0 * PowerOfTen(0);
  }

  /** Amounts of less than 2^51 halalas either way. */
  predicate Small(h: int) {
    -0x8_0000_0000_0000 < h < 0x8_0000_0000_0000
  }

  lemma RoundedQuotient(h: int, fl: real -> real)
    requires Rounds(fl) && Small(h)
    ensures var q := fl(h as real / 100.0);
            -0.0025 < q - h as real / 100.0 < 0.0025 && (q < 0.0 <==> h < 0)
    ensures var q := fl(h as real / 100.0);
            Abs(q * 100.0 - h as real) <= UNIT * Abs(h as real)
  {
    var x := h as real / 100.0;
    assert Abs(fl(x) - x) <= UNIT * Abs(x);
    assert Abs(h as real) < 2251799813685248.0;
  }

  /** The text is the price itself: rounding the quotient never moves a halala. */
  lemma RiyalsIsExact(h: int, fl: real -> real)
    requires Rounds(fl) && Small(h)
    ensures Riyals(h, fl) == Signed(h)
  {
    hide Decimal;
    RoundedQuotient(h, fl);
    var q := fl(h as real / 100.0);
    assert h >= 0 ==> Nearest(q) == h;
    assert h < 0 ==> Nearest(-q) == -h;
  }

  /**
   The price quoted always passes the gate: for every price below 2^51 halalas, reading the
   quoted text as a number and turning it back into halalas gives the price.
   */
  lemma QuotedPricePasses(h: int, fl: real -> real)
    requires Rounds(fl) && Small(h)
    ensures NumberOf(Riyals(h, fl), fl).Some?
    ensures ToHalalas(NumberOf(Riyals(h, fl), fl).value, fl) == h
  {
    RiyalsIsExact(h, fl);
    DecimalReadsBack(h);
    SurvivesRounding(h, fl);
  }

  lemma SurvivesRounding(h: int, fl: real -> real)
    requires Rounds(fl) && Small(h)
    ensures ToHalalas(fl(h as real / 100.0), fl) == h
  {
    RoundedQuotient(h, fl);
    var p := fl(h as real / 100.0) * 100.0;
    ProductNearPrice(h, p, fl(p), fl);
  }

  /** A product that is off by one rounding of the price rounds back to it. */
  lemma ProductNearPrice(h: int, p: real, rounded: real, fl: real -> real)
    requires Rounds(fl) && Small(h)
    requires Abs(p - h as real) <= UNIT * Abs(h as real) && rounded == fl(p)
    ensures Round(rounded) == h
  {
    assert Abs(h as real) <= 2251799813685247.0;
    assert InRange(p);
    assert Abs(fl(p) - p) <= UNIT * Abs(p);
    assert -0.5 < rounded - h as real < 0.5;
  }

  /** A rounding as far off as the roundoff allows, always upwards. */
  function RoundsUp(x: real): real {
    x * (1.0 + UNIT)
  }

  /** 2^51 is where it stops: no larger bound follows from the roundoff alone. */
  lemma BoundIsSharp()
    ensures Rounds(RoundsUp)
    ensures ToHalalas(RoundsUp(0x8_0000_0000_0000 as real / 100.0), RoundsUp) != 0x8_0000_0000_0000
  {
    var h := 2251799813685248.0;
    var p := RoundsUp(h / 100.0) * 100.0;
    assert p == h * (1.0 + UNIT) == h + 0.25;
    assert RoundsUp(p) > h + 0.5;
  }

  // ---------- The spend ceiling ----------

  datatype Product = Product(code: string, price: Option<real>)

  datatype Refusal = NoProduct | NoPrice | WrongCost | NoRoom | Api

  /** How the paid request ended. */
  datatype Outcome = Refused | Fresh | Replayed

  datatype Result = Ran(replayed: bool) | Declined(why: Refusal)

  datatype Quote = Priced(halalas: int) | Unpriced(why: Refusal)

  /** One call of the paid tool: the price list it read, what it was asked and how the request ended. */
  datatype Call = Call(products: seq<Product>, product: string, confirmed: real, outcome: Outcome)

  /** The first row with the code. */
  function Row(products: seq<Product>, code: string): Option<Product> {
    if products == [] then None
    else if products[0].code == code then Some(products[0])
    else Row(products[1..], code)
  }

  function PriceOf(products: seq<Product>, code: string, fl: real -> real): Quote {
    match Row(products, code)
    case None => Unpriced(NoProduct)
    case Some(row) => if row.price.None? then Unpriced(NoPrice) else Priced(ToHalalas(row.price.value, fl))
  }

  /** The caller sent back the price it was shown, and the session can pay it. */
  predicate PassesTheGate(call: Call, spent: int, ceiling: int, fl: real -> real) {
    var price := PriceOf(call.products, call.product, fl);
    price.Priced? && ToHalalas(call.confirmed, fl) == price.halalas && spent + price.halalas <= ceiling
  }

  predicate Accepted(call: Call, spent: int, ceiling: int, fl: real -> real) {
    PassesTheGate(call, spent, ceiling, fl) && !call.outcome.Refused?
  }

  function Charge(call: Call, spent: int, ceiling: int, fl: real -> real): int {
    if Accepted(call, spent, ceiling, fl) && call.outcome.Fresh?
    then PriceOf(call.products, call.product, fl).halalas else 0
  }

  /** What one call answers and what it does to the spend. */
  predicate Answers(call: Call, r: Result, before: int, after: int, ceiling: int, fl: real -> real) {
    && (r.Ran? <==> Accepted(call, before, ceiling, fl))
    && (r.Ran? ==> r.replayed == call.outcome.Replayed?)
    && after == before + Charge(call, before, ceiling, fl)
  }

  class SpendLimit {
    const ceiling: int
    var spent: int

    constructor (ceiling: int)
      ensures this.ceiling == ceiling && spent == 0
    {
      this.ceiling, spent := ceiling, 0;
    }

    predicate HasRoom(amount: int)
      reads this
    {
      spent + amount <= ceiling
    }

    method Commit(amount: int)
      modifies this
      ensures spent == old(spent) + amount
    {
      spent := spent + amount;
    }

    /** `requested` says whether the paid request was sent at all. */
    method RunVerification(call: Call, fl: real -> real) returns (r: Result, requested: bool)
      modifies this
      ensures Answers(call, r, old(spent), spent, ceiling, fl)
      ensures ListedAt(call, |call.products|) ==> r == Declined(NoProduct) && !requested && spent == old(spent)
      ensures forall i | 0 <= i < |call.products| && ListedAt(call, i) ::
                match call.products[i].price
                case None => r == Declined(NoPrice) && !requested && spent == old(spent)
                case Some(x) =>
                  var price, confirmed := ToHalalas(x, fl), ToHalalas(call.confirmed, fl);
                  && (requested <==> confirmed == price && old(spent) + price <= ceiling)
                  && (r.Ran? <==> requested && !call.outcome.Refused?)
                  && (requested && call.outcome.Refused? ==> r == Declined(Api))
                  && (r.Ran? ==> r.replayed == call.outcome.Replayed?)
                  && (r == Declined(WrongCost) <==> confirmed != price)
                  && (r == Declined(NoRoom) <==> confirmed == price && ceiling < old(spent) + price)
                  && spent == old(spent) + if r == Ran(false) then price else 0
      ensures spent <= old(spent) || spent <= ceiling
    {
      PricesAreListed(call, fl);
      hide PriceOf, ListedAt, ToHalalas;
      var price := PriceOf(call.products, call.product, fl);
      if price.Unpriced? {
        return Declined(price.why), false;
      }
      var halalas := price.halalas;
      if ToHalalas(call.confirmed, fl) != halalas {
        return Declined(WrongCost), false;
      }
      if !HasRoom(halalas) {
        return Declined(NoRoom), false;
      }
      if call.outcome.Refused? {
        return Declined(Api), true;
      }
      if !call.outcome.Replayed? {
        Commit(halalas);
      }
      return Ran(call.outcome.Replayed?), true;
    }
  }

  /** The row the call's code names is at i, and at the list's length when there is none. */
  predicate ListedAt(call: Call, i: nat) {
    && i <= |call.products|
    && (forall k | 0 <= k < i :: call.products[k].code != call.product)
    && (i < |call.products| ==> call.products[i].code == call.product)
  }

  /** The price a call is held to is the one in the first row with its code. */
  lemma {:induction false} PriceIsTheListedOne(products: seq<Product>, code: string, i: nat, fl: real -> real)
    requires i <= |products| && forall k | 0 <= k < i :: products[k].code != code
    requires i < |products| ==> products[i].code == code
    ensures PriceOf(products, code, fl) ==
            if i == |products| then Unpriced(NoProduct)
            else if products[i].price.None? then Unpriced(NoPrice)
            else Priced(ToHalalas(products[i].price.value, fl))
  {
    if i > 0 {
      PriceIsTheListedOne(products[1..], code, i - 1, fl);
    }
  }

  lemma PricesAreListed(call: Call, fl: real -> real)
    ensures forall i: nat | ListedAt(call, i) ::
              PriceOf(call.products, call.product, fl) ==
              if i == |call.products| then Unpriced(NoProduct)
              else if call.products[i].price.None? then Unpriced(NoPrice)
              else Priced(ToHalalas(call.products[i].price.value, fl))
  {
    forall i: nat | ListedAt(call, i)
      ensures PriceOf(call.products, call.product, fl) ==
              if i == |call.products| then Unpriced(NoProduct)
              else if call.products[i].price.None? then Unpriced(NoPrice)
              else Priced(ToHalalas(call.products[i].price.value, fl))
    {
      PriceIsTheListedOne(call.products, call.product, i, fl);
    }
  }

  /** Where the first row with the code is. */
  function FirstAt(products: seq<Product>, code: string): (i: nat)
    ensures i <= |products|
    ensures forall k | 0 <= k < i :: products[k].code != code
    ensures i < |products| ==> products[i].code == code
  {
    if products == [] || products[0].code == code then 0 else 1 + FirstAt(products[1..], code)
  }

  /** A call as its caller sees it. */
  datatype Seen = Seen(call: Call, result: Result)

  /** Calls that do not overlap, each answered as the tool answers it: spends[i] was spent when call i began. */
  ghost predicate Session(seen: seq<Seen>, spends: seq<int>, ceiling: int, fl: real -> real) {
    && |spends| == |seen| + 1 && spends[0] == 0
    && forall i | 0 <= i < |seen| :: Answers(seen[i].call, seen[i].result, spends[i], spends[i + 1], ceiling, fl)
  }

  /** What a call that was answered as run and not replayed is listed at, in halalas. */
  function Listed(call: Call, fl: real -> real): int {
    var i := FirstAt(call.products, call.product);
    if i < |call.products| && call.products[i].price.Some? then ToHalalas(call.products[i].price.value, fl) else 0
  }

  /** The sum of the listed prices of the calls that were answered as run and not replayed. */
  function PaidFor(seen: seq<Seen>, fl: real -> real): int {
    if seen == [] then 0
    else
      var last := seen[|seen| - 1];
      PaidFor(seen[..|seen| - 1], fl) + if last.result == Ran(false) then Listed(last.call, fl) else 0
  }

  lemma AnsweredAtItsListedPrice(call: Call, r: Result, before: int, after: int, ceiling: int, fl: real -> real)
    requires Answers(call, r, before, after, ceiling, fl)
    ensures after == before + if r == Ran(false) then Listed(call, fl) else 0
    ensures r.Ran? ==> before + Listed(call, fl) <= ceiling
  {
    hide ToHalalas;
    PriceIsTheListedOne(call.products, call.product, FirstAt(call.products, call.product), fl);
  }

  /** What is spent is the sum of the listed prices of the runs that were not replays, and never passes the ceiling. */
  lemma {:induction false} SpentIsWhatWasPaidFor(seen: seq<Seen>, spends: seq<int>, ceiling: nat, fl: real -> real)
    requires Session(seen, spends, ceiling, fl)
    ensures spends[|seen|] == PaidFor(seen, fl) <= ceiling
  {
    hide Answers, Listed;
    if seen != [] {
      var n := |seen| - 1;
      assert Session(seen[..n], spends[..n + 1], ceiling, fl);
      SpentIsWhatWasPaidFor(seen[..n], spends[..n + 1], ceiling, fl);
      assert Answers(seen[n].call, seen[n].result, spends[n], spends[n + 1], ceiling, fl);
      AnsweredAtItsListedPrice(seen[n].call, seen[n].result, spends[n], spends[n + 1], ceiling, fl);
    }
  }

  /** A price listed as the number nearest h hundredths counts h halalas. */
  lemma ListedInHalalas(call: Call, h: int, fl: real -> real)
    requires Rounds(fl) && Small(h)
    requires var i := FirstAt(call.products, call.product);
             i < |call.products| && call.products[i].price == Some(fl(h as real / 100.0))
    ensures Listed(call, fl) == h
  {
    SurvivesRounding(h, fl);
  }

  /** Confirming the quoted figure of a listed price is never refused for the cost. */
  lemma QuoteThenRunIsConfirmed(products: seq<Product>, code: string, fl: real -> real)
    requires Rounds(fl)
    requires var price := PriceOf(products, code, fl); price.Priced? && Small(price.halalas)
    ensures var h := PriceOf(products, code, fl).halalas;
            NumberOf(Riyals(h, fl), fl).Some?
            && forall spent, ceiling, outcome ::
                 PassesTheGate(Call(products, code, NumberOf(Riyals(h, fl), fl).value, outcome), spent, ceiling, fl)
                 <==> spent + h <= ceiling
  {
    hide ToHalalas, Riyals, NumberOf, Row;
    QuotedPricePasses(PriceOf(products, code, fl).halalas, fl);
  }

  // ---------- Calls that overlap ----------

  /** Calls past the room check whose requests have not ended, and what is spent. */
  datatype Purse = Purse(spent: int, pending: seq<nat>)

  datatype Step = Admit(amount: nat) | Settle(i: nat, charged: bool)

  predicate Enabled(s: Purse, st: Step, ceiling: int) {
    match st
    case Admit(amount) => s.spent + amount <= ceiling
    case Settle(i, _) => i < |s.pending|
  }

  function Next(s: Purse, st: Step): Purse {
    match st
    case Admit(amount) => s.(pending := s.pending + [amount])
    case Settle(i, charged) =>
      if i < |s.pending|
      then Purse(s.spent + if charged then s.pending[i] else 0, s.pending[..i] + s.pending[i + 1..])
      else s
  }

  /**
   One call of the tool in these steps: it is admitted exactly when a confirmed price has room, and
   settled, whatever was settled meanwhile, charged exactly when the request ran and was no replay.
   With nothing between the two that is what the tool does to the spend.
   */
  lemma CallsAreSteps(call: Call, h: nat, spent: int, pending: seq<nat>, later: int, ceiling: int, fl: real -> real)
    requires PriceOf(call.products, call.product, fl) == Priced(h)
    ensures PassesTheGate(call, spent, ceiling, fl) <==>
            ToHalalas(call.confirmed, fl) == h && Enabled(Purse(spent, pending), Admit(h), ceiling)
    ensures var settle := Settle(|pending|, call.outcome.Fresh?);
            && Enabled(Purse(later, pending + [h]), settle, ceiling)
            && Next(Purse(later, pending + [h]), settle) == Purse(later + if call.outcome.Fresh? then h else 0, pending)
    ensures PassesTheGate(call, spent, ceiling, fl) ==>
              forall r, after ::
                Answers(call, r, spent, after, ceiling, fl) ==>
                  after == Next(Next(Purse(spent, pending), Admit(h)), Settle(|pending|, call.outcome.Fresh?)).spent
  {
    hide ToHalalas, Row;
    var p := pending + [h];
    assert p[..|pending|] == pending && p[|pending| + 1..] == [] && pending + [] == pending;
  }

  /** The steps can be taken from s, with no more than k calls under way at once and none dearer than m. */
  predicate Within(s: Purse, steps: seq<Step>, ceiling: int, k: nat, m: nat)
    decreases |steps|
  {
    |s.pending| <= k &&
    (steps == [] ||
     (Enabled(s, steps[0], ceiling)
      && (steps[0].Admit? ==> steps[0].amount <= m)
      && Within(Next(s, steps[0]), steps[1..], ceiling, k, m)))
  }

  function After(s: Purse, steps: seq<Step>): Purse
    decreases |steps|
  {
    if steps == [] then s else After(Next(s, steps[0]), steps[1..])
  }

  function Sum(a: seq<nat>): nat {
    if a == [] then 0 else Sum(a[..|a| - 1]) + a[|a| - 1]
  }

  lemma {:induction false} SumWithout(a: seq<nat>, i: nat)
    requires i < |a|
    ensures Sum(a[..i] + a[i + 1..]) + a[i] == Sum(a)
  {
    var last := |a| - 1;
    if i < last {
      SumWithout(a[..last], i);
      assert (a[..i] + a[i + 1..])[..last - 1] == a[..last][..i] + a[..last][i + 1..];
    } else {
      assert a[..i] + a[i + 1..] == a[..last];
    }
  }

  lemma {:induction false} SumAtMost(a: seq<nat>, m: nat)
    requires forall i | 0 <= i < |a| :: a[i] <= m
    ensures Sum(a) <= |a| * m
  {
    if a != [] {
      var last := |a| - 1;
      SumAtMost(a[..last], m);
      assert last * m + m == |a| * m;
    }
  }

  /** What every step keeps: the calls under way, with what is spent, stay within k - 1 prices of the ceiling. */
  ghost predicate Bounded(s: Purse, ceiling: int, k: nat, m: nat) {
    && (forall i | 0 <= i < |s.pending| :: s.pending[i] <= m)
    && s.spent + Sum(s.pending) <= ceiling + (k - 1) * m
  }

  lemma FewerPrices(a: int, b: int, m: nat)
    requires a <= b
    ensures a * m <= b * m
  {
  }

  lemma AdmitKeepsBounded(s: Purse, amount: nat, ceiling: int, k: nat, m: nat)
    requires Bounded(s, ceiling, k, m) && s.spent + amount <= ceiling && amount <= m && |s.pending| + 1 <= k
    ensures Bounded(Next(s, Admit(amount)), ceiling, k, m)
  {
    var pending := s.pending + [amount];
    SumAtMost(s.pending, m);
    FewerPrices(|s.pending|, k - 1, m);
    assert pending[..|s.pending|] == s.pending;
    assert Sum(pending) == Sum(s.pending) + amount;
  }

  lemma SettleKeepsBounded(s: Purse, i: nat, charged: bool, ceiling: int, k: nat, m: nat)
    requires Bounded(s, ceiling, k, m) && i < |s.pending|
    ensures Bounded(Next(s, Settle(i, charged)), ceiling, k, m)
  {
    SumWithout(s.pending, i);
    var most := (k - 1) * m;
    assert s.spent + Sum(s.pending) <= ceiling + most;
  }

  lemma StepKeepsBounded(s: Purse, st: Step, ceiling: int, k: nat, m: nat)
    requires Bounded(s, ceiling, k, m) && Enabled(s, st, ceiling)
    requires st.Admit? ==> st.amount <= m && |s.pending| + 1 <= k
    ensures Bounded(Next(s, st), ceiling, k, m)
  {
    hide Bounded, Next;
    match st
    case Admit(amount) => AdmitKeepsBounded(s, amount, ceiling, k, m);
    case Settle(i, charged) => SettleKeepsBounded(s, i, charged, ceiling, k, m);
  }

  /**
   With at most k calls under way at once and no price above m, the ceiling is passed by at most
   k - 1 prices: not at all when calls do not overlap.
   */
  lemma {:induction false} OverlapPassesByAtMost(s: Purse, steps: seq<Step>, ceiling: int, k: nat, m: nat)
    requires 1 <= k && Bounded(s, ceiling, k, m) && Within(s, steps, ceiling, k, m)
    ensures After(s, steps).spent <= ceiling + (k - 1) * m
    decreases |steps|
  {
    if steps != [] {
      var s' := Next(s, steps[0]);
      StepKeepsBounded(s, steps[0], ceiling, k, m);
      OverlapPassesByAtMost(s', steps[1..], ceiling, k, m);
    }
  }

  function Admits(k: nat, m: nat): seq<Step> {
    if k == 0 then [] else [Admit(m)] + Admits(k - 1, m)
  }

  function Settles(k: nat): seq<Step> {
    if k == 0 then [] else [Settle(0, true)] + Settles(k - 1)
  }

  function Min(a: nat, b: nat): nat {
    if a < b then a else b
  }

  const EMPTY := Purse(0, [])

  /** No call is admitted at a price above the ceiling itself. */
  lemma {:induction false} PricesFitTheCeiling(s: Purse, steps: seq<Step>, ceiling: nat, k: nat, m: nat)
    requires 0 <= s.spent && Within(s, steps, ceiling, k, m)
    ensures Within(s, steps, ceiling, k, Min(m, ceiling))
    decreases |steps|
  {
    if steps != [] {
      PricesFitTheCeiling(Next(s, steps[0]), steps[1..], ceiling, k, m);
    }
  }

  lemma {:induction false} OneAfterAnother(s: Purse, a: seq<Step>, b: seq<Step>, ceiling: int, k: nat, m: nat)
    requires Within(s, a, ceiling, k, m) && Within(After(s, a), b, ceiling, k, m)
    ensures Within(s, a + b, ceiling, k, m) && After(s, a + b) == After(After(s, a), b)
    decreases |a|
  {
    if a == [] {
      assert a + b == b;
    } else {
      OneAfterAnother(Next(s, a[0]), a[1..], b, ceiling, k, m);
      assert (a + b)[1..] == a[1..] + b;
    }
  }

  /** Paid calls one at a time, each at price d or what is left, until so much is spent. */
  function Climb(left: nat, d: nat): seq<Step>
    requires 0 < d
  {
    if left == 0 then [] else [Admit(Min(d, left)), Settle(0, true)] + Climb(left - Min(d, left), d)
  }

  lemma {:induction false} ClimbSpends(spent: int, left: nat, ceiling: int, k: nat, d: nat)
    requires 1 <= k && 0 < d && spent + left <= ceiling
    ensures Within(Purse(spent, []), Climb(left, d), ceiling, k, d)
    ensures After(Purse(spent, []), Climb(left, d)) == Purse(spent + left, [])
    decreases left
  {
    if left > 0 {
      var a := Min(d, left);
      var steps, admitted, settled := Climb(left, d), Purse(spent, [a]), Purse(spent + a, []);
      assert Next(Purse(spent, []), steps[0]) == admitted by { assert [] + [a] == [a]; }
      assert Next(admitted, steps[1]) == settled by { assert [a][..0] + [a][1..] == []; }
      ClimbSpends(spent + a, left - a, ceiling, k, d);
      assert steps[1..][1..] == Climb(left - a, d);
      assert steps[1..][0] == steps[1];
      assert Within(admitted, steps[1..], ceiling, k, d);
    }
  }

  /**
   From nothing spent, k overlapping calls do pass the ceiling by k - 1 of the dearest price that
   fits under it: all pass the check before any is counted.
   */
  lemma OverlapReachesTheBound(ceiling: nat, k: nat, m: nat) returns (steps: seq<Step>)
    requires 1 <= k && 1 <= m
    ensures Within(EMPTY, steps, ceiling, k, m)
    ensures After(EMPTY, steps).spent == ceiling + (k - 1) * Min(m, ceiling)
  {
    var d := Min(m, ceiling);
    if d == 0 {
      steps := [];
    } else {
      var climb, rest := Climb(ceiling - d, d), Admits(k, d) + Settles(k);
      ClimbSpends(0, ceiling - d, ceiling, k, d);
      AdmitAll(ceiling - d, [], k, k, ceiling, d);
      OneAfterAnother(EMPTY, climb, rest, ceiling, k, d);
      steps := climb + rest;
      DearerIsAllowed(EMPTY, steps, ceiling, k, d, m);
      assert ceiling - d + k * d == ceiling + (k - 1) * d;
    }
  }

  lemma {:induction false} DearerIsAllowed(s: Purse, steps: seq<Step>, ceiling: int, k: nat, d: nat, m: nat)
    requires d <= m && Within(s, steps, ceiling, k, d)
    ensures Within(s, steps, ceiling, k, m)
    decreases |steps|
  {
    if steps != [] {
      DearerIsAllowed(Next(s, steps[0]), steps[1..], ceiling, k, d, m);
    }
  }

  ghost predicate AlwaysWithin(bound: int, ceiling: nat, k: nat, m: nat) {
    forall steps: seq<Step> :: Within(EMPTY, steps, ceiling, k, m) ==> After(EMPTY, steps).spent <= bound
  }

  /** With at most k calls under way at prices up to m, this is the most that is ever spent, and it is spent. */
  lemma MostThatIsSpent(ceiling: nat, k: nat, m: nat, bound: int)
    requires 1 <= k && 1 <= m
    ensures AlwaysWithin(bound, ceiling, k, m) <==> ceiling + (k - 1) * Min(m, ceiling) <= bound
  {
    var d := Min(m, ceiling);
    forall steps: seq<Step> | Within(EMPTY, steps, ceiling, k, m)
      ensures After(EMPTY, steps).spent <= ceiling + (k - 1) * d
    {
      PricesFitTheCeiling(EMPTY, steps, ceiling, k, m);
      FewerPrices(0, k - 1, d);
      OverlapPassesByAtMost(EMPTY, steps, ceiling, k, d);
    }
    var steps := OverlapReachesTheBound(ceiling, k, m);
  }

  /** The ceiling holds if and only if calls do not overlap, or nothing can be bought at all. */
  lemma CeilingHoldsExactly(ceiling: nat, k: nat, m: nat)
    ensures AlwaysWithin(ceiling, ceiling, k, m) <==> k <= 1 || m == 0 || ceiling == 0
  {
    if k == 0 || m == 0 {
      forall steps: seq<Step> | Within(EMPTY, steps, ceiling, k, m)
        ensures After(EMPTY, steps).spent <= ceiling
      {
        NothingIsBought(EMPTY, steps, ceiling, k, m);
      }
    } else {
      MostThatIsSpent(ceiling, k, m, ceiling);
      OverPrice(k, Min(m, ceiling));
    }
  }

  lemma OverPrice(k: nat, d: nat)
    requires 1 <= k
    ensures (k - 1) * d <= 0 <==> k == 1 || d == 0
  {
  }

  lemma {:induction false} NothingIsBought(s: Purse, steps: seq<Step>, ceiling: int, k: nat, m: nat)
    requires k == 0 || m == 0
    requires Within(s, steps, ceiling, k, m) && forall i | 0 <= i < |s.pending| :: s.pending[i] == 0
    ensures After(s, steps).spent == s.spent
    decreases |steps|
  {
    if steps != [] {
      NothingIsCharged(s, steps[0], ceiling, k, m);
      hide Next, Enabled;
      NothingIsBought(Next(s, steps[0]), steps[1..], ceiling, k, m);
    }
  }

  lemma NothingIsCharged(s: Purse, st: Step, ceiling: int, k: nat, m: nat)
    requires k == 0 || m == 0
    requires Enabled(s, st, ceiling) && |Next(s, st).pending| <= k && (st.Admit? ==> st.amount <= m)
    requires forall i | 0 <= i < |s.pending| :: s.pending[i] == 0
    ensures Next(s, st).spent == s.spent
    ensures forall i | 0 <= i < |Next(s, st).pending| :: Next(s, st).pending[i] == 0
  {
  }

  lemma {:induction false} AdmitAll(spent: int, pending: seq<nat>, left: nat, k: nat, ceiling: int, m: nat)
    requires spent + m <= ceiling && |pending| + left == k
    requires forall i | 0 <= i < |pending| :: pending[i] == m
    ensures Within(Purse(spent, pending), Admits(left, m) + Settles(k), ceiling, k, m)
    ensures After(Purse(spent, pending), Admits(left, m) + Settles(k)).spent == spent + k * m
    decreases left
  {
    var steps := Admits(left, m) + Settles(k);
    if left == 0 {
      assert steps == Settles(k);
      SettleAll(spent, pending, ceiling, k, m);
    } else {
      assert steps[0] == Admit(m) && steps[1..] == Admits(left - 1, m) + Settles(k);
      AdmitAll(spent, pending + [m], left - 1, k, ceiling, m);
    }
  }

  lemma {:induction false} SettleAll(spent: int, pending: seq<nat>, ceiling: int, k: nat, m: nat)
    requires |pending| <= k && forall i | 0 <= i < |pending| :: pending[i] == m
    ensures Within(Purse(spent, pending), Settles(|pending|), ceiling, k, m)
    ensures After(Purse(spent, pending), Settles(|pending|)).spent == spent + |pending| * m
    decreases |pending|
  {
    if pending != [] {
      var steps := Settles(|pending|);
      assert steps[0] == Settle(0, true) && steps[1..] == Settles(|pending| - 1);
      assert pending[..0] + pending[1..] == pending[1..];
      SettleAll(spent + m, pending[1..], ceiling, k, m);
      assert m + (|pending| - 1) * m == |pending| * m;
    }
  }
}
