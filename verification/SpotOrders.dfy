/**
 Preparing a spot market order against a market's limits and a balance, and the guard that an order about to be
 submitted prepares to itself.
 */
module SpotOrders {
  import opened Prelude
  import opened Texts

  /** A value handed in for a number: a float, or something that is no number at all. */
  datatype Number = Finite(value: real) | PlusInfinity | MinusInfinity | NaN | NotNumeric

  datatype Side = Buy | Sell | OtherSide

  datatype Order = Order(symbol: string, side: Side, quantity: Number, price: real, notional: real)

  datatype Bounds = Bounds(min: Option<Number>, max: Option<Number>)

  /** A market: its limits, its currencies, the numbers it only states, and the venue's rounding of amounts and prices. */
  datatype Market = Market(
    active: bool,
    base: string,
    quote: string,
    amount: Bounds,
    price: Bounds,
    cost: Bounds,
    amountPrecision: Option<Number>,
    pricePrecision: Option<Number>,
    takerFee: Option<Number>,
    roundAmount: real -> Number,
    roundPrice: real -> Number)

  datatype Account = Account(markets: map<string, Market>, free: Option<map<string, Number>>)

  datatype Limit = Amount | Price | Cost

  /** The names under which numbers are refused. */
  datatype Field =
    | Quantity
    | MinimumAmount
    | NormalizedQuantity
    | ReferencePrice
    | AmountPrecision
    | PricePrecision
    | MinimumCost
    | TakerFee

  datatype OrderError =
    | OrderInvalid
    | MarketOrBalance
    | NotPositive(field: Field)
    | NumberInvalid(field: Field)
    | LimitUnreadable(limit: Limit)
    | Below(limit: Limit)
    | Above(limit: Limit)
    | NotionalAboveCap
    | SymbolInvalid
    | BalanceTooLow
    | PreparationChanged

  /** The market's own numbers, repeated with a prepared order. */
  datatype Rules = Rules(
    amountPrecision: Option<real>,
    pricePrecision: Option<real>,
    minimumAmount: Option<real>,
    minimumCost: Option<real>,
    feeRate: Option<real>)

  datatype Prepared = Prepared(symbol: string, side: Side, quantity: real, price: real, notional: real, rules: Rules)

  const BALANCE_SLACK := 0.000000000001
  const AMOUNT_TOLERANCE := 0.000000000001
  const PRICE_TOLERANCE := 0.00000001

  /** `nonnegative_number`. */
  function Nonnegative(value: Number, field: Field): Result<real, OrderError> {
    if value.Finite? && value.value >= 0.0 then Ok(value.value) else Err(NumberInvalid(field))
  }

  /** `positive_number`. */
  function Positive(value: Number, field: Field): Result<real, OrderError> {
    var number :- Nonnegative(value, field);
    if number <= 0.0 then Err(NotPositive(field)) else Ok(number)
  }

  /** `_optional_market_number`. */
  function Optional(value: Option<Number>, field: Field): Result<Option<real>, OrderError> {
    if value.None? then Ok(None)
    else
      var number :- Nonnegative(value.value, field);
      Ok(Some(number))
  }

  /** The order of floats; nothing compares with a NaN. */
  predicate Less(x: Number, y: Number) {
    || (x.Finite? && y.Finite? && x.value < y.value)
    || (x.MinusInfinity? && (y.Finite? || y.PlusInfinity?))
    || (x.Finite? && y.PlusInfinity?)
  }

  function PartsOf(s: string, separator: char): seq<string> {
    if s == "" then [""]
    else
      var earlier := PartsOf(s[..|s| - 1], separator);
      if s[|s| - 1] == separator then earlier + [""]
      else if earlier == [] then [[s[|s| - 1]]]
      else earlier[..|earlier| - 1] + [earlier[|earlier| - 1] + [s[|s| - 1]]]
  }

  function WithinBounds(limit: Limit, bounds: Bounds, value: real): Option<OrderError> {
    if bounds.min == Some(NotNumeric) then Some(LimitUnreadable(limit))
    else if bounds.min.Some? && Less(Finite(value), bounds.min.value) then Some(Below(limit))
    else if bounds.max == Some(NotNumeric) then Some(LimitUnreadable(limit))
    else if bounds.max.Some? && Less(bounds.max.value, Finite(value)) then Some(Above(limit))
    else None
  }

  /** `validate_limits`: amount, then price, then cost. */
  function LimitError(market: Market, amount: real, price: real, cost: real): Option<OrderError> {
    var first := WithinBounds(Amount, market.amount, amount);
    var second := WithinBounds(Price, market.price, price);
    if first.Some? then first else if second.Some? then second else WithinBounds(Cost, market.cost, cost)
  }

  function Currencies(market: Market, symbol: string): Option<(string, string)> {
    if market.base != "" && market.quote != "" then Some((market.base, market.quote))
    else
      var parts := PartsOf(symbol, '/');
      if |parts| == 2 then Some((parts[0], parts[1])) else None
  }

  function Available(free: map<string, Number>, currency: string): Number {
    if currency in free && !free[currency].NotNumeric? then free[currency] else Finite(0.0)
  }

  /** The balance with its slack is below what is needed; a NaN never is. */
  predicate TooLow(balance: Number, needed: real) {
    Less(if balance.Finite? then Finite(balance.value + BALANCE_SLACK) else balance, Finite(needed))
  }

  /** The market's numbers, read in the order they are written into the result. */
  function RulesOf(market: Market): Result<Rules, OrderError> {
    var amountPrecision :- Optional(market.amountPrecision, AmountPrecision);
    var pricePrecision :- Optional(market.pricePrecision, PricePrecision);
    var minimumAmount :- Optional(market.amount.min, MinimumAmount);
    var minimumCost :- Optional(market.cost.min, MinimumCost);
    var feeRate :- Optional(market.takerFee, TakerFee);
    Ok(Rules(amountPrecision, pricePrecision, minimumAmount, minimumCost, feeRate))
  }

  /** `prepare_spot_market_order`. */
  function Prepare(account: Account, order: Order, cap: Option<Number>): Result<Prepared, OrderError> {
    if Blank(order.symbol) || order.side == OtherSide then Err(OrderInvalid)
    else if order.symbol !in account.markets || !account.markets[order.symbol].active || account.free.None? then Err(MarketOrBalance)
    else
      var market := account.markets[order.symbol];
      var quantity :- Positive(order.quantity, Quantity);
      var minimum :- Optional(market.amount.min, MinimumAmount);
      if minimum.Some? && quantity < minimum.value then Err(Below(Amount))
      else
        var amount :- Positive(market.roundAmount(quantity), NormalizedQuantity);
        var price :- Positive(market.roundPrice(order.price), ReferencePrice);
        PrepareRounded(account.free.value, market, order.symbol, order.side, amount, price, cap)
  }

  /** The second half of the preparation, on rounded numbers. */
  function PrepareRounded(free: map<string, Number>, market: Market, symbol: string, side: Side, amount: real, price: real,
                          cap: Option<Number>): Result<Prepared, OrderError>
  {
    var notional := amount * price;
    var currencies := Currencies(market, symbol);
    if cap.Some? && side == Buy && Less(cap.value, Finite(notional)) then Err(NotionalAboveCap)
    else if LimitError(market, amount, price, notional).Some? then Err(LimitError(market, amount, price, notional).value)
    else if currencies.None? then Err(SymbolInvalid)
    else
      var needed := if side == Buy then notional else amount;
      var currency := if side == Buy then currencies.value.1 else currencies.value.0;
      if TooLow(Available(free, currency), needed) then Err(BalanceTooLow)
      else
        var rules :- RulesOf(market);
        Ok(Prepared(symbol, side, amount, price, notional, rules))
  }

  function Far(x: real, y: real, tolerance: real): bool {
    x - y > tolerance || y - x > tolerance
  }

  /** `create_spot_market_order` up to the venue's call: what is submitted is what the order already says. */
  function Submit(account: Account, order: Order, cap: Option<Number>): Result<Prepared, OrderError> {
    var prepared :- Prepare(account, order, cap);
    if Far(prepared.quantity, order.quantity.value, AMOUNT_TOLERANCE)
       || Far(prepared.price, order.price, PRICE_TOLERANCE)
       || Far(prepared.notional, order.notional, PRICE_TOLERANCE)
    then Err(PreparationChanged)
    else Ok(prepared)
  }

  /** The order a preparation is stored as. */
  function AsOrder(p: Prepared): Order {
    Order(p.symbol, p.side, Finite(p.quantity), p.price, p.notional)
  }

  // ---------------------------------------------------------------- properties

  /** No finite limit is passed and no infinite one excludes the value; a limit that is a NaN excludes nothing. */
  predicate Inside(bounds: Bounds, value: real) {
    && bounds.min != Some(NotNumeric) && bounds.max != Some(NotNumeric)
    && (bounds.min.Some? ==> bounds.min.value != PlusInfinity && (bounds.min.value.Finite? ==> bounds.min.value.value <= value))
    && (bounds.max.Some? ==> bounds.max.value != MinusInfinity && (bounds.max.value.Finite? ==> value <= bounds.max.value.value))
  }

  /** A balance covers an amount up to the slack, or is unbounded, or is a NaN. */
  predicate Covers(balance: Number, needed: real) {
    (balance.Finite? && needed <= balance.value + BALANCE_SLACK) || balance.PlusInfinity? || balance.NaN?
  }

  /** The side of the pair an order spends is covered by the free balance. */
  predicate Covered(free: map<string, Number>, market: Market, symbol: string, side: Side, amount: real, price: real) {
    && Currencies(market, symbol).Some?
    && var (base, quote) := Currencies(market, symbol).value;
       if side == Buy then Covers(Available(free, quote), amount * price) else Covers(Available(free, base), amount)
  }

  predicate UnderCap(cap: Option<Number>, side: Side, notional: real) {
    cap.Some? && side == Buy ==> cap.value != MinusInfinity && (cap.value.Finite? ==> notional <= cap.value.value)
  }

  /** Absent, or a finite number that is not negative. */
  predicate Stated(value: Option<Number>) {
    value.Some? ==> value.value.Finite? && value.value.value >= 0.0
  }

  predicate RulesStated(market: Market) {
    && Stated(market.amountPrecision) && Stated(market.pricePrecision) && Stated(market.takerFee)
    && Stated(market.amount.min) && Stated(market.cost.min)
  }

  /** A number as it is repeated. */
  function Repeated(value: Option<Number>): Option<real>
    requires Stated(value)
  {
    if value.Some? then Some(value.value.value) else None
  }

  /** Amount and price are inside every limit, under the cap when buying, and covered; the market's numbers are sound. */
  predicate Sound(account: Account, symbol: string, side: Side, amount: real, price: real, cap: Option<Number>) {
    && symbol in account.markets && account.free.Some?
    && Inside(account.markets[symbol].amount, amount)
    && Inside(account.markets[symbol].price, price)
    && Inside(account.markets[symbol].cost, amount * price)
    && UnderCap(cap, side, amount * price)
    && Covered(account.free.value, account.markets[symbol], symbol, side, amount, price)
    && RulesStated(account.markets[symbol])
  }

  predicate IsPositive(value: Number) {
    value.Finite? && value.value > 0.0
  }

  /** What is asked of the order, its market and the venue's rounding. */
  predicate Askable(account: Account, order: Order) {
    && !Blank(order.symbol) && order.side != OtherSide
    && order.symbol in account.markets && account.markets[order.symbol].active
    && IsPositive(order.quantity)
    && var market := account.markets[order.symbol];
       && Stated(market.amount.min)
       && (market.amount.min.Some? ==> market.amount.min.value.value <= order.quantity.value)
       && IsPositive(market.roundAmount(order.quantity.value)) && IsPositive(market.roundPrice(order.price))
  }

  lemma LimitsExactly(market: Market, amount: real, price: real, cost: real)
    ensures LimitError(market, amount, price, cost).None?
       <==> Inside(market.amount, amount) && Inside(market.price, price) && Inside(market.cost, cost)
  {
  }

  /** The market's numbers are repeated as they are, exactly when each is sound. */
  lemma RulesExactly(market: Market)
    ensures RulesOf(market).Ok? <==> RulesStated(market)
    ensures RulesStated(market) ==>
              RulesOf(market) == Ok(Rules(Repeated(market.amountPrecision), Repeated(market.pricePrecision),
                                          Repeated(market.amount.min), Repeated(market.cost.min), Repeated(market.takerFee)))
  {
  }

  lemma TooLowExactly(free: map<string, Number>, currency: string, needed: real)
    ensures TooLow(Available(free, currency), needed) <==> !Covers(Available(free, currency), needed)
  {
  }

  lemma CapExactly(cap: Option<Number>, side: Side, notional: real)
    requires cap != Some(NotNumeric)
    ensures cap.Some? && side == Buy && Less(cap.value, Finite(notional)) <==> !UnderCap(cap, side, notional)
  {
  }

  /** Rounded numbers are accepted exactly when they are sound. */
  lemma RoundedExactly(account: Account, symbol: string, side: Side, amount: real, price: real, cap: Option<Number>)
    requires symbol in account.markets && account.free.Some? && cap != Some(NotNumeric)
    ensures var market := account.markets[symbol];
            var p := PrepareRounded(account.free.value, market, symbol, side, amount, price, cap);
            && (p.Ok? <==> Sound(account, symbol, side, amount, price, cap))
            && (p.Ok? ==> RulesOf(market).Ok? && p.value == Prepared(symbol, side, amount, price, amount * price, RulesOf(market).value))
  {
    var market := account.markets[symbol];
    LimitsExactly(market, amount, price, amount * price);
    RulesExactly(market);
    CapExactly(cap, side, amount * price);
    if Currencies(market, symbol).Some? {
      var (base, quote) := Currencies(market, symbol).value;
      TooLowExactly(account.free.value, quote, amount * price);
      TooLowExactly(account.free.value, base, amount);
    }
    hide PartsOf, LimitError, Inside, Currencies, Available, TooLow, Covers, RulesOf, RulesStated, UnderCap, Less;
  }

  lemma AskedExactly(account: Account, order: Order, cap: Option<Number>)
    ensures Prepare(account, order, cap).Ok? ==> Askable(account, order) && account.free.Some?
    ensures Askable(account, order) && account.free.Some? ==>
              var market := account.markets[order.symbol];
              Prepare(account, order, cap)
              == PrepareRounded(account.free.value, market, order.symbol, order.side, market.roundAmount(order.quantity.value).value,
                                market.roundPrice(order.price).value, cap)
  {
    hide Blank, PrepareRounded;
  }

  /** An order is prepared exactly when it can be asked for and its rounded numbers are sound, and then with those numbers. */
  lemma PreparedExactly(account: Account, order: Order, cap: Option<Number>)
    requires cap != Some(NotNumeric)
    ensures Prepare(account, order, cap).Ok? <==>
            && Askable(account, order)
            && var market := account.markets[order.symbol];
               Sound(account, order.symbol, order.side, market.roundAmount(order.quantity.value).value,
                     market.roundPrice(order.price).value, cap)
    ensures var p := Prepare(account, order, cap);
            p.Ok? ==>
              && Askable(account, order)
              && var market := account.markets[order.symbol];
                 && market.roundAmount(order.quantity.value) == Finite(p.value.quantity)
                 && market.roundPrice(order.price) == Finite(p.value.price)
                 && p.value.symbol == order.symbol && p.value.side == order.side
                 && p.value.notional == p.value.quantity * p.value.price
                 && RulesStated(market)
                 && p.value.rules == Rules(Repeated(market.amountPrecision), Repeated(market.pricePrecision),
                                           Repeated(market.amount.min), Repeated(market.cost.min), Repeated(market.takerFee))
  {
    AskedExactly(account, order, cap);
    hide Prepare, Blank;
    if Askable(account, order) && account.free.Some? {
      var market := account.markets[order.symbol];
      RoundedExactly(account, order.symbol, order.side, market.roundAmount(order.quantity.value).value,
                     market.roundPrice(order.price).value, cap);
      RulesExactly(market);
      hide PrepareRounded, Covered, Inside, RulesOf, UnderCap;
    }
  }

  /** A prepared order prepares to itself on the same market and balance exactly when the venue's rounding leaves its numbers alone. */
  lemma PreparationIsFixpoint(account: Account, order: Order, cap: Option<Number>)
    requires Prepare(account, order, cap).Ok?
    ensures var p := Prepare(account, order, cap).value;
            && order.symbol in account.markets
            && var market := account.markets[order.symbol];
               (Prepare(account, AsOrder(p), cap) == Ok(p)
                <==> market.roundAmount(p.quantity) == Finite(p.quantity) && market.roundPrice(p.price) == Finite(p.price))
  {
    var p := Prepare(account, order, cap).value;
    AskedExactly(account, order, cap);
    AskedExactly(account, AsOrder(p), cap);
  }

  /** What the venue's rounding yields, it leaves alone. */
  ghost predicate Idempotent(round: real -> Number) {
    forall x :: round(x).Finite? ==> round(round(x).value) == round(x)
  }

  /** With idempotent rounding a prepared order is submitted as it stands: it is never rejected as changed. */
  lemma PreparedIsSubmitted(account: Account, order: Order, cap: Option<Number>)
    requires Prepare(account, order, cap).Ok? && order.symbol in account.markets
    requires Idempotent(account.markets[order.symbol].roundAmount) && Idempotent(account.markets[order.symbol].roundPrice)
    ensures var p := Prepare(account, order, cap).value;
            Prepare(account, AsOrder(p), cap) == Ok(p) && Submit(account, AsOrder(p), cap) == Ok(p)
  {
    PreparationIsFixpoint(account, order, cap);
    AskedExactly(account, order, cap);
    hide PrepareRounded;
  }

  predicate Within(x: real, y: real, tolerance: real) {
    y - tolerance <= x <= y + tolerance
  }

  /**
   An order is submitted exactly when it can be prepared and none of the three prepared numbers is further from the
   order's own than its tolerance, and then as prepared; what was prepared but differs is refused as changed.
   */
  lemma SubmittedExactly(account: Account, order: Order, cap: Option<Number>)
    ensures Submit(account, order, cap).Ok? <==>
            && Prepare(account, order, cap).Ok? && order.quantity.Finite?
            && var p := Prepare(account, order, cap).value;
               && Within(p.quantity, order.quantity.value, 0.000000000001)
               && Within(p.price, order.price, 0.00000001) && Within(p.notional, order.notional, 0.00000001)
    ensures Submit(account, order, cap).Ok? ==> Submit(account, order, cap) == Prepare(account, order, cap)
    ensures Submit(account, order, cap).Err? ==>
              Submit(account, order, cap)
              == if Prepare(account, order, cap).Err? then Prepare(account, order, cap) else Err(PreparationChanged)
  {
    AskedExactly(account, order, cap);
    hide Prepare;
  }

  // ---------------------------------------------------------------- currencies

  /** The texts between separators: joined by them they give the whole, and none holds one. */
  ghost predicate Joins(parts: seq<string>, separator: char, s: string) {
    && parts != [] && (forall part :: part in parts ==> separator !in part)
    && if |parts| == 1 then s == parts[0]
       else exists front :: Joins(parts[..|parts| - 1], separator, front) && s == front + [separator] + parts[|parts| - 1]
  }

  lemma {:induction false} PartsJoin(s: string, separator: char)
    ensures Joins(PartsOf(s, separator), separator, s)
  {
    var parts := PartsOf(s, separator);
    if s != "" {
      var front, last := s[..|s| - 1], s[|s| - 1];
      PartsJoin(front, separator);
      var earlier := PartsOf(front, separator);
      var n := |earlier| - 1;
      if last == separator {
        assert parts[..|parts| - 1] == earlier && s == front + [separator] + "";
      } else {
        assert parts == earlier[..n] + [earlier[n] + [last]];
        if n > 0 {
          var before :| Joins(earlier[..n], separator, before) && front == before + [separator] + earlier[n];
          assert parts[..|parts| - 1] == earlier[..n];
          assert s == before + [separator] + parts[n];
        }
      }
    }
  }

  /** Base and quote are the market's own if it names both, and otherwise the two sides of the only slash in the symbol. */
  lemma CurrenciesMean(market: Market, symbol: string, base: string, quote: string)
    ensures Currencies(market, symbol) == Some((base, quote)) <==>
            if market.base != "" && market.quote != "" then base == market.base && quote == market.quote
            else symbol == base + "/" + quote && '/' !in base && '/' !in quote
  {
    if market.base == "" || market.quote == "" {
      var parts := PartsOf(symbol, '/');
      PartsJoin(symbol, '/');
      if |parts| == 2 {
        var front :| Joins(parts[..1], '/', front) && symbol == front + "/" + parts[1];
        assert front == parts[0] && parts[0] in parts && parts[1] in parts;
      }
      if symbol == base + "/" + quote && '/' !in base && '/' !in quote {
        SplitHasTwo(base, quote);
        hide PartsOf;
      }
    }
  }

  lemma {:induction false} NoSeparator(s: string, separator: char)
    requires separator !in s
    ensures PartsOf(s, separator) == [s]
  {
    if s != "" {
      var front, last := s[..|s| - 1], s[|s| - 1];
      NoSeparator(front, separator);
      assert last in s && s == front + [last];
      assert PartsOf(s, separator) == [front][..0] + [front + [last]];
    }
  }

  lemma {:induction false} SplitHasTwo(base: string, quote: string)
    requires '/' !in base && '/' !in quote
    ensures PartsOf(base + "/" + quote, '/') == [base, quote]
  {
    var s := base + "/" + quote;
    if quote == "" {
      assert s[..|s| - 1] == base;
      NoSeparator(base, '/');
    } else {
      var front := quote[..|quote| - 1];
      SplitHasTwo(base, front);
      assert s[..|s| - 1] == base + "/" + front;
      assert quote == front + [quote[|quote| - 1]];
    }
  }

  /** What is free is the entry if it is a number, and nothing otherwise. */
  lemma AvailableMeans(free: map<string, Number>, currency: string)
    ensures currency in free && free[currency] != NotNumeric ==> Available(free, currency) == free[currency]
    ensures currency !in free || free[currency] == NotNumeric ==> Available(free, currency) == Finite(0.0)
  {
  }
}
