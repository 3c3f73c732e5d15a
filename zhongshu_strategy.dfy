/** The 5-minute zhongshu (price pivot) divergence strategy: configuration
    merge, the divergence test, the flat/long position machine that walks the
    zhongshu list, and the statistics of its trades and equity curve. */
module ZhongshuStrategy {
  import opened Wrappers
  import Seqs
  import MyStrategy

  type Config = MyStrategy.Config

  // ---------------------------------------------------------------------------
  // Configuration

  function DefaultConfig(): (c: Config)
    ensures c.Keys == {"trigger_step", "divergence_rate", "min_zs_cnt", "bi_strict", "macd_algo", "print_warning", "zs_algo"}
  {
    map[
      "trigger_step" := MyStrategy.Flag(true),
      "divergence_rate" := MyStrategy.Ratio(0.8),
      "min_zs_cnt" := MyStrategy.Count(1),
      "bi_strict" := MyStrategy.Flag(true),
      "macd_algo" := MyStrategy.Word("peak"),
      "print_warning" := MyStrategy.Flag(false),
      "zs_algo" := MyStrategy.Word("normal")
    ]
  }

  /** The defaults updated with the given configuration, if any. */
  function MergeConfig(given: Option<Config>): Config {
    match given
    case Some(c) => if c != map[] then DefaultConfig() + c else DefaultConfig()
    case None => DefaultConfig()
  }

  /** A given key takes the given value; a default key the caller did not give
      survives; nothing else appears. */
  lemma MergeKeepsDefaults(given: Config)
    ensures MergeConfig(Some(given)).Keys == DefaultConfig().Keys + given.Keys
    ensures forall k :: k in given ==> MergeConfig(Some(given))[k] == given[k]
    ensures forall k :: k in DefaultConfig() && k !in given ==> MergeConfig(Some(given))[k] == DefaultConfig()[k]
  {
  }

  /** The divergence threshold as a number, when the configured value is one
      (a boolean counts as 0 or 1). */
  function Numeric(v: MyStrategy.ConfigValue): Option<real> {
    match v
    case Flag(b) => Some(if b then 1.0 else 0.0)
    case Ratio(r) => Some(r)
    case Count(n) => Some(n as real)
    case Word(_) => None
  }

  function RateOf(config: Config): Option<real> {
    if "divergence_rate" in config then Numeric(config["divergence_rate"]) else None
  }

  // ---------------------------------------------------------------------------
  // Engine records

  /** A K-line unit: its time as text and its close. */
  datatype Klu = Klu(time: string, close: real)

  /** A bi (stroke), by the values at its two ends. */
  datatype Bi = Bi(beginValue: real, endValue: real)

  /** A zhongshu: the close where its first bi begins and where its last bi
      ends, its range and peaks, the end unit of the last bi it holds (if any),
      and its `bi_list` (absent when the engine object has no such attribute). */
  datatype Zhongshu = Zhongshu(
    startClose: real,
    endClose: real,
    high: real,
    low: real,
    peakHigh: real,
    peakLow: real,
    lastBiEnd: Option<Klu>,
    biList: Option<seq<Bi>>)

  function Abs(x: real): real { if x < 0.0 then -x else x }

  function Length(b: Bi): real { Abs(b.endValue - b.beginValue) }

  /** Divergence: at least three bis, a falling zhongshu, a last bi shorter than
      `rate` times the one before it, and a last bi ending below the zhongshu's
      low. */
  predicate IsDivergence(zs: Zhongshu, rate: real) {
    match zs.biList
    case None => false
    case Some(bis) =>
      if |bis| < 3 then false
      else if zs.endClose >= zs.startClose then false
      else
        var last := bis[|bis| - 1];
        var prev := bis[|bis| - 2];
        Length(last) < Length(prev) * rate && last.endValue < zs.low
  }

  /** What a divergence guarantees: a strictly falling zhongshu with at least
      three bis whose last bi made a new low, and, for a threshold of at most 1,
      a last bi strictly shorter than the one before. */
  lemma DivergenceMeaning(zs: Zhongshu, rate: real)
    requires IsDivergence(zs, rate)
    ensures zs.endClose < zs.startClose
    ensures zs.biList.Some? && |zs.biList.value| >= 3
    ensures zs.biList.value[|zs.biList.value| - 1].endValue < zs.low
    ensures 0.0 <= rate <= 1.0 ==>
      Length(zs.biList.value[|zs.biList.value| - 1]) < Length(zs.biList.value[|zs.biList.value| - 2])
  {
    var bis := zs.biList.value;
    var last := Length(bis[|bis| - 1]);
    var prev := Length(bis[|bis| - 2]);
    var bound := prev * rate;
    assert last < bound;
    if 0.0 <= rate <= 1.0 {
      ScaleDown(prev, rate, bound);
    }
  }

  lemma ScaleDown(x: real, rate: real, scaled: real)
    requires 0.0 <= x && 0.0 <= rate <= 1.0 && scaled == x * rate
    ensures scaled <= x
  {
    var rest := 1.0 - rate;
    assert 0.0 <= x * rest;
    assert x * rest == x - x * rate;
  }

  /** Too few bis, a missing bi list, or a zhongshu that does not fall rules
      divergence out, whatever the threshold. */
  lemma NoDivergenceCases(zs: Zhongshu, rate: real)
    ensures zs.biList.None? ==> !IsDivergence(zs, rate)
    ensures zs.biList.Some? && |zs.biList.value| < 3 ==> !IsDivergence(zs, rate)
    ensures zs.endClose >= zs.startClose ==> !IsDivergence(zs, rate)
  {
  }

  // ---------------------------------------------------------------------------
  // The position machine

  datatype Direction = Up | Down

  datatype Position = Position(isLong: bool, entryPrice: real, entryDate: Option<string>, quantity: real)

  /** The opening position: flat, holding room for 1000 shares. */
  const Opening: Position := Position(false, 0.0, None, 1000.0)

  /** The position after a sale: flat, with quantity reset to 0. */
  const Closed: Position := Position(false, 0.0, None, 0.0)

  datatype Action =
    | Buy(price: real, date: string)
    | Sell(price: real, date: string, pnl: real, pnlPct: real)

  /** One equity-curve entry per zhongshu: date and price, a copy of the
      position before any action, the zhongshu's summary, and the action taken. */
  datatype EquityPoint = EquityPoint(
    date: string,
    price: real,
    position: Position,
    direction: Direction,
    high: real,
    low: real,
    peakHigh: real,
    peakLow: real,
    biCount: nat,
    action: Option<Action>)

  datatype Trade = Trade(
    entryDate: Option<string>,
    exitDate: string,
    entryPrice: real,
    exitPrice: real,
    quantity: real,
    pnl: real,
    pnlPct: real)

  datatype Error =
    | ZeroEntryPrice(zhongshu: nat)
    | ZeroPeakPrice

  /** The loop's variables. */
  datatype State = State(position: Position, lastBuy: Option<nat>, trades: seq<Trade>, curve: seq<EquityPoint>)

  const Start: State := State(Opening, None, [], [])

  /** The price and date of a zhongshu: the end of its last bi, or the last
      K-line when it holds none. */
  function PriceOf(zs: Zhongshu, lastKlu: Klu): real {
    match zs.lastBiEnd
    case Some(k) => k.close
    case None => lastKlu.close
  }

  function DateOf(zs: Zhongshu, lastKlu: Klu): string {
    match zs.lastBiEnd
    case Some(k) => k.time
    case None => lastKlu.time
  }

  /** The curve calls a zhongshu "up" only when it ends above its start. */
  function DirectionOf(zs: Zhongshu): Direction {
    if zs.endClose > zs.startClose then Up else Down
  }

  function BiCount(zs: Zhongshu): nat {
    match zs.biList
    case Some(bis) => |bis|
    case None => 0
  }

  /** The sell guard's `i > last_buy_zs_idx`; without a recorded buy there is
      nothing to compare with. */
  predicate AfterBuy(i: nat, lastBuy: Option<nat>) {
    lastBuy.Some? && i > lastBuy.value
  }

  function PointOf(zs: Zhongshu, lastKlu: Klu, position: Position): EquityPoint {
    EquityPoint(DateOf(zs, lastKlu), PriceOf(zs, lastKlu), position, DirectionOf(zs),
      zs.high, zs.low, zs.peakHigh, zs.peakLow, BiCount(zs), None)
  }

  /** The profit of a sale: the price change times the quantity held. */
  function Profit(entry: real, exit: real, quantity: real): (r: real)
    ensures quantity == 0.0 ==> r == 0.0
    ensures quantity > 0.0 ==> (r > 0.0 <==> exit > entry)
  {
    (exit - entry) * quantity
  }

  /** The return of a sale as a share of the entry price. */
  function ReturnOn(entry: real, exit: real): (r: real)
    requires entry != 0.0
    ensures r * entry == exit - entry
  {
    (exit - entry) / entry
  }

  /** Visiting zhongshu number `i`: record it on the curve, then sell when long
      and the zhongshu rises, or else buy when flat and the zhongshu falls with
      divergence. A sale against an entry price of 0 divides by zero. */
  function Visit(st: State, i: nat, zs: Zhongshu, lastKlu: Klu, rate: real): (r: Result<State, Error>)
    ensures r.Success? ==> |r.value.curve| == |st.curve| + 1 && r.value.curve[..|st.curve|] == st.curve
  {
    var price := PriceOf(zs, lastKlu);
    var date := DateOf(zs, lastKlu);
    var point := PointOf(zs, lastKlu, st.position);
    if st.position.isLong && zs.endClose > zs.startClose && AfterBuy(i, st.lastBuy) then
      var entry := st.position.entryPrice;
      if entry == 0.0 then Failure(ZeroEntryPrice(i))
      else
        var pnl := Profit(entry, price, st.position.quantity);
        var pnlPct := ReturnOn(entry, price);
        var trade := Trade(st.position.entryDate, date, entry, price, st.position.quantity, pnl, pnlPct);
        Success(State(Closed, None, st.trades + [trade], st.curve + [point.(action := Some(Sell(price, date, pnl, pnlPct)))]))
    else if !st.position.isLong && zs.endClose < zs.startClose && IsDivergence(zs, rate) then
      var position := st.position.(isLong := true, entryPrice := price, entryDate := Some(date));
      Success(State(position, Some(i), st.trades, st.curve + [point.(action := Some(Buy(price, date)))]))
    else
      Success(st.(curve := st.curve + [point]))
  }

  /** A sale: the position closed at the zhongshu's price, its profit on the
      held quantity, and its return on the entry price. */
  lemma VisitSells(st: State, i: nat, zs: Zhongshu, lastKlu: Klu, rate: real)
    requires st.position.isLong && zs.endClose > zs.startClose && AfterBuy(i, st.lastBuy)
    requires st.position.entryPrice != 0.0
    ensures var price := PriceOf(zs, lastKlu);
      var entry := st.position.entryPrice;
      var pnl := Profit(entry, price, st.position.quantity);
      var pnlPct := ReturnOn(entry, price);
      var date := DateOf(zs, lastKlu);
      Visit(st, i, zs, lastKlu, rate) == Success(State(Closed, None,
        st.trades + [Trade(st.position.entryDate, date, entry, price, st.position.quantity, pnl, pnlPct)],
        st.curve + [PointOf(zs, lastKlu, st.position).(action := Some(Sell(price, date, pnl, pnlPct)))]))
  {
  }

  /** The machine over a list of zhongshus, in order. */
  function Run(zss: seq<Zhongshu>, lastKlu: Klu, rate: real): (r: Result<State, Error>)
    ensures r.Success? ==> |r.value.curve| == |zss|
    decreases |zss|
  {
    if zss == [] then Success(Start)
    else
      var before :- Run(zss[..|zss| - 1], lastKlu, rate);
      Visit(before, |zss| - 1, zss[|zss| - 1], lastKlu, rate)
  }

  // ---------------------------------------------------------------------------
  // What the machine keeps true

  /** The index of the last curve entry that carries an action. */
  function LastAction(curve: seq<EquityPoint>): (r: Option<nat>)
    ensures r.Some? ==> r.value < |curve| && curve[r.value].action.Some?
    ensures r.Some? ==> forall k :: r.value < k < |curve| ==> curve[k].action.None?
    ensures r.None? ==> forall k :: 0 <= k < |curve| ==> curve[k].action.None?
    decreases |curve|
  {
    if curve == [] then None
    else if curve[|curve| - 1].action.Some? then Some(|curve| - 1)
    else LastAction(curve[..|curve| - 1])
  }

  predicate IsBuyAt(curve: seq<EquityPoint>, k: int) {
    0 <= k < |curve| && curve[k].action.Some? && curve[k].action.value.Buy?
  }

  /** The last action on the curve was a buy. */
  predicate HoldsAfter(curve: seq<EquityPoint>) {
    LastAction(curve).Some? && IsBuyAt(curve, LastAction(curve).value)
  }

  /** Actions alternate: a sale always follows a buy with no action between,
      and a buy never follows a buy. */
  predicate Alternating(curve: seq<EquityPoint>) {
    forall k :: 0 <= k < |curve| && curve[k].action.Some? ==>
      (curve[k].action.value.Sell? <==> HoldsAfter(curve[..k]))
  }

  function Count(curve: seq<EquityPoint>, buys: bool): nat
    decreases |curve|
  {
    if curve == [] then 0
    else
      Count(curve[..|curve| - 1], buys) +
      if curve[|curve| - 1].action.Some? && curve[|curve| - 1].action.value.Buy? == buys then 1 else 0
  }

  /** The machine's invariant after `n` zhongshus. */
  predicate Invariant(st: State, n: nat) {
    && |st.curve| == n
    && (st.position.isLong <==> HoldsAfter(st.curve))
    && (st.position.isLong <==> st.lastBuy.Some?)
    && (st.lastBuy.Some? ==> st.lastBuy == LastAction(st.curve))
    && Alternating(st.curve)
    && Count(st.curve, true) == Count(st.curve, false) + (if st.position.isLong then 1 else 0)
    && |st.trades| == Count(st.curve, false)
    && st.position.quantity == (if st.trades == [] then 1000.0 else 0.0)
    && OnlyFirstTradeSized(st.trades)
  }

  /** Only the first trade carries the opening quantity; every later trade
      has quantity 0 and so no profit. */
  predicate OnlyFirstTradeSized(trades: seq<Trade>) {
    && (trades != [] ==> trades[0].quantity == 1000.0)
    && (forall k :: 0 < k < |trades| ==> trades[k].quantity == 0.0 && trades[k].pnl == 0.0)
  }

  lemma SizedAppend(trades: seq<Trade>, trade: Trade)
    requires OnlyFirstTradeSized(trades)
    requires trade.quantity == (if trades == [] then 1000.0 else 0.0)
    requires trade.quantity == 0.0 ==> trade.pnl == 0.0
    ensures OnlyFirstTradeSized(trades + [trade])
  {
    var t := trades + [trade];
    assert forall k :: 0 <= k < |trades| ==> t[k] == trades[k];
    assert t[|trades|] == trade;
  }

  lemma CountAppend(curve: seq<EquityPoint>, p: EquityPoint, buys: bool)
    ensures Count(curve + [p], buys) ==
      Count(curve, buys) + if p.action.Some? && p.action.value.Buy? == buys then 1 else 0
  {
    Seqs.InitOfSnoc(curve, p);
  }

  lemma LastActionAppend(curve: seq<EquityPoint>, p: EquityPoint)
    ensures LastAction(curve + [p]) == if p.action.Some? then Some(|curve|) else LastAction(curve)
  {
    Seqs.InitOfSnoc(curve, p);
  }

  lemma AlternatingAppend(curve: seq<EquityPoint>, p: EquityPoint)
    requires Alternating(curve)
    requires p.action.Some? ==> (p.action.value.Sell? <==> HoldsAfter(curve))
    ensures Alternating(curve + [p])
  {
    var c := curve + [p];
    forall k | 0 <= k < |c| && c[k].action.Some?
      ensures c[k].action.value.Sell? <==> HoldsAfter(c[..k])
    {
      if k < |curve| {
        assert c[..k] == curve[..k];
      } else {
        assert c[..k] == curve;
      }
    }
  }

  /** A quiet visit (no action) keeps the invariant. */
  lemma QuietKeeps(st: State, n: nat, p: EquityPoint)
    requires Invariant(st, n) && p.action.None?
    ensures Invariant(st.(curve := st.curve + [p]), n + 1)
  {
    LastActionAppend(st.curve, p);
    AlternatingAppend(st.curve, p);
    CountAppend(st.curve, p, true);
    CountAppend(st.curve, p, false);
    Seqs.InitOfSnoc(st.curve, p);
  }

  /** A buy from a flat position keeps the invariant. */
  lemma BuyKeeps(st: State, n: nat, p: EquityPoint, position: Position)
    requires Invariant(st, n) && !st.position.isLong
    requires p.action.Some? && p.action.value.Buy?
    requires position.isLong && position.quantity == st.position.quantity
    ensures Invariant(State(position, Some(n), st.trades, st.curve + [p]), n + 1)
  {
    LastActionAppend(st.curve, p);
    AlternatingAppend(st.curve, p);
    CountAppend(st.curve, p, true);
    CountAppend(st.curve, p, false);
    assert (st.curve + [p])[n] == p;
  }

  /** A sale from a long position keeps the invariant. */
  lemma SellKeeps(st: State, n: nat, p: EquityPoint, trade: Trade)
    requires Invariant(st, n) && st.position.isLong
    requires p.action.Some? && p.action.value.Sell?
    requires trade.quantity == st.position.quantity
    requires trade.quantity == 0.0 ==> trade.pnl == 0.0
    ensures Invariant(State(Closed, None, st.trades + [trade], st.curve + [p]), n + 1)
  {
    LastActionAppend(st.curve, p);
    AlternatingAppend(st.curve, p);
    CountAppend(st.curve, p, true);
    CountAppend(st.curve, p, false);
    assert (st.curve + [p])[n] == p;
    SizedAppend(st.trades, trade);
  }

  lemma VisitKeeps(st: State, n: nat, zs: Zhongshu, lastKlu: Klu, rate: real)
    requires Invariant(st, n)
    ensures Visit(st, n, zs, lastKlu, rate).Success? ==> Invariant(Visit(st, n, zs, lastKlu, rate).value, n + 1)
  {
    var price := PriceOf(zs, lastKlu);
    var date := DateOf(zs, lastKlu);
    var point := PointOf(zs, lastKlu, st.position);
    var r := Visit(st, n, zs, lastKlu, rate);
    if st.position.isLong && zs.endClose > zs.startClose && AfterBuy(n, st.lastBuy) {
      var entry := st.position.entryPrice;
      if entry != 0.0 {
        var pnl := Profit(entry, price, st.position.quantity);
        var pnlPct := ReturnOn(entry, price);
        var trade := Trade(st.position.entryDate, date, entry, price, st.position.quantity, pnl, pnlPct);
        var p := point.(action := Some(Sell(price, date, pnl, pnlPct)));
        assert r == Success(State(Closed, None, st.trades + [trade], st.curve + [p]));
        SellKeeps(st, n, p, trade);
      }
    } else if !st.position.isLong && zs.endClose < zs.startClose && IsDivergence(zs, rate) {
      var position := st.position.(isLong := true, entryPrice := price, entryDate := Some(date));
      var p := point.(action := Some(Buy(price, date)));
      assert r == Success(State(position, Some(n), st.trades, st.curve + [p]));
      BuyKeeps(st, n, p, position);
    } else {
      assert r == Success(st.(curve := st.curve + [point]));
      QuietKeeps(st, n, point);
    }
  }

  /** After any run: one curve entry per zhongshu; actions alternate starting
      with a buy, so buys exceed sales by one exactly while a position is open;
      one trade per sale; only the first trade holds 1000 shares, and every
      later one holds none and earns nothing. */
  lemma {:induction false} RunInvariant(zss: seq<Zhongshu>, lastKlu: Klu, rate: real)
    requires Run(zss, lastKlu, rate).Success?
    ensures Invariant(Run(zss, lastKlu, rate).value, |zss|)
    decreases |zss|
  {
    if zss != [] {
      var init := zss[..|zss| - 1];
      RunInvariant(init, lastKlu, rate);
      VisitKeeps(Run(init, lastKlu, rate).value, |init|, zss[|zss| - 1], lastKlu, rate);
    } else {
      assert LastAction([]) == None;
    }
  }

  /** While long, the buy happened at an earlier zhongshu, so the sell guard's
      index comparison never decides anything. */
  lemma SellGuardIndexAlwaysHolds(st: State, n: nat)
    requires Invariant(st, n) && st.position.isLong
    ensures AfterBuy(n, st.lastBuy)
  {
  }

  /** Every sale on the curve closes the buy recorded at an earlier entry,
      with no action between the two. */
  lemma SaleFollowsBuy(zss: seq<Zhongshu>, lastKlu: Klu, rate: real, k: nat)
    requires Run(zss, lastKlu, rate).Success?
    requires var curve := Run(zss, lastKlu, rate).value.curve;
      k < |curve| && curve[k].action.Some? && curve[k].action.value.Sell?
    ensures var curve := Run(zss, lastKlu, rate).value.curve;
      && LastAction(curve[..k]).Some?
      && LastAction(curve[..k]).value < k
      && IsBuyAt(curve, LastAction(curve[..k]).value)
      && forall m :: LastAction(curve[..k]).value < m < k ==> curve[m].action.None?
  {
    RunInvariant(zss, lastKlu, rate);
    var curve := Run(zss, lastKlu, rate).value.curve;
    var j := LastAction(curve[..k]).value;
    assert curve[..k][j] == curve[j];
    forall m | j < m < k
      ensures curve[m].action.None?
    {
      assert curve[..k][m] == curve[m];
    }
  }

  /** A falling, diverging zhongshu ending at 10 opens the position; a rising
      one ending at 12 closes it: one trade of 1000 shares earning 2000, a
      return of 20%. */
  lemma BuyThenSellExample()
    ensures var down := Zhongshu(30.0, 16.0, 25.0, 17.0, 25.0, 14.0, Some(Klu("t1", 10.0)),
        Some([Bi(30.0, 14.0), Bi(14.0, 20.0), Bi(20.0, 16.0)]));
      var up := Zhongshu(16.0, 24.0, 26.0, 18.0, 27.0, 16.0, Some(Klu("t2", 12.0)), None);
      var r := Run([down, up], Klu("t3", 11.0), 0.8);
      r.Success? && r.value.trades == [Trade(Some("t1"), "t2", 10.0, 12.0, 1000.0, 2000.0, 0.2)]
  {
    var down := Zhongshu(30.0, 16.0, 25.0, 17.0, 25.0, 14.0, Some(Klu("t1", 10.0)),
      Some([Bi(30.0, 14.0), Bi(14.0, 20.0), Bi(20.0, 16.0)]));
    var up := Zhongshu(16.0, 24.0, 26.0, 18.0, 27.0, 16.0, Some(Klu("t2", 12.0)), None);
    var lastKlu := Klu("t3", 11.0);
    assert IsDivergence(down, 0.8);
    assert [down, up][..1] == [down];
    assert [down][..0] == [];
    assert Run([], lastKlu, 0.8) == Success(Start);
    var first := Run([down], lastKlu, 0.8);
    assert first == Visit(Start, 0, down, lastKlu, 0.8);
    assert first.Success? && first.value.position == Position(true, 10.0, Some("t1"), 1000.0);
    assert first.value.lastBuy == Some(0) && first.value.trades == [];
    VisitSells(first.value, 1, up, lastKlu, 0.8);
  }

  lemma RunPrefix(zss: seq<Zhongshu>, lastKlu: Klu, rate: real, i: nat)
    requires i < |zss| && Run(zss[..i + 1], lastKlu, rate).Success?
    ensures Run(zss[..i], lastKlu, rate).Success?
    ensures Run(zss[..i + 1], lastKlu, rate) == Visit(Run(zss[..i], lastKlu, rate).value, i, zss[i], lastKlu, rate)
  {
    Seqs.TakeNext(zss, i);
  }

  /** A failed run stays failed whatever comes after. */
  lemma {:induction false} RunStopsAtError(zss: seq<Zhongshu>, lastKlu: Klu, rate: real, i: nat)
    requires i <= |zss| && Run(zss[..i], lastKlu, rate).Failure?
    ensures Run(zss, lastKlu, rate) == Failure(Run(zss[..i], lastKlu, rate).error)
    decreases |zss| - i
  {
    if i < |zss| {
      Seqs.TakeNext(zss, i);
      RunStopsAtError(zss, lastKlu, rate, i + 1);
    } else {
      Seqs.TakeAll(zss);
    }
  }

  /** Entries already on the curve never change. */
  lemma {:induction false} RunCurveGrows(zss: seq<Zhongshu>, lastKlu: Klu, rate: real, i: nat)
    requires i <= |zss| && Run(zss, lastKlu, rate).Success?
    ensures Run(zss[..i], lastKlu, rate).Success?
    ensures Run(zss[..i], lastKlu, rate).value.curve == Run(zss, lastKlu, rate).value.curve[..i]
    decreases |zss| - i
  {
    if i == |zss| {
      Seqs.TakeAll(zss);
      RunInvariant(zss, lastKlu, rate);
    } else {
      RunCurveGrows(zss, lastKlu, rate, i + 1);
      RunPrefix(zss, lastKlu, rate, i);
      RunInvariant(zss[..i], lastKlu, rate);
      var before := Run(zss[..i], lastKlu, rate).value;
      var after := Run(zss[..i + 1], lastKlu, rate).value;
      assert after.curve[..i] == before.curve;
      assert Run(zss, lastKlu, rate).value.curve[..i] == Run(zss, lastKlu, rate).value.curve[..i + 1][..i];
    }
  }

  /** Entry `i` of the curve records zhongshu `i`, the position before the
      visit, and the rule that fired: a buy exactly when flat before, the
      zhongshu strictly falls and it diverges; a sale exactly when long before
      and the zhongshu strictly rises. */
  lemma {:induction false} CurveEntry(zss: seq<Zhongshu>, lastKlu: Klu, rate: real, i: nat)
    requires i < |zss| && Run(zss, lastKlu, rate).Success?
    ensures var p := Run(zss, lastKlu, rate).value.curve[i];
      && p.price == PriceOf(zss[i], lastKlu)
      && p.date == DateOf(zss[i], lastKlu)
      && p.direction == DirectionOf(zss[i])
      && (p.action.Some? && p.action.value.Buy? <==>
          !p.position.isLong && zss[i].endClose < zss[i].startClose && IsDivergence(zss[i], rate))
      && (p.action.Some? && p.action.value.Sell? <==>
          p.position.isLong && zss[i].endClose > zss[i].startClose)
  {
    RunInvariant(zss, lastKlu, rate);
    RunCurveGrows(zss, lastKlu, rate, i + 1);
    RunPrefix(zss, lastKlu, rate, i);
    RunInvariant(zss[..i], lastKlu, rate);
    var before := Run(zss[..i], lastKlu, rate).value;
    var after := Run(zss[..i + 1], lastKlu, rate).value;
    assert zss[..i + 1][i] == zss[i];
    assert after.curve[i] == Run(zss, lastKlu, rate).value.curve[..i + 1][i];
    if before.position.isLong {
      SellGuardIndexAlwaysHolds(before, i);
    }
  }

  // ---------------------------------------------------------------------------
  // Statistics

  datatype Statistics = Statistics(totalTrades: nat, winRate: real, totalPnl: real, avgPnl: real, maxDrawdown: real)

  function Pnls(trades: seq<Trade>): (r: seq<MyStrategy.Trade>)
    ensures |r| == |trades|
  {
    seq(|trades|, k requires 0 <= k < |trades| => MyStrategy.Trade(trades[k].pnl))
  }

  /** The drawdown loop's variables: the running peak price and the largest
      relative fall below it so far. */
  datatype Fall = Fall(peak: real, maxDrawdown: real)

  /** The drawdown loop over the first `prices`, with the peak starting at
      `first`. A peak of 0 divides by zero. */
  function TrackFall(first: real, prices: seq<real>): (r: Result<Fall, Error>)
    ensures r.Failure? ==> r.error == ZeroPeakPrice
    decreases |prices|
  {
    if prices == [] then Success(Fall(first, 0.0))
    else
      var before :- TrackFall(first, prices[..|prices| - 1]);
      var price := prices[|prices| - 1];
      var peak := if price > before.peak then price else before.peak;
      if peak == 0.0 then Failure(ZeroPeakPrice)
      else
        var drawdown := (peak - price) / peak;
        Success(Fall(peak, MyStrategy.Max(before.maxDrawdown, drawdown)))
  }

  function Prices(curve: seq<EquityPoint>): (r: seq<real>)
    ensures |r| == |curve|
  {
    seq(|curve|, k requires 0 <= k < |curve| => curve[k].price)
  }

  /** The largest fall of the equity-curve price below its running peak, as a
      share of the peak. */
  function PriceDrawdown(curve: seq<EquityPoint>): Result<real, Error> {
    if curve == [] then Success(0.0)
    else
      var fall :- TrackFall(curve[0].price, Prices(curve));
      Success(fall.maxDrawdown)
  }

  /** With no trades everything is zero, whatever the curve holds. */
  function StatisticsOf(trades: seq<Trade>, curve: seq<EquityPoint>): Result<Statistics, Error> {
    if trades == [] then Success(Statistics(0, 0.0, 0.0, 0.0, 0.0))
    else
      var n := |trades|;
      var drawdown :- PriceDrawdown(curve);
      Success(Statistics(n, (MyStrategy.Wins(Pnls(trades)) as real) / (n as real),
        MyStrategy.TotalPnl(Pnls(trades)), MyStrategy.TotalPnl(Pnls(trades)) / (n as real), drawdown))
  }

  function Peak(first: real, prices: seq<real>): real
    decreases |prices|
  {
    if prices == [] then first
    else
      var before := Peak(first, prices[..|prices| - 1]);
      if prices[|prices| - 1] > before then prices[|prices| - 1] else before
  }

  /** The running peak is the highest price so far (the start included). */
  lemma {:induction false} PeakIsHighest(first: real, prices: seq<real>)
    ensures first <= Peak(first, prices)
    ensures forall k :: 0 <= k < |prices| ==> prices[k] <= Peak(first, prices)
    ensures Peak(first, prices) == first || exists k :: 0 <= k < |prices| && prices[k] == Peak(first, prices)
    decreases |prices|
  {
    if prices != [] {
      var init := prices[..|prices| - 1];
      PeakIsHighest(first, init);
      assert forall k :: 0 <= k < |init| ==> prices[k] == init[k];
      if Peak(first, prices) != first && Peak(first, prices) != prices[|prices| - 1] {
        var k :| 0 <= k < |init| && init[k] == Peak(first, init);
        assert prices[k] == Peak(first, prices);
      }
    }
  }

  lemma ShareBelowOne(peak: real, price: real)
    requires 0.0 < price <= peak
    ensures 0.0 <= (peak - price) / peak < 1.0
  {
    var r := (peak - price) / peak;
    assert r * peak == peak - price;
  }

  /** With positive prices the drawdown loop never fails, its peak is the
      running maximum, and the largest fall lies in [0, 1). */
  lemma {:induction false} FallBounds(first: real, prices: seq<real>)
    requires first > 0.0 && forall k :: 0 <= k < |prices| ==> prices[k] > 0.0
    ensures TrackFall(first, prices).Success?
    ensures TrackFall(first, prices).value.peak == Peak(first, prices)
    ensures 0.0 <= TrackFall(first, prices).value.maxDrawdown < 1.0
    decreases |prices|
  {
    if prices != [] {
      var init := prices[..|prices| - 1];
      FallBounds(first, init);
      PeakIsHighest(first, prices);
      var peak := Peak(first, prices);
      ShareBelowOne(peak, prices[|prices| - 1]);
    }
  }

  /** The running peak up to and including position `k`. */
  function PeakAt(first: real, prices: seq<real>, k: nat): real
    requires k < |prices|
  {
    Peak(first, prices[..k + 1])
  }

  /** How far the price at position `k` lies below the running peak up to and
      including it, as a share of that peak. */
  function FallAt(first: real, prices: seq<real>, k: nat): real
    requires k < |prices| && PeakAt(first, prices, k) != 0.0
  {
    (PeakAt(first, prices, k) - prices[k]) / PeakAt(first, prices, k)
  }

  /** When the drawdown loop succeeds, its peak is the running maximum, no
      peak along the way was zero, and the result is the largest fall below
      the running peak: no position falls further, and unless the result is
      the starting 0 some position falls exactly that far. */
  lemma {:induction false} DrawdownIsLargestFall(first: real, prices: seq<real>)
    requires TrackFall(first, prices).Success?
    ensures TrackFall(first, prices).value.peak == Peak(first, prices)
    ensures 0.0 <= TrackFall(first, prices).value.maxDrawdown
    ensures forall k :: 0 <= k < |prices| ==> PeakAt(first, prices, k) != 0.0
    ensures forall k :: 0 <= k < |prices| ==> FallAt(first, prices, k) <= TrackFall(first, prices).value.maxDrawdown
    ensures TrackFall(first, prices).value.maxDrawdown == 0.0 ||
      exists k :: 0 <= k < |prices| && PeakAt(first, prices, k) != 0.0 &&
        FallAt(first, prices, k) == TrackFall(first, prices).value.maxDrawdown
    decreases |prices|
  {
    if prices != [] {
      var n := |prices|;
      var init := prices[..n - 1];
      DrawdownIsLargestFall(first, init);
      var before := TrackFall(first, init).value;
      var after := TrackFall(first, prices).value;
      forall k | 0 <= k < n - 1
        ensures prices[..k + 1] == init[..k + 1] && prices[k] == init[k]
        ensures PeakAt(first, prices, k) != 0.0 && FallAt(first, prices, k) <= after.maxDrawdown
      {
        assert prices[..k + 1] == init[..k + 1];
        assert PeakAt(first, init, k) != 0.0;
        assert FallAt(first, prices, k) == FallAt(first, init, k) <= before.maxDrawdown;
      }
      assert prices[..n] == prices;
      assert Peak(first, prices) == after.peak != 0.0;
      assert FallAt(first, prices, n - 1) <= after.maxDrawdown;
      if after.maxDrawdown != before.maxDrawdown {
        assert FallAt(first, prices, n - 1) == after.maxDrawdown;
      } else if before.maxDrawdown != 0.0 {
        var k :| 0 <= k < |init| && PeakAt(first, init, k) != 0.0 && FallAt(first, init, k) == before.maxDrawdown;
        assert FallAt(first, prices, k) == after.maxDrawdown;
      }
    }
  }

  /** For positive prices on a non-empty curve the drawdown is in [0, 1). */
  lemma PriceDrawdownBounds(curve: seq<EquityPoint>)
    requires forall k :: 0 <= k < |curve| ==> curve[k].price > 0.0
    ensures PriceDrawdown(curve).Success?
    ensures 0.0 <= PriceDrawdown(curve).value < 1.0
  {
    if curve != [] {
      FallBounds(curve[0].price, Prices(curve));
    }
  }

  /** A falling then recovering curve: prices 10, 8, 12, 9 fall by 20% and
      then by 25% of the new peak; the larger share is kept. */
  lemma DrawdownExample()
    ensures TrackFall(10.0, [10.0, 8.0, 12.0, 9.0]) == Success(Fall(12.0, 0.25))
  {
    var p := [10.0, 8.0, 12.0, 9.0];
    assert p[..3] == [10.0, 8.0, 12.0];
    assert p[..3][..2] == [10.0, 8.0];
    assert p[..3][..2][..1] == [10.0];
    assert p[..3][..2][..1][..0] == [];
    assert TrackFall(10.0, [10.0]) == Success(Fall(10.0, 0.0));
    assert TrackFall(10.0, [10.0, 8.0]) == Success(Fall(10.0, 0.2));
    assert TrackFall(10.0, [10.0, 8.0, 12.0]) == Success(Fall(12.0, 0.2));
  }

  /** A failed drawdown loop stays failed. */
  lemma {:induction false} FallStopsAtError(first: real, prices: seq<real>, k: nat)
    requires k <= |prices| && TrackFall(first, prices[..k]).Failure?
    ensures TrackFall(first, prices) == Failure(ZeroPeakPrice)
    decreases |prices| - k
  {
    if k < |prices| {
      Seqs.TakeNext(prices, k);
      FallStopsAtError(first, prices, k + 1);
    } else {
      Seqs.TakeAll(prices);
    }
  }

  // ---------------------------------------------------------------------------
  // The strategy object

  datatype Backtest = Backtest(statistics: Statistics, trades: seq<Trade>, curve: seq<EquityPoint>)

  function BacktestOf(zss: seq<Zhongshu>, lastKlu: Klu, rate: real): Result<Backtest, Error> {
    var st :- Run(zss, lastKlu, rate);
    var statistics :- StatisticsOf(st.trades, st.curve);
    Success(Backtest(statistics, st.trades, st.curve))
  }

  class ZhongshuBacktest {
    var code: string
    var config: Config

    constructor(code: string, config: Option<Config>)
      ensures this.code == code && this.config == MergeConfig(config)
    {
      this.code := code;
      this.config := MergeConfig(config);
    }

    /** The statistics: with no trades, all zero; otherwise counts and sums of
        the trades and the drawdown loop over the curve prices. */
    method CalculateStatistics(trades: seq<Trade>, curve: seq<EquityPoint>) returns (r: Result<Statistics, Error>)
      ensures r == StatisticsOf(trades, curve)
      ensures trades == [] ==> r == Success(Statistics(0, 0.0, 0.0, 0.0, 0.0))
    {
      if trades == [] {
        return Success(Statistics(0, 0.0, 0.0, 0.0, 0.0));
      }
      var n := |trades|;
      var winRate := (MyStrategy.Wins(Pnls(trades)) as real) / (n as real);
      var totalPnl := MyStrategy.TotalPnl(Pnls(trades));
      var avgPnl := totalPnl / (n as real);
      var maxDrawdown := 0.0;
      if curve != [] {
        var prices := Prices(curve);
        var peak := curve[0].price;
        for k := 0 to |curve|
          invariant TrackFall(curve[0].price, prices[..k]) == Success(Fall(peak, maxDrawdown))
        {
          Seqs.TakeNext(prices, k);
          var price := curve[k].price;
          if price > peak {
            peak := price;
          }
          if peak == 0.0 {
            FallStopsAtError(curve[0].price, prices, k + 1);
            return Failure(ZeroPeakPrice);
          }
          var drawdown := (peak - price) / peak;
          maxDrawdown := MyStrategy.Max(maxDrawdown, drawdown);
        }
        assert prices[..|curve|] == prices;
      }
      return Success(Statistics(n, winRate, totalPnl, avgPnl, maxDrawdown));
    }

    /** Walks the zhongshus in order with the configured divergence threshold,
        then computes the statistics. */
    method RunBacktest(zss: seq<Zhongshu>, lastKlu: Klu) returns (r: Result<Backtest, Error>)
      requires RateOf(config).Some?
      ensures r == BacktestOf(zss, lastKlu, RateOf(config).value)
    {
      var rate := RateOf(config).value;
      var position := Opening;
      var trades: seq<Trade> := [];
      var curve: seq<EquityPoint> := [];
      var lastBuy: Option<nat> := None;
      for i := 0 to |zss|
        invariant Run(zss[..i], lastKlu, rate) == Success(State(position, lastBuy, trades, curve))
      {
        Seqs.TakeNext(zss, i);
        var zs := zss[i];
        var price := PriceOf(zs, lastKlu);
        var date := DateOf(zs, lastKlu);
        var point := PointOf(zs, lastKlu, position);
        ghost var next := Visit(State(position, lastBuy, trades, curve), i, zs, lastKlu, rate);
        assert Run(zss[..i + 1], lastKlu, rate) == next;
        if position.isLong && zs.endClose > zs.startClose && AfterBuy(i, lastBuy) {
          if position.entryPrice == 0.0 {
            RunStopsAtError(zss, lastKlu, rate, i + 1);
            return Failure(ZeroEntryPrice(i));
          }
          var pnl := Profit(position.entryPrice, price, position.quantity);
          var pnlPct := ReturnOn(position.entryPrice, price);
          var trade := Trade(position.entryDate, date, position.entryPrice, price, position.quantity, pnl, pnlPct);
          var sold := point.(action := Some(Sell(price, date, pnl, pnlPct)));
          VisitSells(State(position, lastBuy, trades, curve), i, zs, lastKlu, rate);
          assert next == Success(State(Closed, None, trades + [trade], curve + [sold]));
          trades := trades + [trade];
          curve := curve + [sold];
          position := Closed;
          lastBuy := None;
        } else if !position.isLong && zs.endClose < zs.startClose && IsDivergence(zs, rate) {
          position := position.(isLong := true, entryPrice := price, entryDate := Some(date));
          lastBuy := Some(i);
          curve := curve + [point.(action := Some(Buy(price, date)))];
          assert next == Success(State(position, lastBuy, trades, curve));
        } else {
          curve := curve + [point];
          assert next == Success(State(position, lastBuy, trades, curve));
        }
      }
      Seqs.TakeAll(zss);
      var statistics := CalculateStatistics(trades, curve);
      if statistics.Failure? {
        return Failure(statistics.error);
      }
      return Success(Backtest(statistics.value, trades, curve));
    }
  }
}
