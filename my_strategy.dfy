/** The professional Chan strategy's bookkeeping: how its configuration is
    chosen, and the statistics of a finished backtest (trade counts, profit
    sums and the drawdown of cumulative profit). */
module MyStrategy {
  import opened Wrappers
  import Seqs

  // ---------------------------------------------------------------------------
  // Configuration

  datatype ConfigValue = Flag(flag: bool) | Ratio(ratio: real) | Count(count: int) | Word(word: string)

  type Config = map<string, ConfigValue>

  /** The built-in configuration. */
  function DefaultConfig(): (c: Config)
    ensures c.Keys == {"trigger_step", "divergence_rate", "min_zs_cnt", "max_bs2_rate", "bi_strict", "seg_algo"}
  {
    map[
      "trigger_step" := Flag(true),
      "divergence_rate" := Ratio(0.8),
      "min_zs_cnt" := Count(1),
      "max_bs2_rate" := Ratio(0.618),
      "bi_strict" := Flag(true),
      "seg_algo" := Word("chan")
    ]
  }

  /** `config or default`: a missing or empty configuration falls back to the
      defaults; any other is used as given. */
  function ChooseConfig(given: Option<Config>): Config {
    match given
    case Some(c) => if c != map[] then c else DefaultConfig()
    case None => DefaultConfig()
  }

  /** A non-empty configuration replaces the defaults wholesale, so a default
      key it does not mention is absent; otherwise the defaults are used. */
  lemma ConfigChoice(given: Option<Config>)
    ensures given.Some? && given.value != map[] ==> ChooseConfig(given) == given.value
    ensures given.None? || given.value == map[] ==> ChooseConfig(given) == DefaultConfig()
    ensures "trigger_step" in ChooseConfig(given) <==>
      given.None? || given.value == map[] || "trigger_step" in given.value
  {
  }

  /** A custom configuration with two keys keeps exactly those two. */
  lemma CustomConfigNotMerged()
    ensures var custom := map["trigger_step" := Flag(true), "custom_param" := Word("test")];
      ChooseConfig(Some(custom)) == custom && "divergence_rate" !in ChooseConfig(Some(custom))
  {
    var custom := map["trigger_step" := Flag(true), "custom_param" := Word("test")];
    assert "trigger_step" in custom;
  }

  // ---------------------------------------------------------------------------
  // Statistics

  /** A finished trade, as the statistics see it. */
  datatype Trade = Trade(pnl: real)

  /** The statistics of a backtest. `winningTrades` is absent when there were
      no trades. */
  datatype Statistics = Statistics(
    totalTrades: nat,
    winningTrades: Option<nat>,
    winRate: real,
    totalPnl: real,
    avgPnl: real,
    maxDrawdown: real)

  /** How many trades made a strictly positive profit. */
  function Wins(trades: seq<Trade>): (n: nat)
    ensures n <= |trades|
    decreases |trades|
  {
    if trades == [] then 0
    else Wins(trades[..|trades| - 1]) + if trades[|trades| - 1].pnl > 0.0 then 1 else 0
  }

  function TotalPnl(trades: seq<Trade>): real
    decreases |trades|
  {
    if trades == [] then 0.0 else TotalPnl(trades[..|trades| - 1]) + trades[|trades| - 1].pnl
  }

  /** Cumulative profit after the first `k` trades; zero before any. */
  function Cumulative(trades: seq<Trade>, k: nat): real
    requires k <= |trades|
  {
    TotalPnl(trades[..k])
  }

  function Max(a: real, b: real): real { if b > a then b else a }

  /** The drawdown loop's variables after some trades. */
  datatype Tracker = Tracker(cumulative: real, peak: real, maxDrawdown: real)

  /** One more trade: the cumulative profit moves, the peak follows it up, and
      the largest gap between them is kept. */
  function Advance(s: Tracker, t: Trade): Tracker {
    var cumulative := s.cumulative + t.pnl;
    var peak := Max(s.peak, cumulative);
    Tracker(cumulative, peak, Max(s.maxDrawdown, peak - cumulative))
  }

  /** The drawdown loop over some trades, from a zero start. */
  function Track(trades: seq<Trade>): Tracker
    decreases |trades|
  {
    if trades == [] then Tracker(0.0, 0.0, 0.0) else Advance(Track(trades[..|trades| - 1]), trades[|trades| - 1])
  }

  lemma CumulativePrefix(trades: seq<Trade>, k: nat)
    requires k < |trades|
    ensures Cumulative(trades, k) == Cumulative(trades[..|trades| - 1], k)
  {
    assert trades[..k] == trades[..|trades| - 1][..k];
  }

  lemma CumulativeAll(trades: seq<Trade>)
    ensures Cumulative(trades, |trades|) == TotalPnl(trades)
  {
    Seqs.TakeAll(trades);
  }

  /** The loop's invariant: the cumulative profit is the profit so far, the peak
      is the highest cumulative profit seen (counting the zero start), and the
      peak never falls below the current cumulative profit. */
  lemma {:induction false} TrackPeak(trades: seq<Trade>)
    ensures Track(trades).cumulative == TotalPnl(trades)
    ensures Track(trades).peak >= Track(trades).cumulative
    ensures forall k :: 0 <= k <= |trades| ==> Cumulative(trades, k) <= Track(trades).peak
    ensures exists k :: 0 <= k <= |trades| && Cumulative(trades, k) == Track(trades).peak
    decreases |trades|
  {
    if trades == [] {
      assert Cumulative(trades, 0) == 0.0;
    } else {
      var n := |trades|;
      var init := trades[..n - 1];
      TrackPeak(init);
      CumulativeAll(trades);
      forall k | 0 <= k <= n ensures Cumulative(trades, k) <= Track(trades).peak {
        if k < n {
          CumulativePrefix(trades, k);
        }
      }
      var k0 :| 0 <= k0 <= |init| && Cumulative(init, k0) == Track(init).peak;
      if k0 < n {
        CumulativePrefix(trades, k0);
      }
      if Track(trades).peak != Track(init).peak {
        assert Cumulative(trades, n) == Track(trades).peak;
      } else {
        assert Cumulative(trades, k0) == Track(trades).peak;
      }
    }
  }

  /** No fall of cumulative profit, from any earlier point (the zero start
      included) to any later one, exceeds the largest drawdown. */
  lemma {:induction false} FallBounded(trades: seq<Trade>)
    ensures forall i, j :: 0 <= i <= j <= |trades| ==>
      Cumulative(trades, i) - Cumulative(trades, j) <= Track(trades).maxDrawdown
    decreases |trades|
  {
    if trades != [] {
      var n := |trades|;
      var init := trades[..n - 1];
      FallBounded(init);
      TrackPeak(init);
      CumulativeAll(trades);
      forall i, j | 0 <= i <= j <= n
        ensures Cumulative(trades, i) - Cumulative(trades, j) <= Track(trades).maxDrawdown
      {
        if j < n {
          CumulativePrefix(trades, i);
          CumulativePrefix(trades, j);
        } else if i < n {
          CumulativePrefix(trades, i);
        }
      }
    }
  }

  /** Some fall of cumulative profit is exactly the largest drawdown. */
  lemma {:induction false} FallAttained(trades: seq<Trade>)
    ensures exists i, j ::
      0 <= i <= j <= |trades| && Cumulative(trades, i) - Cumulative(trades, j) == Track(trades).maxDrawdown
    decreases |trades|
  {
    if trades == [] {
      assert Cumulative(trades, 0) - Cumulative(trades, 0) == 0.0;
    } else {
      var n := |trades|;
      var init := trades[..n - 1];
      FallAttained(init);
      TrackPeak(trades);
      CumulativeAll(trades);
      var i0, j0 :| 0 <= i0 <= j0 <= |init| && Cumulative(init, i0) - Cumulative(init, j0) == Track(init).maxDrawdown;
      CumulativePrefix(trades, i0);
      CumulativePrefix(trades, j0);
      var k :| 0 <= k <= n && Cumulative(trades, k) == Track(trades).peak;
      if Track(trades).maxDrawdown != Track(init).maxDrawdown {
        assert Cumulative(trades, k) - Cumulative(trades, n) == Track(trades).maxDrawdown;
      } else {
        assert Cumulative(trades, i0) - Cumulative(trades, j0) == Track(trades).maxDrawdown;
      }
    }
  }

  /** The largest drawdown is the largest fall of cumulative profit from any
      earlier point (the zero start included) to any later one. */
  lemma DrawdownIsLargestFall(trades: seq<Trade>)
    ensures forall i, j :: 0 <= i <= j <= |trades| ==>
      Cumulative(trades, i) - Cumulative(trades, j) <= Track(trades).maxDrawdown
    ensures exists i, j ::
      0 <= i <= j <= |trades| && Cumulative(trades, i) - Cumulative(trades, j) == Track(trades).maxDrawdown
  {
    FallBounded(trades);
    FallAttained(trades);
  }

  /** The drawdown is never negative, and is zero when no trade lost money. */
  lemma DrawdownBounds(trades: seq<Trade>)
    ensures Track(trades).maxDrawdown >= 0.0
    ensures (forall k :: 0 <= k < |trades| ==> trades[k].pnl >= 0.0) ==> Track(trades).maxDrawdown == 0.0
  {
    DrawdownIsLargestFall(trades);
    assert Cumulative(trades, 0) - Cumulative(trades, 0) == 0.0;
    if forall k :: 0 <= k < |trades| ==> trades[k].pnl >= 0.0 {
      var i, j :| 0 <= i <= j <= |trades| && Cumulative(trades, i) - Cumulative(trades, j) == Track(trades).maxDrawdown;
      CumulativeGrows(trades, i, j);
    }
  }

  lemma {:induction false} CumulativeGrows(trades: seq<Trade>, i: nat, j: nat)
    requires i <= j <= |trades|
    requires forall k :: 0 <= k < |trades| ==> trades[k].pnl >= 0.0
    ensures Cumulative(trades, i) <= Cumulative(trades, j)
    decreases j - i
  {
    if i < j {
      CumulativeGrows(trades, i, j - 1);
      assert trades[..j][..j - 1] == trades[..j - 1];
    }
  }

  /** The share of winning trades lies between 0 and 1. */
  lemma WinRateBounds(trades: seq<Trade>)
    requires trades != []
    ensures 0.0 <= (Wins(trades) as real) / (|trades| as real) <= 1.0
  {
    ShareBounds(Wins(trades) as real, |trades| as real);
  }

  lemma ShareBounds(part: real, whole: real)
    requires 0.0 <= part <= whole && whole > 0.0
    ensures 0.0 <= part / whole <= 1.0
  {
    var r := part / whole;
    assert r * whole == part;
  }

  /** The statistics as a function of the trades. */
  function StatisticsOf(trades: seq<Trade>): Statistics {
    if trades == [] then Statistics(0, None, 0.0, 0.0, 0.0, 0.0)
    else
      var n := |trades|;
      Statistics(n, Some(Wins(trades)), (Wins(trades) as real) / (n as real),
        TotalPnl(trades), TotalPnl(trades) / (n as real), Track(trades).maxDrawdown)
  }

  /** Three trades of 1000, -500 and 1500: two winners, a total of 2000, an
      average of 2000/3, and a drawdown of 500. */
  lemma ThreeTradesExample()
    ensures StatisticsOf([Trade(1000.0), Trade(-500.0), Trade(1500.0)]) ==
      Statistics(3, Some(2), 2.0 / 3.0, 2000.0, 2000.0 / 3.0, 500.0)
  {
    var t := [Trade(1000.0), Trade(-500.0), Trade(1500.0)];
    assert t[..2] == [Trade(1000.0), Trade(-500.0)];
    assert t[..2][..1] == [Trade(1000.0)];
    assert t[..2][..1][..0] == [];
    assert Track(t[..2][..1]) == Tracker(1000.0, 1000.0, 0.0);
    assert Track(t[..2]) == Tracker(500.0, 1000.0, 500.0);
    assert Track(t) == Tracker(2000.0, 2000.0, 500.0);
    assert Wins(t) == 2;
    assert TotalPnl(t[..2][..1]) == 1000.0;
    assert TotalPnl(t[..2]) == 500.0;
    assert TotalPnl(t) == 2000.0;
  }

  // ---------------------------------------------------------------------------
  // The strategy object

  class ProfessionalStrategy {
    var code: string
    var config: Config
    /** Starts empty; the modelled operations never add to it. */
    var results: seq<Statistics>

    constructor(code: string, config: Option<Config>)
      ensures this.code == code && this.config == ChooseConfig(config) && results == []
    {
      this.code := code;
      this.config := ChooseConfig(config);
      results := [];
    }

    /** The statistics of a list of trades: with no trades everything is zero
        and there is no winning count; otherwise the counts, the profit sum and
        average, and the drawdown loop's result. */
    method CalculateStatistics(trades: seq<Trade>) returns (s: Statistics)
      ensures s == StatisticsOf(trades)
      ensures trades == [] ==> s.winningTrades.None? && s.totalTrades == 0 && s.maxDrawdown == 0.0
      ensures trades != [] ==> s.totalTrades == |trades| && s.winningTrades == Some(Wins(trades))
      ensures 0.0 <= s.winRate <= 1.0 && s.maxDrawdown >= 0.0
    {
      if trades == [] {
        return Statistics(0, None, 0.0, 0.0, 0.0, 0.0);
      }
      var total := |trades|;
      var winning := Wins(trades);
      var winRate := (winning as real) / (total as real);
      var totalPnl := TotalPnl(trades);
      var avgPnl := totalPnl / (total as real);
      var cumulative, peak, maxDrawdown := 0.0, 0.0, 0.0;
      for i := 0 to |trades|
        invariant Tracker(cumulative, peak, maxDrawdown) == Track(trades[..i])
      {
        Seqs.TakeNext(trades, i);
        cumulative := cumulative + trades[i].pnl;
        peak := Max(peak, cumulative);
        var drawdown := peak - cumulative;
        maxDrawdown := Max(maxDrawdown, drawdown);
      }
      Seqs.TakeAll(trades);
      WinRateBounds(trades);
      DrawdownBounds(trades);
      return Statistics(total, Some(winning), winRate, totalPnl, avgPnl, maxDrawdown);
    }
  }
}
