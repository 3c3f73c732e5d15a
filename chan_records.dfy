/** Plain records standing for the Chan engine's objects as the interval-nesting
    (区间套) strategies see them, the first-match search over sub-level
    buy/sell points, and the per-level collection of signals. */
module ChanRecords {
  import opened Wrappers

  /** A K-line unit: its index, close and time, and the index of the parent
      level's unit it belongs to (absent when it has no `sup_kl`). */
  datatype KLineUnit = KLineUnit(idx: int, close: real, time: string, supKl: Option<int>)

  /** A buy/sell point: its unit, its direction and its type string. */
  datatype BSPoint = BSPoint(klu: KLineUnit, isBuy: bool, typeStr: string)

  /** One level's data: the combined K-lines (each a list of units), the
      buy/sell points in order, and the number of bis. */
  datatype LevelData = LevelData(klines: seq<seq<KLineUnit>>, bsPoints: seq<BSPoint>, biCount: nat)

  /** The engine's levels, coarsest first, with each level's data. */
  datatype Chan = Chan(levels: seq<string>, data: seq<LevelData>)

  predicate WellFormed(chan: Chan) {
    |chan.data| == |chan.levels|
  }

  /** An interval-nesting signal. */
  datatype Signal = Signal(
    parentBsp: BSPoint,
    subBsp: BSPoint,
    parentKlu: KLineUnit,
    isBuy: bool,
    bspType: string,
    price: real,
    time: string)

  /** A signal tagged with the level it was found on. */
  datatype LevelSignal = LevelSignal(signal: Signal, level: string)

  const Prefix: string := "区间套"

  /** The last unit of the last combined K-line, when there is one. */
  function LastUnit(data: LevelData): (r: Option<KLineUnit>)
    ensures r.Some? <==> data.klines != [] && data.klines[|data.klines| - 1] != []
  {
    if data.klines == [] then None
    else
      var last := data.klines[|data.klines| - 1];
      if last == [] then None else Some(last[|last| - 1])
  }

  /** A first-type point: its type string contains "1". */
  predicate IsFirstType(p: BSPoint) {
    '1' in p.typeStr
  }

  /** A sub-level point answers the parent unit `idx` when it belongs to that
      unit and is of the first type; when `direction` is given it must also
      point the same way. */
  predicate Accepts(p: BSPoint, idx: int, direction: Option<bool>) {
    && p.klu.supKl == Some(idx)
    && (direction.None? || p.isBuy == direction.value)
    && IsFirstType(p)
  }

  /** The position of the first accepted point, in list order. */
  function FirstMatch(points: seq<BSPoint>, idx: int, direction: Option<bool>): (r: Option<nat>)
    ensures r.Some? ==> r.value < |points| && Accepts(points[r.value], idx, direction)
    ensures r.Some? ==> forall j :: 0 <= j < r.value ==> !Accepts(points[j], idx, direction)
    ensures r.None? <==> forall j :: 0 <= j < |points| ==> !Accepts(points[j], idx, direction)
    decreases |points|
  {
    if points == [] then None
    else if Accepts(points[0], idx, direction) then Some(0)
    else
      match FirstMatch(points[1..], idx, direction)
      case None => None
      case Some(k) => Some(k + 1)
  }

  /** Asking also for a direction can only move the match later, or lose it. */
  lemma FirstMatchWithDirection(points: seq<BSPoint>, idx: int, isBuy: bool)
    ensures FirstMatch(points, idx, Some(isBuy)).Some? ==>
      FirstMatch(points, idx, None).Some? &&
      FirstMatch(points, idx, None).value <= FirstMatch(points, idx, Some(isBuy)).value
    ensures (forall j :: 0 <= j < |points| ==> points[j].isBuy == isBuy) ==>
      FirstMatch(points, idx, Some(isBuy)) == FirstMatch(points, idx, None)
  {
    var strict := FirstMatch(points, idx, Some(isBuy));
    var loose := FirstMatch(points, idx, None);
    if strict.Some? {
      assert Accepts(points[strict.value], idx, None);
    }
    if forall j :: 0 <= j < |points| ==> points[j].isBuy == isBuy {
      if loose.Some? {
        assert Accepts(points[loose.value], idx, Some(isBuy));
      }
    }
  }

  /** The signal built from a parent point, the sub-level point that answered
      it, and the parent's last unit: direction from the parent, price and time
      from the sub-level unit. */
  function SignalOf(parent: BSPoint, sub: BSPoint, parentKlu: KLineUnit): Signal {
    Signal(parent, sub, parentKlu, parent.isBuy, Prefix + sub.typeStr, sub.klu.close, sub.klu.time)
  }

  /** The signals from the first `k` levels' attempts, each tagged with its
      level, in level order. */
  function Collect(levels: seq<string>, tried: seq<Option<Signal>>, k: nat): seq<LevelSignal>
    requires k <= |tried| <= |levels|
    decreases k
  {
    if k == 0 then []
    else
      var before := Collect(levels, tried, k - 1);
      match tried[k - 1]
      case Some(s) => before + [LevelSignal(s, levels[k - 1])]
      case None => before
  }

  /** One more level adds its signal, if it found one. */
  lemma CollectStep(levels: seq<string>, tried: seq<Option<Signal>>, k: nat)
    requires k < |tried| <= |levels|
    ensures Collect(levels, tried, k + 1) ==
      Collect(levels, tried, k) + if tried[k].Some? then [LevelSignal(tried[k].value, levels[k])] else []
  {
  }

  /** The levels among the first `k` whose attempt found a signal, ascending. */
  function Hits(tried: seq<Option<Signal>>, k: nat): (h: seq<nat>)
    requires k <= |tried|
    ensures |h| <= k
    ensures forall i :: 0 <= i < |h| ==> h[i] < k && tried[h[i]].Some?
    ensures forall i, j :: 0 <= i < j < |h| ==> h[i] < h[j]
    ensures forall lv :: 0 <= lv < k && tried[lv].Some? ==> lv in h
    decreases k
  {
    if k == 0 then []
    else
      var before := Hits(tried, k - 1);
      if tried[k - 1].Some? then before + [k - 1] else before
  }

  /** Collecting keeps one signal per successful level, in level order, each
      tagged with its own level; so there are at most `k` of them. */
  lemma {:induction false} CollectMeaning(levels: seq<string>, tried: seq<Option<Signal>>, k: nat)
    requires k <= |tried| <= |levels|
    ensures |Collect(levels, tried, k)| == |Hits(tried, k)|
    ensures forall i :: 0 <= i < |Hits(tried, k)| ==>
      Collect(levels, tried, k)[i] == LevelSignal(tried[Hits(tried, k)[i]].value, levels[Hits(tried, k)[i]])
    decreases k
  {
    if k > 0 {
      CollectMeaning(levels, tried, k - 1);
    }
  }
}
