/** The interval-nesting strategy, test-driven variant: a parent-level
    buy/sell point on the parent's newest unit is confirmed by the first
    sub-level first-type point of the same direction inside that unit. */
module QujiantaoTdd {
  import opened Wrappers
  import opened ChanRecords

  /** The interval-nesting point of a parent level and its sub level. */
  function CalQjtBsp(data: LevelData, sub: LevelData): (r: Option<Signal>)
    ensures r.Some? ==> data.bsPoints != [] && r.value.parentBsp == data.bsPoints[|data.bsPoints| - 1]
    ensures r.Some? ==> LastUnit(data) == Some(r.value.parentKlu) && r.value.parentBsp.klu.idx == r.value.parentKlu.idx
    ensures r.Some? ==> r.value.subBsp in sub.bsPoints && Accepts(r.value.subBsp, r.value.parentKlu.idx, Some(r.value.isBuy))
    ensures r.Some? ==> r.value.isBuy == r.value.parentBsp.isBuy == r.value.subBsp.isBuy
    ensures r.Some? ==> r.value.bspType == Prefix + r.value.subBsp.typeStr
    ensures r.Some? ==> r.value.price == r.value.subBsp.klu.close && r.value.time == r.value.subBsp.klu.time
  {
    if data.bsPoints == [] then None
    else
      var lastBsp := data.bsPoints[|data.bsPoints| - 1];
      match LastUnit(data)
      case None => None
      case Some(lastKlu) =>
        if lastBsp.klu.idx != lastKlu.idx then None
        else
          match FirstMatch(sub.bsPoints, lastKlu.idx, Some(lastBsp.isBuy))
          case None => None
          case Some(k) => Some(SignalOf(lastBsp, sub.bsPoints[k], lastKlu))
  }

  /** A signal exists exactly when the parent has points and a newest unit,
      its last point sits on that unit, and some sub-level point answers it in
      the same direction; the one chosen is the first such point. */
  lemma CalQjtBspMeaning(data: LevelData, sub: LevelData)
    ensures CalQjtBsp(data, sub).Some? <==>
      && data.bsPoints != []
      && LastUnit(data).Some?
      && data.bsPoints[|data.bsPoints| - 1].klu.idx == LastUnit(data).value.idx
      && exists j :: 0 <= j < |sub.bsPoints| &&
           Accepts(sub.bsPoints[j], LastUnit(data).value.idx, Some(data.bsPoints[|data.bsPoints| - 1].isBuy))
    ensures CalQjtBsp(data, sub).Some? ==>
      var idx := LastUnit(data).value.idx;
      var dir := Some(data.bsPoints[|data.bsPoints| - 1].isBuy);
      exists k :: 0 <= k < |sub.bsPoints| && CalQjtBsp(data, sub).value.subBsp == sub.bsPoints[k] &&
        forall j :: 0 <= j < k ==> !Accepts(sub.bsPoints[j], idx, dir)
  {
    if data.bsPoints != [] && LastUnit(data).Some? {
      var lastBsp := data.bsPoints[|data.bsPoints| - 1];
      var m := FirstMatch(sub.bsPoints, LastUnit(data).value.idx, Some(lastBsp.isBuy));
      if m.Some? && lastBsp.klu.idx == LastUnit(data).value.idx {
        assert CalQjtBsp(data, sub).value.subBsp == sub.bsPoints[m.value];
      }
    }
  }

  /** A level is tried only when it is not the lowest and has at least one bi. */
  function TryOpen(chan: Chan, lv: nat): (r: Option<Signal>)
    requires WellFormed(chan) && lv < |chan.levels|
    ensures r.Some? ==> lv < |chan.levels| - 1 && chan.data[lv].biCount > 0
    ensures lv < |chan.levels| - 1 && chan.data[lv].biCount > 0 ==> r == CalQjtBsp(chan.data[lv], chan.data[lv + 1])
  {
    if lv != |chan.levels| - 1 && chan.data[lv].biCount > 0 then
      CalQjtBsp(chan.data[lv], chan.data[lv + 1])
    else None
  }

  /** Every level's attempt, in order. */
  function Tried(chan: Chan): (r: seq<Option<Signal>>)
    requires WellFormed(chan)
    ensures |r| == |chan.levels|
  {
    seq(|chan.levels|, lv requires 0 <= lv < |chan.levels| => TryOpen(chan, lv))
  }

  /** All levels but the lowest, in order, keeping each signal found with its
      level attached. */
  method Analyze(chan: Chan) returns (signals: seq<LevelSignal>)
    requires WellFormed(chan)
    ensures var n := if |chan.levels| == 0 then 0 else |chan.levels| - 1;
      signals == Collect(chan.levels, Tried(chan), n) && |signals| <= n
  {
    var n := if |chan.levels| == 0 then 0 else |chan.levels| - 1;
    ghost var tried := Tried(chan);
    signals := [];
    for lv := 0 to n
      invariant signals == Collect(chan.levels, tried, lv)
    {
      var signal := TryOpen(chan, lv);
      assert tried[lv] == signal;
      CollectStep(chan.levels, tried, lv);
      if signal.Some? {
        signals := signals + [LevelSignal(signal.value, chan.levels[lv])];
      }
    }
    CollectMeaning(chan.levels, tried, n);
  }

  /** A parent buy point of type "1" on unit 10, the newest of eleven, with a
      sub-level buy point of type "1" inside unit 10, gives a buy signal at the
      sub-level close. */
  lemma MockExample()
    ensures var parentKlu := KLineUnit(10, 100.0, "2025-01-10", None);
      var parent := LevelData(seq(11, _ => [parentKlu]), [BSPoint(parentKlu, true, "1")], 0);
      var subKlu := KLineUnit(50, 98.0, "2025-01-10 10:30", Some(10));
      var sub := LevelData([], [BSPoint(subKlu, true, "1")], 0);
      CalQjtBsp(parent, sub) == Some(Signal(BSPoint(parentKlu, true, "1"), BSPoint(subKlu, true, "1"),
        parentKlu, true, Prefix + "1", 98.0, "2025-01-10 10:30"))
  {
    var parentKlu := KLineUnit(10, 100.0, "2025-01-10", None);
    var parent := LevelData(seq(11, _ => [parentKlu]), [BSPoint(parentKlu, true, "1")], 0);
    assert parent.klines[10] == [parentKlu];
    assert LastUnit(parent) == Some(parentKlu);
    assert IsFirstType(BSPoint(KLineUnit(50, 98.0, "2025-01-10 10:30", Some(10)), true, "1")) by {
      assert "1"[0] == '1';
    }
  }
}
