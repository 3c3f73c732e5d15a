/** The interval-nesting strategy, demonstration variant: like the test-driven
    one, but a sub-level point of either direction may confirm the parent's
    point. */
module QujiantaoDemo {
  import opened Wrappers
  import opened ChanRecords
  import QujiantaoTdd

  /** The interval-nesting point of a parent level and its sub level, with no
      direction check on the sub-level point. */
  function CalQjtBsp(data: LevelData, sub: LevelData): (r: Option<Signal>)
    ensures r.Some? ==> data.bsPoints != [] && r.value.parentBsp == data.bsPoints[|data.bsPoints| - 1]
    ensures r.Some? ==> LastUnit(data) == Some(r.value.parentKlu) && r.value.parentBsp.klu.idx == r.value.parentKlu.idx
    ensures r.Some? ==> r.value.subBsp in sub.bsPoints && Accepts(r.value.subBsp, r.value.parentKlu.idx, None)
    ensures r.Some? ==> r.value.isBuy == r.value.parentBsp.isBuy
    ensures r.Some? ==> r.value.bspType == Prefix + r.value.subBsp.typeStr
    ensures r.Some? ==> r.value.price == r.value.subBsp.klu.close && r.value.time == r.value.subBsp.klu.time
  {
    match LastUnit(data)
    case None => None
    case Some(lastKlu) =>
      if data.bsPoints == [] then None
      else
        var lastBsp := data.bsPoints[|data.bsPoints| - 1];
        if lastBsp.klu.idx != lastKlu.idx then None
        else if sub.bsPoints == [] then None
        else
          match FirstMatch(sub.bsPoints, lastKlu.idx, None)
          case None => None
          case Some(k) => Some(SignalOf(lastBsp, sub.bsPoints[k], lastKlu))
  }

  /** A signal exists exactly when the parent has a newest unit and points, its
      last point sits on that unit, and some sub-level first-type point lies in
      that unit, whichever its direction; the one chosen is the first such
      point. */
  lemma CalQjtBspMeaning(data: LevelData, sub: LevelData)
    ensures CalQjtBsp(data, sub).Some? <==>
      && data.bsPoints != []
      && LastUnit(data).Some?
      && data.bsPoints[|data.bsPoints| - 1].klu.idx == LastUnit(data).value.idx
      && exists j :: 0 <= j < |sub.bsPoints| && Accepts(sub.bsPoints[j], LastUnit(data).value.idx, None)
    ensures CalQjtBsp(data, sub).Some? ==>
      var idx := LastUnit(data).value.idx;
      exists k :: 0 <= k < |sub.bsPoints| && CalQjtBsp(data, sub).value.subBsp == sub.bsPoints[k] &&
        forall j :: 0 <= j < k ==> !Accepts(sub.bsPoints[j], idx, None)
  {
    if LastUnit(data).Some? && data.bsPoints != [] {
      var m := FirstMatch(sub.bsPoints, LastUnit(data).value.idx, None);
      if m.Some? && data.bsPoints[|data.bsPoints| - 1].klu.idx == LastUnit(data).value.idx {
        assert CalQjtBsp(data, sub).value.subBsp == sub.bsPoints[m.value];
      }
    }
  }

  /** Every sub-level point points the way of the parent's last point. */
  predicate SameDirection(data: LevelData, sub: LevelData) {
    data.bsPoints != [] &&
    forall j :: 0 <= j < |sub.bsPoints| ==> sub.bsPoints[j].isBuy == data.bsPoints[|data.bsPoints| - 1].isBuy
  }

  /** Whenever the test-driven variant signals, so does this one, on the same
      parent point; when every sub-level point points the parent's way the two
      agree exactly. */
  lemma {:induction false} ExtendsTdd(data: LevelData, sub: LevelData)
    ensures QujiantaoTdd.CalQjtBsp(data, sub).Some? ==> CalQjtBsp(data, sub).Some?
    ensures QujiantaoTdd.CalQjtBsp(data, sub).Some? ==>
      CalQjtBsp(data, sub).value.parentBsp == QujiantaoTdd.CalQjtBsp(data, sub).value.parentBsp
    ensures SameDirection(data, sub) ==> CalQjtBsp(data, sub) == QujiantaoTdd.CalQjtBsp(data, sub)
  {
    if data.bsPoints != [] && LastUnit(data).Some? {
      var lastBsp := data.bsPoints[|data.bsPoints| - 1];
      FirstMatchWithDirection(sub.bsPoints, LastUnit(data).value.idx, lastBsp.isBuy);
    }
  }

  /** A level is tried only when it is not the lowest and has at least one bi. */
  function TryOpen(chan: Chan, lv: nat): (r: Option<Signal>)
    requires WellFormed(chan) && lv < |chan.levels|
    ensures r.Some? ==> lv < |chan.levels| - 1 && chan.data[lv].biCount > 0
    ensures lv < |chan.levels| - 1 && chan.data[lv].biCount > 0 ==> r == CalQjtBsp(chan.data[lv], chan.data[lv + 1])
  {
    if lv != |chan.levels| - 1 && chan.data[lv].biCount > 0 then
      CalQjtBsp(chan.data[lv], chan.data[lv + 1])
    else None
  }

  /** Every level's attempt, in order. */
  function Tried(chan: Chan): (r: seq<Option<Signal>>)
    requires WellFormed(chan)
    ensures |r| == |chan.levels|
  {
    seq(|chan.levels|, lv requires 0 <= lv < |chan.levels| => TryOpen(chan, lv))
  }

  /** All levels but the lowest, in order, keeping each signal found with its
      level attached. */
  method Analyze(chan: Chan) returns (signals: seq<LevelSignal>)
    requires WellFormed(chan)
    ensures var n := if |chan.levels| == 0 then 0 else |chan.levels| - 1;
      signals == Collect(chan.levels, Tried(chan), n) && |signals| <= n
  {
    var n := if |chan.levels| == 0 then 0 else |chan.levels| - 1;
    ghost var tried := Tried(chan);
    signals := [];
    for lv := 0 to n
      invariant signals == Collect(chan.levels, tried, lv)
    {
      var signal := TryOpen(chan, lv);
      assert tried[lv] == signal;
      CollectStep(chan.levels, tried, lv);
      if signal.Some? {
        signals := signals + [LevelSignal(signal.value, chan.levels[lv])];
      }
    }
    CollectMeaning(chan.levels, tried, n);
  }

  /** A parent buy point answered only by a sub-level sell point of the first
      type: this variant signals a buy, the test-driven one does not. */
  lemma OppositeDirectionExample()
    ensures var parentKlu := KLineUnit(10, 100.0, "2025-01-10", None);
      var parent := LevelData([[parentKlu]], [BSPoint(parentKlu, true, "1")], 1);
      var subKlu := KLineUnit(50, 98.0, "2025-01-10 10:30", Some(10));
      var sub := LevelData([], [BSPoint(subKlu, false, "1")], 0);
      && CalQjtBsp(parent, sub).Some?
      && CalQjtBsp(parent, sub).value.isBuy
      && !CalQjtBsp(parent, sub).value.subBsp.isBuy
      && QujiantaoTdd.CalQjtBsp(parent, sub).None?
  {
    var parentKlu := KLineUnit(10, 100.0, "2025-01-10", None);
    var parent := LevelData([[parentKlu]], [BSPoint(parentKlu, true, "1")], 1);
    var subKlu := KLineUnit(50, 98.0, "2025-01-10 10:30", Some(10));
    assert IsFirstType(BSPoint(subKlu, false, "1")) by {
      assert "1"[0] == '1';
    }
    assert LastUnit(parent) == Some(parentKlu);
  }
}
