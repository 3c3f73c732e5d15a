/** The bar resampler: aggregation of bars into left-closed, left-labelled time
    buckets, and the tolerance comparison of two bar tables.

    Timestamps are whole minutes counted from the epoch midnight, so a day
    starts at every multiple of 1440. Prices and volumes are exact reals. */
module Resampler {
  import opened Wrappers
  import Seqs

  // ---------------------------------------------------------------------------
  // Tables

  datatype Column = Code | Time | Date | Open | High | Low | Close | Volume | Turnover

  /** The numeric and text cells of one bar. A cell whose column the table
      lacks carries no meaning. */
  datatype Bar = Bar(open: real, high: real, low: real, close: real, volume: real, turnover: real, code: string)

  /** One table row: its `time` and `date` cells (minutes) and its bar. */
  datatype Row = Row(time: int, date: int, bar: Bar)

  datatype Table = Table(columns: set<Column>, rows: seq<Row>)

  /** A bar under the timestamp that indexes it. */
  datatype Stamped = Stamped(at: int, bar: Bar)

  datatype Error =
    | NoTimeColumn
    | MissingColumns(missing: set<Column>)

  const MinutesPerDay: int := 1440

  /** The column that indexes a table: `time` wins over `date`. */
  function KeyColumn(columns: set<Column>): Option<Column> {
    if Time in columns then Some(Time)
    else if Date in columns then Some(Date)
    else None
  }

  function KeyOf(row: Row, key: Column): int {
    if key == Time then row.time else row.date
  }

  /** The rows indexed by the key column, in table order. */
  function Keyed(rows: seq<Row>, key: Column): (xs: seq<Stamped>)
    ensures |xs| == |rows|
    ensures forall i :: 0 <= i < |rows| ==> xs[i] == Stamped(KeyOf(rows[i], key), rows[i].bar)
  {
    seq(|rows|, i requires 0 <= i < |rows| => Stamped(KeyOf(rows[i], key), rows[i].bar))
  }

  predicate Nondecreasing(xs: seq<Stamped>) {
    forall i, j :: 0 <= i <= j < |xs| ==> xs[i].at <= xs[j].at
  }

  predicate StrictlyIncreasing(xs: seq<Stamped>) {
    forall i, j :: 0 <= i < j < |xs| ==> xs[i].at < xs[j].at
  }

  // ---------------------------------------------------------------------------
  // Floor division facts used by the bucket arithmetic

  lemma DivBounds(a: int, w: int)
    requires w > 0
    ensures (a / w) * w <= a < (a / w) * w + w
  {
  }

  lemma MulLeq(a: int, b: int, w: int)
    requires w > 0 && a <= b
    ensures a * w <= b * w
  {
  }

  /** The quotient is the one multiple-interval that contains `a`. */
  lemma DivUnique(a: int, w: int, q: int)
    requires w > 0 && q * w <= a < q * w + w
    ensures a / w == q
  {
    DivBounds(a, w);
    var r := a / w;
    if r < q {
      MulLeq(r + 1, q, w);
    } else if r > q {
      MulLeq(q + 1, r, w);
    }
  }

  lemma DivMonotone(a: int, b: int, w: int)
    requires w > 0 && a <= b
    ensures a / w <= b / w
  {
    DivBounds(a, w);
    DivBounds(b, w);
    if a / w > b / w {
      MulLeq(b / w + 1, a / w, w);
    }
  }

  /** Flooring to a width, then to a multiple of it, is flooring to the multiple. */
  lemma DivDiv(a: int, w: int, k: int)
    requires w > 0 && k > 0
    ensures (a / w) / k == a / (w * k)
  {
    var m := a / w;
    var q := m / k;
    DivBounds(a, w);
    DivBounds(m, k);
    MulLeq(q * k, m, w);
    MulLeq(m + 1, q * k + k, w);
    assert q * (w * k) == (q * k) * w;
    assert (q * k + k) * w == q * (w * k) + w * k;
    DivUnique(a, w * k, q);
  }

  lemma MultipleMod(q: int, w: int)
    requires w > 0
    ensures (q * w) % w == 0
  {
    DivShift(0, q, w);
  }

  lemma DivShift(a: int, b: int, w: int)
    requires w > 0
    ensures (a + b * w) / w == a / w + b
  {
    DivBounds(a, w);
    assert (a / w + b) * w == (a / w) * w + b * w;
    DivUnique(a + b * w, w, a / w + b);
  }

  // ---------------------------------------------------------------------------
  // Bucket labels

  /** The midnight that starts the day of minute `t`. */
  function Midnight(t: int): int {
    (t / MinutesPerDay) * MinutesPerDay
  }

  /** How many whole buckets of `width` minutes lie between `origin` and `t`. */
  function BucketIndex(t: int, origin: int, width: int): int
    requires width > 0
  {
    (t - origin) / width
  }

  /** The left edge of the bucket `[label, label + width)` holding `t`, with
      buckets laid out from `origin`. */
  function Label(t: int, origin: int, width: int): int
    requires width > 0
  {
    origin + BucketIndex(t, origin, width) * width
  }

  /** Buckets are left-closed and left-labelled: a bar at `t` lies in
      `[label, label + width)`, and the label is a whole number of widths past
      the origin. */
  lemma LabelBounds(t: int, origin: int, width: int)
    requires width > 0
    ensures Label(t, origin, width) <= t < Label(t, origin, width) + width
    ensures (Label(t, origin, width) - origin) % width == 0
  {
    var q := BucketIndex(t, origin, width);
    DivBounds(t - origin, width);
    MultipleMod(q, width);
    assert Label(t, origin, width) - origin == q * width;
  }

  lemma LabelMonotone(t1: int, t2: int, origin: int, width: int)
    requires width > 0 && t1 <= t2
    ensures BucketIndex(t1, origin, width) <= BucketIndex(t2, origin, width)
    ensures Label(t1, origin, width) <= Label(t2, origin, width)
  {
    DivMonotone(t1 - origin, t2 - origin, width);
    MulLeq(BucketIndex(t1, origin, width), BucketIndex(t2, origin, width), width);
  }

  /** Two timestamps share a label exactly when they share a bucket index. */
  lemma SameLabel(t1: int, t2: int, origin: int, width: int)
    requires width > 0
    ensures Label(t1, origin, width) == Label(t2, origin, width) <==>
      BucketIndex(t1, origin, width) == BucketIndex(t2, origin, width)
  {
    var q1 := BucketIndex(t1, origin, width);
    var q2 := BucketIndex(t2, origin, width);
    if q1 < q2 {
      MulLeq(q1 + 1, q2, width);
    } else if q2 < q1 {
      MulLeq(q2 + 1, q1, width);
    }
  }

  /** With the origin on a midnight and a width that divides a day, the label
      is the timestamp floored to a multiple of the width counted from the
      epoch: the 5-minute bar holding 09:32 is labelled 09:30 on any day. */
  lemma {:induction false} LabelIsWallClockFloor(t: int, day: int, width: int)
    requires width > 0 && MinutesPerDay % width == 0
    ensures Label(t, Midnight(day), width) == (t / width) * width
  {
    var c := (day / MinutesPerDay) * (MinutesPerDay / width);
    assert MinutesPerDay == (MinutesPerDay / width) * width;
    assert Midnight(day) == c * width;
    DivShift(t, -c, width);
    assert t - Midnight(day) == t + (-c) * width;
  }

  /** The first label of a day-origin layout stays on that day, so the output
      of a resampling starts its own layout at the same midnight. */
  lemma {:induction false} LabelKeepsMidnight(t: int, width: int)
    requires width > 0
    ensures Midnight(Label(t, Midnight(t), width)) == Midnight(t)
  {
    var m := Midnight(t);
    var l := Label(t, m, width);
    DivBounds(t, MinutesPerDay);
    LabelBounds(t, m, width);
    DivBounds(t - m, width);
    MulLeq(0, BucketIndex(t, m, width), width);
    DivUnique(l, MinutesPerDay, t / MinutesPerDay);
  }

  /** Labelling at a width, then at a multiple of that width, is labelling at
      the multiple. */
  lemma {:induction false} LabelOfLabel(t: int, origin: int, width: int, k: int)
    requires width > 0 && k > 0
    ensures Label(Label(t, origin, width), origin, width * k) == Label(t, origin, width * k)
  {
    var q := BucketIndex(t, origin, width);
    assert Label(t, origin, width) - origin == 0 + q * width;
    DivShift(0, q, width);
    DivDiv(t - origin, width, k);
    DivUnique(q * width, width * k, q / k) by {
      DivBounds(q, k);
      MulLeq((q / k) * k, q, width);
      MulLeq(q + 1, (q / k) * k + k, width);
      assert (q / k) * (width * k) == ((q / k) * k) * width;
      assert ((q / k) * k + k) * width == (q / k) * (width * k) + width * k;
    }
  }

  lemma LabelOfCoarserLabel(t: int, origin: int, width: int, coarse: int)
    requires width > 0 && coarse > 0 && coarse % width == 0
    ensures Label(Label(t, origin, width), origin, coarse) == Label(t, origin, coarse)
  {
    assert coarse == width * (coarse / width);
    LabelOfLabel(t, origin, width, coarse / width);
  }

  /** One minute later is the same bucket or the next one. */
  lemma NextMinuteBucket(t: int, origin: int, width: int)
    requires width > 0
    ensures BucketIndex(t + 1, origin, width) == BucketIndex(t, origin, width) ||
      BucketIndex(t + 1, origin, width) == BucketIndex(t, origin, width) + 1
  {
    var q := BucketIndex(t, origin, width);
    DivBounds(t - origin, width);
    if (t + 1 - origin) < q * width + width {
      DivUnique(t + 1 - origin, width, q);
    } else {
      assert (q + 1) * width == q * width + width;
      DivUnique(t + 1 - origin, width, q + 1);
    }
  }

  // ---------------------------------------------------------------------------
  // Aggregation of one bucket

  function Max(a: real, b: real): real { if a < b then b else a }

  function Min(a: real, b: real): real { if a < b then a else b }

  /** A bucket's bar followed by one more bar: open and code from the first,
      high the larger, low the smaller, close from the later, volume and
      turnover added. */
  function Combine(a: Bar, b: Bar): Bar {
    Bar(a.open, Max(a.high, b.high), Min(a.low, b.low), b.close, a.volume + b.volume, a.turnover + b.turnover, a.code)
  }

  /** The bar of a non-empty bucket, folded in time order. */
  function Aggregate(bars: seq<Bar>): Bar
    requires bars != []
    decreases |bars|
  {
    if |bars| == 1 then bars[0] else Combine(Aggregate(bars[..|bars| - 1]), bars[|bars| - 1])
  }

  function SumVolume(bars: seq<Bar>): real
    decreases |bars|
  {
    if bars == [] then 0.0 else SumVolume(bars[..|bars| - 1]) + bars[|bars| - 1].volume
  }

  function SumTurnover(bars: seq<Bar>): real
    decreases |bars|
  {
    if bars == [] then 0.0 else SumTurnover(bars[..|bars| - 1]) + bars[|bars| - 1].turnover
  }

  /** The aggregated bar takes open and code from the first bar, close from the
      last, the highest high and the lowest low of the bucket, and the sums of
      volume and turnover. */
  lemma {:induction false} AggregateMeaning(bars: seq<Bar>)
    requires bars != []
    ensures Aggregate(bars).open == bars[0].open
    ensures Aggregate(bars).code == bars[0].code
    ensures Aggregate(bars).close == bars[|bars| - 1].close
    ensures forall i :: 0 <= i < |bars| ==> bars[i].high <= Aggregate(bars).high
    ensures exists i :: 0 <= i < |bars| && bars[i].high == Aggregate(bars).high
    ensures forall i :: 0 <= i < |bars| ==> Aggregate(bars).low <= bars[i].low
    ensures exists i :: 0 <= i < |bars| && bars[i].low == Aggregate(bars).low
    ensures Aggregate(bars).volume == SumVolume(bars)
    ensures Aggregate(bars).turnover == SumTurnover(bars)
    decreases |bars|
  {
    if |bars| == 1 {
      assert bars[..0] == [];
      assert bars[0].high == Aggregate(bars).high;
      assert bars[0].low == Aggregate(bars).low;
    } else {
      var init := bars[..|bars| - 1];
      var last := bars[|bars| - 1];
      AggregateMeaning(init);
      assert forall i :: 0 <= i < |init| ==> init[i] == bars[i];
      var hi :| 0 <= hi < |init| && init[hi].high == Aggregate(init).high;
      var lo :| 0 <= lo < |init| && init[lo].low == Aggregate(init).low;
      if Aggregate(init).high < last.high {
        assert bars[|bars| - 1].high == Aggregate(bars).high;
      } else {
        assert bars[hi].high == Aggregate(bars).high;
      }
      if Aggregate(init).low < last.low {
        assert bars[lo].low == Aggregate(bars).low;
      } else {
        assert bars[|bars| - 1].low == Aggregate(bars).low;
      }
    }
  }

  lemma CombineAssociative(a: Bar, b: Bar, c: Bar)
    ensures Combine(Combine(a, b), c) == Combine(a, Combine(b, c))
  {
  }

  // ---------------------------------------------------------------------------
  // Grouping bars into buckets

  /** Folding one more bar into the output: it joins the last output bar when
      it has the same label, and otherwise opens a new bucket. */
  function Step(g: seq<Stamped>, x: Stamped, origin: int, width: int): (r: seq<Stamped>)
    requires width > 0
    ensures |r| == |g| || |r| == |g| + 1
    ensures r != [] && r[|r| - 1].at == Label(x.at, origin, width)
    ensures forall k :: 0 <= k < |g| - 1 ==> r[k] == g[k]
    ensures g != [] ==> r[0].at == g[0].at
  {
    var l := Label(x.at, origin, width);
    if g != [] && g[|g| - 1].at == l then g[..|g| - 1] + [Stamped(l, Combine(g[|g| - 1].bar, x.bar))]
    else g + [Stamped(l, x.bar)]
  }

  /** The non-empty buckets of a time-ordered run of bars, one aggregated bar
      under each label. */
  function Group(xs: seq<Stamped>, origin: int, width: int): (g: seq<Stamped>)
    requires width > 0
    ensures |g| <= |xs|
    ensures xs != [] ==> g != [] && g[|g| - 1].at == Label(xs[|xs| - 1].at, origin, width)
    ensures xs != [] ==> g[0].at == Label(xs[0].at, origin, width)
    decreases |xs|
  {
    if xs == [] then [] else Step(Group(xs[..|xs| - 1], origin, width), xs[|xs| - 1], origin, width)
  }

  /** Reference definition: the bars whose label is `l`, in input order. */
  function Bucket(xs: seq<Stamped>, l: int, origin: int, width: int): seq<Bar>
    requires width > 0
    decreases |xs|
  {
    if xs == [] then []
    else
      Bucket(xs[..|xs| - 1], l, origin, width) +
      if Label(xs[|xs| - 1].at, origin, width) == l then [xs[|xs| - 1].bar] else []
  }

  function Labels(g: seq<Stamped>): set<int> {
    set x | x in g :: x.at
  }

  /** The labels of the non-empty buckets. */
  function InputLabels(xs: seq<Stamped>, origin: int, width: int): set<int>
    requires width > 0
  {
    set x | x in xs :: Label(x.at, origin, width)
  }

  lemma {:induction false} BucketMissing(xs: seq<Stamped>, l: int, origin: int, width: int)
    requires width > 0 && l !in InputLabels(xs, origin, width)
    ensures Bucket(xs, l, origin, width) == []
    decreases |xs|
  {
    if xs != [] {
      assert xs[|xs| - 1] in xs;
      assert InputLabels(xs[..|xs| - 1], origin, width) <= InputLabels(xs, origin, width) by {
        forall x | x in xs[..|xs| - 1] ensures x in xs {
        }
      }
      BucketMissing(xs[..|xs| - 1], l, origin, width);
    }
  }

  lemma InputLabelsAppend(ys: seq<Stamped>, x: Stamped, origin: int, width: int)
    requires width > 0
    ensures InputLabels(ys + [x], origin, width) == InputLabels(ys, origin, width) + {Label(x.at, origin, width)}
  {
    assert forall z :: z in ys + [x] <==> z in ys || z == x;
  }

  lemma LabelsAppend(g: seq<Stamped>, z: Stamped)
    ensures Labels(g + [z]) == Labels(g) + {z.at}
  {
    assert forall y :: y in g + [z] <==> y in g || y == z;
  }

  lemma BucketAppend(ys: seq<Stamped>, x: Stamped, m: int, origin: int, width: int)
    requires width > 0
    ensures Bucket(ys + [x], m, origin, width) ==
      Bucket(ys, m, origin, width) + if Label(x.at, origin, width) == m then [x.bar] else []
  {
    Seqs.InitOfSnoc(ys, x);
  }

  lemma NondecreasingPrefix(xs: seq<Stamped>)
    requires xs != [] && Nondecreasing(xs)
    ensures Nondecreasing(xs[..|xs| - 1])
  {
  }

  /** Folding a bar whose label is no earlier than the last output label keeps
      the output strictly increasing and adds the bar's label. */
  lemma StepLabels(h: seq<Stamped>, x: Stamped, origin: int, width: int)
    requires width > 0 && StrictlyIncreasing(h)
    requires h != [] ==> h[|h| - 1].at <= Label(x.at, origin, width)
    ensures StrictlyIncreasing(Step(h, x, origin, width))
    ensures Labels(Step(h, x, origin, width)) == Labels(h) + {Label(x.at, origin, width)}
  {
    var l := Label(x.at, origin, width);
    if h != [] && h[|h| - 1].at == l {
      var init := h[..|h| - 1];
      var c := Stamped(l, Combine(h[|h| - 1].bar, x.bar));
      Seqs.InitLast(h);
      LabelsAppend(init, h[|h| - 1]);
      LabelsAppend(init, c);
    } else {
      LabelsAppend(h, Stamped(l, x.bar));
    }
  }

  /** The output is labelled in strictly increasing order, and its labels are
      exactly those of the non-empty buckets: empty buckets are dropped and no
      bucket appears twice. */
  lemma {:induction false} GroupLabels(xs: seq<Stamped>, origin: int, width: int)
    requires width > 0 && Nondecreasing(xs)
    ensures StrictlyIncreasing(Group(xs, origin, width))
    ensures Labels(Group(xs, origin, width)) == InputLabels(xs, origin, width)
    decreases |xs|
  {
    if xs != [] {
      var ys := xs[..|xs| - 1];
      var x := xs[|xs| - 1];
      NondecreasingPrefix(xs);
      GroupLabels(ys, origin, width);
      InputLabelsAppend(ys, x, origin, width);
      if ys != [] {
        LabelMonotone(ys[|ys| - 1].at, x.at, origin, width);
      }
      StepLabels(Group(ys, origin, width), x, origin, width);
      Seqs.InitLast(xs);
    }
  }

  /** Every output bar so far is the aggregate of its bucket. */
  predicate BarsAggregate(g: seq<Stamped>, xs: seq<Stamped>, origin: int, width: int)
    requires width > 0
  {
    forall k :: 0 <= k < |g| ==>
      Bucket(xs, g[k].at, origin, width) != [] && g[k].bar == Aggregate(Bucket(xs, g[k].at, origin, width))
  }

  /** A bucket that the new bar does not reach keeps its bars. */
  lemma OtherBucketKept(h: seq<Stamped>, ys: seq<Stamped>, x: Stamped, k: int, origin: int, width: int)
    requires width > 0 && 0 <= k < |h| && BarsAggregate(h, ys, origin, width)
    requires h[k].at != Label(x.at, origin, width)
    ensures Bucket(ys + [x], h[k].at, origin, width) != []
    ensures h[k].bar == Aggregate(Bucket(ys + [x], h[k].at, origin, width))
  {
    BucketAppend(ys, x, h[k].at, origin, width);
    var b := Bucket(ys, h[k].at, origin, width);
    assert b != [] && h[k].bar == Aggregate(b);
    assert Bucket(ys + [x], h[k].at, origin, width) == b + [] == b;
  }

  /** Folding a bar into its own bucket's output bar extends that bucket. */
  lemma {:induction false} StepBarsMerge(h: seq<Stamped>, ys: seq<Stamped>, x: Stamped, origin: int, width: int)
    requires width > 0 && StrictlyIncreasing(h) && BarsAggregate(h, ys, origin, width)
    requires h != [] && h[|h| - 1].at == Label(x.at, origin, width)
    ensures BarsAggregate(Step(h, x, origin, width), ys + [x], origin, width)
  {
    var l := Label(x.at, origin, width);
    var g := Step(h, x, origin, width);
    forall k | 0 <= k < |g|
      ensures Bucket(ys + [x], g[k].at, origin, width) != []
      ensures g[k].bar == Aggregate(Bucket(ys + [x], g[k].at, origin, width))
    {
      if k < |h| - 1 {
        OtherBucketKept(h, ys, x, k, origin, width);
      } else {
        var b := Bucket(ys, l, origin, width);
        BucketAppend(ys, x, l, origin, width);
        Seqs.InitOfSnoc(b, x.bar);
      }
    }
  }

  /** A bar whose bucket has no bar yet opens a new output bar. */
  lemma {:induction false} StepBarsNew(h: seq<Stamped>, ys: seq<Stamped>, x: Stamped, origin: int, width: int)
    requires width > 0 && BarsAggregate(h, ys, origin, width)
    requires Label(x.at, origin, width) !in InputLabels(ys, origin, width)
    requires forall k :: 0 <= k < |h| ==> h[k].at != Label(x.at, origin, width)
    ensures BarsAggregate(h + [Stamped(Label(x.at, origin, width), x.bar)], ys + [x], origin, width)
  {
    var l := Label(x.at, origin, width);
    var g := h + [Stamped(l, x.bar)];
    forall k | 0 <= k < |g|
      ensures Bucket(ys + [x], g[k].at, origin, width) != []
      ensures g[k].bar == Aggregate(Bucket(ys + [x], g[k].at, origin, width))
    {
      if k < |h| {
        OtherBucketKept(h, ys, x, k, origin, width);
      } else {
        BucketMissing(ys, l, origin, width);
        BucketAppend(ys, x, l, origin, width);
      }
    }
  }

  /** A label past the last of a strictly increasing output is none of its
      labels. */
  lemma BeyondLastLabel(h: seq<Stamped>, l: int)
    requires StrictlyIncreasing(h) && (h != [] ==> h[|h| - 1].at < l)
    ensures forall k :: 0 <= k < |h| ==> h[k].at != l
    ensures l !in Labels(h)
  {
    forall k | 0 <= k < |h| ensures h[k].at != l {
      assert h[k].at <= h[|h| - 1].at;
    }
  }

  /** Each output bar is the aggregate, in time order, of the bars of the
      non-empty bucket it labels. */
  lemma {:induction false} GroupBars(xs: seq<Stamped>, origin: int, width: int)
    requires width > 0 && Nondecreasing(xs)
    ensures BarsAggregate(Group(xs, origin, width), xs, origin, width)
    decreases |xs|
  {
    if xs != [] {
      var ys := xs[..|xs| - 1];
      var x := xs[|xs| - 1];
      NondecreasingPrefix(xs);
      GroupBars(ys, origin, width);
      GroupLabels(ys, origin, width);
      var h := Group(ys, origin, width);
      var l := Label(x.at, origin, width);
      if ys != [] {
        LabelMonotone(ys[|ys| - 1].at, x.at, origin, width);
      }
      if h != [] && h[|h| - 1].at == l {
        StepBarsMerge(h, ys, x, origin, width);
      } else {
        BeyondLastLabel(h, l);
        StepBarsNew(h, ys, x, origin, width);
      }
      Seqs.InitLast(xs);
    }
  }

  /** Two bars of the same coarse bucket, folded one after the other, give
      what their combination gives folded at once. */
  lemma StepStep(g: seq<Stamped>, a: Stamped, x: Stamped, origin: int, width: int)
    requires width > 0 && Label(a.at, origin, width) == Label(x.at, origin, width)
    ensures Step(Step(g, a, origin, width), x, origin, width) ==
      Step(g, Stamped(a.at, Combine(a.bar, x.bar)), origin, width)
  {
    var l := Label(a.at, origin, width);
    if g != [] && g[|g| - 1].at == l {
      CombineAssociative(g[|g| - 1].bar, a.bar, x.bar);
    }
  }

  lemma GroupSnoc(ys: seq<Stamped>, x: Stamped, origin: int, width: int)
    requires width > 0
    ensures Group(ys + [x], origin, width) == Step(Group(ys, origin, width), x, origin, width)
  {
    Seqs.InitOfSnoc(ys, x);
  }

  /** Folding one bar at the fine width and regrouping at the coarse width is
      folding it straight into the coarse grouping. */
  lemma CoarseStep(a: seq<Stamped>, x: Stamped, origin: int, width: int, coarse: int)
    requires width > 0 && coarse > 0 && coarse % width == 0
    ensures Group(Step(a, x, origin, width), origin, coarse) == Step(Group(a, origin, coarse), x, origin, coarse)
  {
    var l := Label(x.at, origin, width);
    LabelOfCoarserLabel(x.at, origin, width, coarse);
    if a != [] && a[|a| - 1].at == l {
      var a0 := a[..|a| - 1];
      var last := a[|a| - 1];
      Seqs.InitLast(a);
      GroupSnoc(a0, last, origin, coarse);
      GroupSnoc(a0, Stamped(l, Combine(last.bar, x.bar)), origin, coarse);
      StepStep(Group(a0, origin, coarse), last, x, origin, coarse);
    } else {
      GroupSnoc(a, Stamped(l, x.bar), origin, coarse);
    }
  }

  /** Resampling in two steps, first to `width` and then to a `coarse` width
      that it divides, gives the same buckets as resampling straight to the
      coarse width: a 30-minute bar can be built from 5-minute bars. */
  lemma {:induction false} GroupTwice(xs: seq<Stamped>, origin: int, width: int, coarse: int)
    requires width > 0 && coarse > 0 && coarse % width == 0
    ensures Group(Group(xs, origin, width), origin, coarse) == Group(xs, origin, coarse)
    decreases |xs|
  {
    if xs != [] {
      var ys := xs[..|xs| - 1];
      var x := xs[|xs| - 1];
      GroupTwice(ys, origin, width, coarse);
      CoarseStep(Group(ys, origin, width), x, origin, width, coarse);
    }
  }

  predicate Consecutive(xs: seq<Stamped>) {
    forall i :: 0 < i < |xs| ==> xs[i].at == xs[i - 1].at + 1
  }

  lemma ConsecutivePrefix(xs: seq<Stamped>)
    requires |xs| > 1 && Consecutive(xs)
    ensures Consecutive(xs[..|xs| - 1])
    ensures xs[|xs| - 1].at == xs[|xs| - 2].at + 1 && xs[..|xs| - 1][0] == xs[0]
  {
  }

  /** A bar with the last output label adds no output bar; any other adds one. */
  lemma StepLength(g: seq<Stamped>, x: Stamped, origin: int, width: int)
    requires width > 0
    ensures |Step(g, x, origin, width)| ==
      if g != [] && g[|g| - 1].at == Label(x.at, origin, width) then |g| else |g| + 1
  {
  }

  /** One bar per minute fills every bucket from the first to the last, so the
      output has one bar per bucket index in between. */
  lemma {:induction false} ConsecutiveBucketCount(xs: seq<Stamped>, origin: int, width: int)
    requires width > 0 && xs != [] && Consecutive(xs)
    ensures |Group(xs, origin, width)| ==
      BucketIndex(xs[|xs| - 1].at, origin, width) - BucketIndex(xs[0].at, origin, width) + 1
    decreases |xs|
  {
    if |xs| > 1 {
      var ys := xs[..|xs| - 1];
      var x := xs[|xs| - 1];
      var y := ys[|ys| - 1];
      var h := Group(ys, origin, width);
      ConsecutivePrefix(xs);
      ConsecutiveBucketCount(ys, origin, width);
      NextMinuteBucket(y.at, origin, width);
      SameLabel(y.at, x.at, origin, width);
      StepLength(h, x, origin, width);
      assert h[|h| - 1].at == Label(y.at, origin, width);
      if BucketIndex(x.at, origin, width) == BucketIndex(y.at, origin, width) {
        assert |Group(xs, origin, width)| == |h|;
      } else {
        assert |Group(xs, origin, width)| == |h| + 1;
      }
    }
  }

  // ---------------------------------------------------------------------------
  // Resampling a table

  /** The columns aggregated unconditionally. */
  const Aggregated: set<Column> := {Open, High, Low, Close, Volume}

  /** The columns of a resampled table: `time`, the five aggregated ones, and
      `code` and `turnover` only when the input has them. */
  function OutputColumns(columns: set<Column>): set<Column> {
    {Time} + Aggregated + (if Code in columns then {Code} else {}) + (if Turnover in columns then {Turnover} else {})
  }

  /** The index of the table is in time order. */
  predicate KeysSorted(table: Table) {
    match KeyColumn(table.columns)
    case None => true
    case Some(key) => Nondecreasing(Keyed(table.rows, key))
  }

  /** Buckets are laid out from the midnight of the first timestamp. */
  function Origin(xs: seq<Stamped>): int
    requires xs != []
  {
    Midnight(xs[0].at)
  }

  function ResampleBars(xs: seq<Stamped>, width: int): seq<Stamped>
    requires width > 0
  {
    if xs == [] then [] else Group(xs, Origin(xs), width)
  }

  /** Output rows: the label becomes the `time` cell. */
  function Unstamp(g: seq<Stamped>): (rows: seq<Row>)
    ensures |rows| == |g|
    ensures forall i :: 0 <= i < |g| ==> rows[i].time == g[i].at && rows[i].bar == g[i].bar
  {
    seq(|g|, i requires 0 <= i < |g| => Row(g[i].at, g[i].at, g[i].bar))
  }

  /** Aggregates a table into buckets of `width` minutes. A table with neither
      `time` nor `date` has no time index, and one that lacks an aggregated
      column cannot be aggregated. */
  function Resample(table: Table, width: int): (r: Result<Table, Error>)
    requires width > 0 && KeysSorted(table)
    ensures KeyColumn(table.columns).None? ==> r == Failure(NoTimeColumn)
    ensures KeyColumn(table.columns).Some? && !(Aggregated <= table.columns) ==>
      r == Failure(MissingColumns(Aggregated - table.columns))
    ensures KeyColumn(table.columns).Some? && Aggregated <= table.columns ==> r.Success?
    ensures r.Success? ==> r.value.columns == OutputColumns(table.columns) && |r.value.rows| <= |table.rows|
  {
    match KeyColumn(table.columns)
    case None => Failure(NoTimeColumn)
    case Some(key) =>
      if !(Aggregated <= table.columns) then Failure(MissingColumns(Aggregated - table.columns))
      else Success(Table(OutputColumns(table.columns), Unstamp(ResampleBars(Keyed(table.rows, key), width))))
  }

  /** The `code` and `turnover` columns come out exactly when they go in; `date`
      never does. */
  lemma ResampleColumns(table: Table, width: int)
    requires width > 0 && KeysSorted(table) && Resample(table, width).Success?
    ensures var out := Resample(table, width).value.columns;
      Time in out && Aggregated <= out && Date !in out &&
      (Code in out <==> Code in table.columns) && (Turnover in out <==> Turnover in table.columns)
  {
    var out := OutputColumns(table.columns);
    assert Resample(table, width).value.columns == out;
    assert Time in out && Open in out && High in out && Low in out && Close in out && Volume in out;
  }

  lemma UnstampTimes(g: seq<Stamped>)
    ensures (set row | row in Unstamp(g) :: row.time) == Labels(g)
  {
    var out := Unstamp(g);
    forall t ensures t in (set row | row in out :: row.time) <==> t in Labels(g) {
      if t in Labels(g) {
        var z :| z in g && z.at == t;
        var k :| 0 <= k < |g| && g[k] == z;
        assert out[k] in out;
      }
      if t in (set row | row in out :: row.time) {
        var row :| row in out && row.time == t;
        var k :| 0 <= k < |out| && out[k] == row;
        assert g[k] in g;
      }
    }
  }

  /** A resampled table is in strictly increasing time order, has one row per
      non-empty bucket, and each row is the aggregate of its bucket. */
  lemma ResampleMeaning(table: Table, width: int, key: Column)
    requires width > 0 && KeysSorted(table) && Resample(table, width).Success?
    requires KeyColumn(table.columns) == Some(key) && table.rows != []
    ensures var xs := Keyed(table.rows, key);
      var out := Resample(table, width).value.rows;
      (forall i, j :: 0 <= i < j < |out| ==> out[i].time < out[j].time) &&
      (set row | row in out :: row.time) == InputLabels(xs, Origin(xs), width) &&
      forall k :: 0 <= k < |out| ==>
        Bucket(xs, out[k].time, Origin(xs), width) != [] &&
        out[k].bar == Aggregate(Bucket(xs, out[k].time, Origin(xs), width))
  {
    var xs := Keyed(table.rows, key);
    var g := Group(xs, Origin(xs), width);
    assert Resample(table, width).value.rows == Unstamp(g);
    GroupLabels(xs, Origin(xs), width);
    GroupBars(xs, Origin(xs), width);
    UnstampTimes(g);
  }

  lemma KeyedUnstamp(g: seq<Stamped>)
    ensures Keyed(Unstamp(g), Time) == g
  {
  }

  /** A resampled table lays its buckets out from the same midnight as its
      input. */
  lemma ResampledOrigin(xs: seq<Stamped>, width: int)
    requires width > 0 && xs != []
    ensures ResampleBars(xs, width) != [] && Origin(ResampleBars(xs, width)) == Origin(xs)
  {
    LabelKeepsMidnight(xs[0].at, width);
  }

  lemma StrictlyIncreasingSorted(g: seq<Stamped>)
    requires StrictlyIncreasing(g)
    ensures Nondecreasing(g)
  {
  }

  /** The table a successful resampling gives. */
  lemma ResampleSuccess(table: Table, width: int)
    requires width > 0 && KeysSorted(table) && Resample(table, width).Success?
    ensures KeyColumn(table.columns).Some?
    ensures Resample(table, width) == Success(Table(OutputColumns(table.columns),
      Unstamp(ResampleBars(Keyed(table.rows, KeyColumn(table.columns).value), width))))
  {
  }

  /** Resampling keeps its own column set. */
  lemma OutputColumnsIdempotent(columns: set<Column>)
    ensures OutputColumns(OutputColumns(columns)) == OutputColumns(columns)
  {
  }

  /** A resampled table is indexed by `time`, in order, and its index holds
      the resampled bars. */
  lemma ResampledKeys(table: Table, width: int)
    requires width > 0 && KeysSorted(table) && Resample(table, width).Success?
    ensures var once := Resample(table, width).value;
      && KeyColumn(once.columns) == Some(Time)
      && Keyed(once.rows, Time) == ResampleBars(Keyed(table.rows, KeyColumn(table.columns).value), width)
      && KeysSorted(once)
  {
    var xs := Keyed(table.rows, KeyColumn(table.columns).value);
    var g := ResampleBars(xs, width);
    assert Resample(table, width).value.rows == Unstamp(g);
    KeyedUnstamp(g);
    if xs != [] {
      GroupLabels(xs, Origin(xs), width);
      StrictlyIncreasingSorted(g);
    }
  }

  /** Resampling a resampled table to a `coarse` width that the first width
      divides gives the same table as resampling the original straight to the
      coarse width. */
  lemma {:induction false} ResampleTwice(table: Table, width: int, coarse: int)
    requires width > 0 && coarse > 0 && coarse % width == 0
    requires KeysSorted(table) && Resample(table, width).Success?
    ensures KeysSorted(Resample(table, width).value)
    ensures Resample(Resample(table, width).value, coarse) == Resample(table, coarse)
  {
    ResampledKeys(table, width);
    var xs := Keyed(table.rows, KeyColumn(table.columns).value);
    var once := Resample(table, width).value;
    if xs != [] {
      ResampledOrigin(xs, width);
      GroupTwice(xs, Origin(xs), width, coarse);
    }
    assert ResampleBars(ResampleBars(xs, width), coarse) == ResampleBars(xs, coarse);
    OutputColumnsIdempotent(table.columns);
    ResampleSuccess(once, coarse);
    ResampleSuccess(table, coarse);
  }

  lemma ConsecutiveFrom(xs: seq<Stamped>, i: int)
    requires Consecutive(xs) && 0 <= i < |xs|
    ensures xs[i].at == xs[0].at + i
  {
    if i > 0 {
      ConsecutiveFrom(xs, i - 1);
    }
  }

  /** 240 one-minute bars from 09:30 on 2024-01-01 (minute 28401690 after the
      epoch) give 48 five-minute bars, the first labelled 09:30, 8 thirty-minute
      bars and a single daily bar. */
  lemma FourHoursOfMinutes(table: Table)
    requires Time in table.columns && Aggregated <= table.columns
    requires |table.rows| == 240
    requires forall i :: 0 <= i < |table.rows| ==> table.rows[i].time == 28401690 + i
    ensures KeysSorted(table)
    ensures |Resample(table, 5).value.rows| == 48 && Resample(table, 5).value.rows[0].time == 28401690
    ensures |Resample(table, 30).value.rows| == 8
    ensures |Resample(table, MinutesPerDay).value.rows| == 1
  {
    var xs := Keyed(table.rows, Time);
    assert Consecutive(xs);
    assert xs[0].at == 28401690 && xs[239].at == 28401929;
    assert Origin(xs) == 28401120;
    ConsecutiveBucketCount(xs, 28401120, 5);
    ConsecutiveBucketCount(xs, 28401120, 30);
    ConsecutiveBucketCount(xs, 28401120, MinutesPerDay);
  }

  // ---------------------------------------------------------------------------
  // Comparing two tables

  /** The columns compared, in the order they are visited. */
  const CheckedColumns: seq<Column> := [Open, High, Low, Close, Volume]

  const DefaultTolerance: real := 0.000001

  /** The allowed absolute difference: one unit for volume, the given tolerance
      for prices. */
  function Allowance(c: Column, tolerance: real): real {
    if c == Volume then 1.0 else tolerance
  }

  function ColumnName(c: Column): string {
    match c
    case Code => "code"
    case Time => "time"
    case Date => "date"
    case Open => "open"
    case High => "high"
    case Low => "low"
    case Close => "close"
    case Volume => "volume"
    case Turnover => "turnover"
  }

  function Message(c: Column): string {
    if c == Volume then "Volume mismatch" else ColumnName(c) + " mismatch"
  }

  function ValueOf(bar: Bar, c: Column): real
    requires c in Aggregated
  {
    if c == Open then bar.open
    else if c == High then bar.high
    else if c == Low then bar.low
    else if c == Close then bar.close
    else bar.volume
  }

  /** No timestamp indexes two rows. */
  predicate DistinctKeys(table: Table) {
    match KeyColumn(table.columns)
    case None => true
    case Some(key) => forall i, j :: 0 <= i < j < |table.rows| ==> KeyOf(table.rows[i], key) != KeyOf(table.rows[j], key)
  }

  function KeySet(rows: seq<Row>, key: Column): set<int> {
    set r | r in rows :: KeyOf(r, key)
  }

  /** The bar a timestamp indexes. */
  function Find(rows: seq<Row>, key: Column, t: int): (found: Option<Bar>)
    ensures found.Some? <==> t in KeySet(rows, key)
    decreases |rows|
  {
    if rows == [] then None
    else if KeyOf(rows[0], key) == t then Some(rows[0].bar)
    else
      assert forall r :: r in rows <==> r == rows[0] || r in rows[1..];
      Find(rows[1..], key, t)
  }

  /** The bar found is that of the first row carrying the timestamp. */
  lemma {:induction false} FindFirstRow(rows: seq<Row>, key: Column, t: int)
    ensures Find(rows, key, t).Some? ==>
      exists i :: 0 <= i < |rows| && KeyOf(rows[i], key) == t && Find(rows, key, t).value == rows[i].bar &&
        forall j :: 0 <= j < i ==> KeyOf(rows[j], key) != t
    decreases |rows|
  {
    if rows != [] && KeyOf(rows[0], key) != t && Find(rows, key, t).Some? {
      var rest := rows[1..];
      FindFirstRow(rest, key, t);
      var i :| 0 <= i < |rest| && KeyOf(rest[i], key) == t && Find(rest, key, t).value == rest[i].bar &&
        forall j :: 0 <= j < i ==> KeyOf(rest[j], key) != t;
      assert KeyOf(rows[i + 1], key) == t;
    }
  }

  /** Two cells are within `allowance` of each other. */
  predicate Near(a: Option<Bar>, b: Option<Bar>, c: Column, allowance: real)
    requires c in Aggregated
  {
    a.Some? && b.Some? && -allowance <= ValueOf(a.value, c) - ValueOf(b.value, c) <= allowance
  }

  /** A column passes when it is within its allowance at every common timestamp. */
  predicate ColumnAgrees(t1: Table, k1: Column, t2: Table, k2: Column, common: set<int>, c: Column, tolerance: real)
    requires c in Aggregated
  {
    forall t :: t in common ==> Near(Find(t1.rows, k1, t), Find(t2.rows, k2, t), c, Allowance(c, tolerance))
  }

  /** A column both tables have and that fails. */
  predicate Fails(c: Column, t1: Table, k1: Column, t2: Table, k2: Column, common: set<int>, tolerance: real)
    requires c in Aggregated
  {
    c in t1.columns && c in t2.columns && !ColumnAgrees(t1, k1, t2, k2, common, c, tolerance)
  }

  /** The failing columns among `cols`, gathered in visiting order. */
  function Failing(cols: seq<Column>, t1: Table, k1: Column, t2: Table, k2: Column, common: set<int>, tolerance: real): set<Column>
    requires forall i :: 0 <= i < |cols| ==> cols[i] in Aggregated
    decreases |cols|
  {
    if cols == [] then {}
    else
      var last := cols[|cols| - 1];
      Failing(cols[..|cols| - 1], t1, k1, t2, k2, common, tolerance) +
      if Fails(last, t1, k1, t2, k2, common, tolerance) then {last} else {}
  }

  /** The failing columns are exactly the visited columns that fail. */
  lemma {:induction false} FailingMembers(cols: seq<Column>, t1: Table, k1: Column, t2: Table, k2: Column, common: set<int>, tolerance: real)
    requires forall i :: 0 <= i < |cols| ==> cols[i] in Aggregated
    ensures forall c :: c in Failing(cols, t1, k1, t2, k2, common, tolerance) <==>
      c in cols && c in Aggregated && Fails(c, t1, k1, t2, k2, common, tolerance)
    decreases |cols|
  {
    if cols != [] {
      var init, last := cols[..|cols| - 1], cols[|cols| - 1];
      FailingMembers(init, t1, k1, t2, k2, common, tolerance);
      Seqs.InitLast(cols);
      assert forall c :: c in cols <==> c in init || c == last;
    }
  }

  function MismatchMap(failing: set<Column>): map<Column, string> {
    map c | c in failing :: Message(c)
  }

  /** What the comparison reports besides its verdict. */
  datatype Report =
    | NoCommonDates(error: string)
    | Mismatches(diff: map<Column, string>)

  /** Reference definition of the comparison of two tables on their common
      timestamps. */
  function Validation(t1: Table, t2: Table, tolerance: real): Result<(bool, Report), Error>
    requires DistinctKeys(t1) && DistinctKeys(t2)
  {
    match (KeyColumn(t1.columns), KeyColumn(t2.columns))
    case (Some(k1), Some(k2)) =>
      var common := KeySet(t1.rows, k1) * KeySet(t2.rows, k2);
      if common == {} then Success((false, NoCommonDates("No common dates found")))
      else
        var failing := Failing(CheckedColumns, t1, k1, t2, k2, common, tolerance);
        Success((failing == {}, Mismatches(MismatchMap(failing))))
    case _ => Failure(NoTimeColumn)
  }

  lemma FailingStep(cols: seq<Column>, col: Column, t1: Table, k1: Column, t2: Table, k2: Column, common: set<int>, tolerance: real)
    requires forall i :: 0 <= i < |cols| ==> cols[i] in Aggregated
    requires col in Aggregated
    ensures forall i :: 0 <= i < |cols + [col]| ==> (cols + [col])[i] in Aggregated
    ensures Failing(cols + [col], t1, k1, t2, k2, common, tolerance) ==
      Failing(cols, t1, k1, t2, k2, common, tolerance) +
      if Fails(col, t1, k1, t2, k2, common, tolerance) then {col} else {}
  {
    Seqs.InitOfSnoc(cols, col);
  }

  lemma MismatchMapStep(failing: set<Column>, col: Column)
    ensures MismatchMap(failing + {col}) == MismatchMap(failing)[col := Message(col)]
    ensures MismatchMap(failing) == map[] <==> failing == {}
  {
    if failing != {} {
      var c :| c in failing;
      assert c in MismatchMap(failing);
    }
  }

  /** The column loop: every checked column is visited, a failing one adds
      its message to `diff` and clears `isValid`. */
  method CompareColumns(t1: Table, k1: Column, t2: Table, k2: Column, common: set<int>, tolerance: real)
    returns (isValid: bool, diff: map<Column, string>)
    ensures diff == MismatchMap(Failing(CheckedColumns, t1, k1, t2, k2, common, tolerance))
    ensures isValid <==> Failing(CheckedColumns, t1, k1, t2, k2, common, tolerance) == {}
  {
    isValid := true;
    diff := map[];
    for i := 0 to |CheckedColumns|
      invariant diff == MismatchMap(Failing(CheckedColumns[..i], t1, k1, t2, k2, common, tolerance))
      invariant isValid <==> Failing(CheckedColumns[..i], t1, k1, t2, k2, common, tolerance) == {}
    {
      var col := CheckedColumns[i];
      ghost var before := Failing(CheckedColumns[..i], t1, k1, t2, k2, common, tolerance);
      Seqs.TakeNext(CheckedColumns, i);
      FailingStep(CheckedColumns[..i], col, t1, k1, t2, k2, common, tolerance);
      if col !in t1.columns || col !in t2.columns {
        continue;
      }
      if !ColumnAgrees(t1, k1, t2, k2, common, col, tolerance) {
        MismatchMapStep(before, col);
        isValid := false;
        diff := diff[col := Message(col)];
      }
    }
    Seqs.TakeAll(CheckedColumns);
  }

  /** Compares two tables on their common timestamps, checking every column
      without stopping at the first failure. */
  method ValidateData(t1: Table, t2: Table, tolerance: real) returns (r: Result<(bool, Report), Error>)
    requires DistinctKeys(t1) && DistinctKeys(t2)
    ensures r == Validation(t1, t2, tolerance)
  {
    var key1 := KeyColumn(t1.columns);
    var key2 := KeyColumn(t2.columns);
    if key1.None? || key2.None? {
      return Failure(NoTimeColumn);
    }
    var k1, k2 := key1.value, key2.value;
    var common := KeySet(t1.rows, k1) * KeySet(t2.rows, k2);
    if common == {} {
      return Success((false, NoCommonDates("No common dates found")));
    }
    var isValid, diff := CompareColumns(t1, k1, t2, k2, common, tolerance);
    return Success((isValid, Mismatches(diff)));
  }

  /** The verdict is true exactly when the report lists no mismatch; every
      listed column is a compared column that both tables have, under its
      message. */
  lemma VerdictMatchesReport(t1: Table, t2: Table, tolerance: real)
    requires DistinctKeys(t1) && DistinctKeys(t2) && Validation(t1, t2, tolerance).Success?
    ensures Validation(t1, t2, tolerance).value.0 <==> Validation(t1, t2, tolerance).value.1 == Mismatches(map[])
    ensures var report := Validation(t1, t2, tolerance).value.1;
      report.Mismatches? ==>
        forall c :: c in report.diff ==> c in Aggregated && c in t1.columns && c in t2.columns && report.diff[c] == Message(c)
  {
    var k1 := KeyColumn(t1.columns).value;
    var k2 := KeyColumn(t2.columns).value;
    var common := KeySet(t1.rows, k1) * KeySet(t2.rows, k2);
    if common != {} {
      FailingMembers(CheckedColumns, t1, k1, t2, k2, common, tolerance);
      MismatchMapStep(Failing(CheckedColumns, t1, k1, t2, k2, common, tolerance), Open);
    }
  }

  /** A table compared with itself passes, whatever the non-negative tolerance. */
  lemma IdenticalTablesPass(t: Table, tolerance: real)
    requires DistinctKeys(t) && KeyColumn(t.columns).Some? && t.rows != [] && tolerance >= 0.0
    ensures Validation(t, t, tolerance) == Success((true, Mismatches(map[])))
  {
    var k := KeyColumn(t.columns).value;
    var common := KeySet(t.rows, k) * KeySet(t.rows, k);
    assert KeyOf(t.rows[0], k) in common;
    forall c | c in Aggregated
      ensures ColumnAgrees(t, k, t, k, common, c, tolerance)
    {
      forall u | u in common
        ensures Near(Find(t.rows, k, u), Find(t.rows, k, u), c, Allowance(c, tolerance))
      {
      }
    }
    FailingMembers(CheckedColumns, t, k, t, k, common, tolerance);
    assert Failing(CheckedColumns, t, k, t, k, common, tolerance) == {};
  }

  /** Swapping the two tables changes nothing. */
  lemma ValidationSymmetric(t1: Table, t2: Table, tolerance: real)
    requires DistinctKeys(t1) && DistinctKeys(t2)
    ensures Validation(t1, t2, tolerance) == Validation(t2, t1, tolerance)
  {
    if KeyColumn(t1.columns).Some? && KeyColumn(t2.columns).Some? {
      var k1 := KeyColumn(t1.columns).value;
      var k2 := KeyColumn(t2.columns).value;
      var common := KeySet(t1.rows, k1) * KeySet(t2.rows, k2);
      assert common == KeySet(t2.rows, k2) * KeySet(t1.rows, k1);
      forall c | c in Aggregated
        ensures Fails(c, t1, k1, t2, k2, common, tolerance) <==> Fails(c, t2, k2, t1, k1, common, tolerance)
      {
        assert ColumnAgrees(t1, k1, t2, k2, common, c, tolerance) <==> ColumnAgrees(t2, k2, t1, k1, common, c, tolerance);
      }
      FailingMembers(CheckedColumns, t1, k1, t2, k2, common, tolerance);
      FailingMembers(CheckedColumns, t2, k2, t1, k1, common, tolerance);
      assert Failing(CheckedColumns, t1, k1, t2, k2, common, tolerance) == Failing(CheckedColumns, t2, k2, t1, k1, common, tolerance);
    }
  }

  lemma KeySetOfOne(r: Row, key: Column)
    ensures KeySet([r], key) == {KeyOf(r, key)}
  {
    assert r in [r];
    forall t | t in KeySet([r], key) ensures t == KeyOf(r, key) {
      var z :| z in [r] && KeyOf(z, key) == t;
    }
  }

  /** Two one-row tables at the same time agree on a column exactly when their
      cells are within the allowance. */
  lemma OneRowAgreement(columns: set<Column>, a: Row, b: Row, tolerance: real)
    requires Time in columns && a.time == b.time
    ensures KeyColumn(columns) == Some(Time)
    ensures KeySet([a], Time) * KeySet([b], Time) == {a.time}
    ensures forall c :: c in Aggregated ==>
      (ColumnAgrees(Table(columns, [a]), Time, Table(columns, [b]), Time, {a.time}, c, tolerance) <==>
        -Allowance(c, tolerance) <= ValueOf(a.bar, c) - ValueOf(b.bar, c) <= Allowance(c, tolerance))
  {
    KeySetOfOne(a, Time);
    KeySetOfOne(b, Time);
    assert Find([a], Time, a.time) == Some(a.bar);
    assert Find([b], Time, b.time) == Some(b.bar);
  }

  /** Two cells are within the allowance of their column. */
  predicate Within(a: Bar, b: Bar, c: Column, tolerance: real)
    requires c in Aggregated
  {
    -Allowance(c, tolerance) <= ValueOf(a, c) - ValueOf(b, c) <= Allowance(c, tolerance)
  }

  /** Two one-row tables at the same time: the verdict and the report follow
      from the compared columns whose cells are out of allowance. */
  lemma OneRowValidation(columns: set<Column>, a: Row, b: Row, tolerance: real)
    requires Time in columns && Aggregated <= columns && a.time == b.time
    ensures var f := Failing(CheckedColumns, Table(columns, [a]), Time, Table(columns, [b]), Time, {a.time}, tolerance);
      && Validation(Table(columns, [a]), Table(columns, [b]), tolerance) == Success((f == {}, Mismatches(MismatchMap(f))))
      && forall c :: c in f <==> c in Aggregated && !Within(a.bar, b.bar, c, tolerance)
  {
    var t1, t2 := Table(columns, [a]), Table(columns, [b]);
    OneRowAgreement(columns, a, b, tolerance);
    FailingMembers(CheckedColumns, t1, Time, t2, Time, {a.time}, tolerance);
    assert forall c :: c in Aggregated <==> c in CheckedColumns;
  }

  /** The five compared columns, one by one. */
  lemma WithinEach(a: Bar, b: Bar, tolerance: real, skip: Option<Column>)
    requires skip != Some(Open) ==> Within(a, b, Open, tolerance)
    requires skip != Some(High) ==> Within(a, b, High, tolerance)
    requires skip != Some(Low) ==> Within(a, b, Low, tolerance)
    requires skip != Some(Close) ==> Within(a, b, Close, tolerance)
    requires skip != Some(Volume) ==> Within(a, b, Volume, tolerance)
    ensures forall c :: c in Aggregated && skip != Some(c) ==> Within(a, b, c, tolerance)
  {
  }

  lemma MismatchMapOfOne(c: Column)
    ensures MismatchMap({c}) == map[c := Message(c)]
    ensures MismatchMap({}) == map[]
  {
  }

  /** The messages of the columns the examples below name. */
  lemma ExampleMessages()
    ensures Message(Open) == "open mismatch" && Message(Volume) == "Volume mismatch"
  {
  }

  /** One daily bar against a copy whose open is one higher: the comparison
      fails and names `open`, and only `open`. */
  lemma ShiftedOpenFails(columns: set<Column>, a: Row)
    requires Time in columns && Aggregated <= columns
    ensures var b := a.(bar := a.bar.(open := a.bar.open + 1.0));
      Validation(Table(columns, [a]), Table(columns, [b]), DefaultTolerance) ==
        Success((false, Mismatches(map[Open := "open mismatch"])))
  {
    var b := a.(bar := a.bar.(open := a.bar.open + 1.0));
    OneRowValidation(columns, a, b, DefaultTolerance);
    var failing := Failing(CheckedColumns, Table(columns, [a]), Time, Table(columns, [b]), Time, {a.time}, DefaultTolerance);
    WithinEach(a.bar, b.bar, DefaultTolerance, Some(Open));
    assert !Within(a.bar, b.bar, Open, DefaultTolerance);
    assert failing == {Open};
    MismatchMapOfOne(Open);
    ExampleMessages();
  }

  /** A close that differs by exactly the default tolerance still passes. */
  lemma CloseWithinTolerance(columns: set<Column>, a: Row)
    requires Time in columns && Aggregated <= columns
    ensures var b := a.(bar := a.bar.(close := a.bar.close + DefaultTolerance));
      Validation(Table(columns, [a]), Table(columns, [b]), DefaultTolerance) == Success((true, Mismatches(map[])))
  {
    var b := a.(bar := a.bar.(close := a.bar.close + DefaultTolerance));
    OneRowValidation(columns, a, b, DefaultTolerance);
    var failing := Failing(CheckedColumns, Table(columns, [a]), Time, Table(columns, [b]), Time, {a.time}, DefaultTolerance);
    WithinEach(a.bar, b.bar, DefaultTolerance, None);
    assert failing == {};
    MismatchMapOfOne(Open);
  }

  /** Volume is allowed one unit of difference... */
  lemma VolumeWithinOne(columns: set<Column>, a: Row)
    requires Time in columns && Aggregated <= columns
    ensures var b := a.(bar := a.bar.(volume := a.bar.volume + 1.0));
      Validation(Table(columns, [a]), Table(columns, [b]), DefaultTolerance) == Success((true, Mismatches(map[])))
  {
    var b := a.(bar := a.bar.(volume := a.bar.volume + 1.0));
    OneRowValidation(columns, a, b, DefaultTolerance);
    var failing := Failing(CheckedColumns, Table(columns, [a]), Time, Table(columns, [b]), Time, {a.time}, DefaultTolerance);
    WithinEach(a.bar, b.bar, DefaultTolerance, None);
    assert failing == {};
    MismatchMapOfOne(Open);
  }

  /** ...and no more. */
  lemma VolumeBeyondOne(columns: set<Column>, a: Row)
    requires Time in columns && Aggregated <= columns
    ensures var b := a.(bar := a.bar.(volume := a.bar.volume + 2.0));
      Validation(Table(columns, [a]), Table(columns, [b]), DefaultTolerance) ==
        Success((false, Mismatches(map[Volume := "Volume mismatch"])))
  {
    var b := a.(bar := a.bar.(volume := a.bar.volume + 2.0));
    OneRowValidation(columns, a, b, DefaultTolerance);
    var failing := Failing(CheckedColumns, Table(columns, [a]), Time, Table(columns, [b]), Time, {a.time}, DefaultTolerance);
    WithinEach(a.bar, b.bar, DefaultTolerance, Some(Volume));
    assert !Within(a.bar, b.bar, Volume, DefaultTolerance);
    assert failing == {Volume};
    MismatchMapOfOne(Volume);
    ExampleMessages();
  }
}
