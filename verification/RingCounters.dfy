/** The time-bucketed event counter behind a sparkline (internal/topology/series.go). Time is in
    nanoseconds. Every event is given the number of the bucket it fell in, counting buckets from the
    first event on; the ring then holds the counts of the last thirty buckets. */
module RingCounters {
  const SPARK_BUCKETS := 30
  const BUCKET_WIDTH := 2_000_000_000

  /** The number of events that fell in bucket b. */
  function Count(at: seq<int>, b: int): nat {
    if |at| == 0 then 0
    else Count(at[..|at| - 1], b) + if at[|at| - 1] == b then 1 else 0
  }

  lemma CountSnoc(at: seq<int>, x: int, b: int)
    ensures Count(at + [x], b) == Count(at, b) + if x == b then 1 else 0
  {
    assert (at + [x])[..|at|] == at;
  }

  lemma {:induction false} NothingLater(at: seq<int>, cur: int, b: int)
    requires b > cur && forall k :: 0 <= k < |at| ==> at[k] <= cur
    ensures Count(at, b) == 0
  {
    if |at| > 0 {
      NothingLater(at[..|at| - 1], cur, b);
    }
  }

  /** The counts of the last thirty buckets up to cur, oldest first. */
  function Window(at: seq<int>, cur: int): (w: seq<int>)
    ensures |w| == SPARK_BUCKETS
    ensures forall i {:trigger w[i]} :: 0 <= i < SPARK_BUCKETS ==> w[i] == Count(at, cur - (SPARK_BUCKETS - 1) + i)
  {
    seq(SPARK_BUCKETS, i requires 0 <= i < SPARK_BUCKETS => Count(at, cur - (SPARK_BUCKETS - 1) + i))
  }

  /** The window moved left by n cells, zeros coming in on the right. */
  function Shifted(w: seq<int>, n: nat): (r: seq<int>)
    requires |w| == SPARK_BUCKETS
    ensures |r| == SPARK_BUCKETS
    ensures forall i {:trigger r[i]} :: 0 <= i < SPARK_BUCKETS ==> r[i] == if i + n < SPARK_BUCKETS then w[i + n] else 0
  {
    seq(SPARK_BUCKETS, i requires 0 <= i < SPARK_BUCKETS => if i + n < SPARK_BUCKETS then w[i + n] else 0)
  }

  /** The window with one more event in its last cell. */
  function Bumped(w: seq<int>): seq<int>
    requires |w| == SPARK_BUCKETS
  {
    w[SPARK_BUCKETS - 1 := w[SPARK_BUCKETS - 1] + 1]
  }

  /** Main result: an event adv buckets later shifts the window by adv cells and adds one at its end;
      with adv at 30 or more nothing of the old window is left. */
  lemma WindowShifts(at: seq<int>, cur: int, adv: nat)
    requires forall k :: 0 <= k < |at| ==> at[k] <= cur
    ensures var s := Shifted(Window(at, cur), adv);
      Window(at + [cur + adv], cur + adv) == Bumped(s)
  {
    var s := Shifted(Window(at, cur), adv);
    var w := Window(at + [cur + adv], cur + adv);
    forall i | 0 <= i < SPARK_BUCKETS
      ensures w[i] == s[i] + if i == SPARK_BUCKETS - 1 then 1 else 0
    {
      var b := cur + adv - (SPARK_BUCKETS - 1) + i;
      CountSnoc(at, cur + adv, b);
      if i + adv >= SPARK_BUCKETS {
        NothingLater(at, cur, b);
      }
    }
  }

  /** The whole buckets between two times; a time before the start counts as none. */
  function Elapsed(start: int, t: int): nat {
    if t < start then 0 else (t - start) / BUCKET_WIDTH
  }

  /** What a sequence of event times makes of the sparkline: when its last bucket starts, and the
      window. A late event counts in the last bucket; a gap of the whole ring starts a bucket anew. */
  datatype Spark = Spark(start: int, window: seq<int>)

  function NoEvents(): (w: seq<int>)
    ensures |w| == SPARK_BUCKETS && forall i {:trigger w[i]} :: 0 <= i < SPARK_BUCKETS ==> w[i] == 0
  {
    seq(SPARK_BUCKETS, _ => 0)
  }

  function SparkOf(times: seq<int>): (s: Spark)
    ensures |s.window| == SPARK_BUCKETS
  {
    if |times| == 0 then Spark(0, NoEvents())
    else
      var t, before := times[|times| - 1], SparkOf(times[..|times| - 1]);
      AfterEvent(before, if |times| == 1 then t else before.start, t)
  }

  function AfterEvent(before: Spark, start: int, t: int): (s: Spark)
    requires |before.window| == SPARK_BUCKETS
    ensures |s.window| == SPARK_BUCKETS
  {
    var adv := Elapsed(start, t);
    Spark(if adv >= SPARK_BUCKETS then t else start + adv * BUCKET_WIDTH, Bumped(Shifted(before.window, adv)))
  }

  /** The ring's figures are those of the times it was given. */
  ghost predicate Told(times: seq<int>, curStart: int, at: seq<int>, cur: int) {
    && SparkOf(times).window == Window(at, cur)
    && (|times| > 0 ==> SparkOf(times).start == curStart)
  }

  lemma NothingTold(curStart: int, cur: int)
    ensures Told([], curStart, [], cur)
  {
  }

  lemma ToldOneMore(times: seq<int>, curStart: int, at: seq<int>, cur: int, t: int)
    requires Told(times, curStart, at, cur)
    requires forall k :: 0 <= k < |at| ==> at[k] <= cur
    ensures var start := if |times| == 0 then t else curStart;
      var adv := Elapsed(start, t);
      Told(times + [t], if adv >= SPARK_BUCKETS then t else start + adv * BUCKET_WIDTH, at + [cur + adv], cur + adv)
  {
    hide Window, Shifted, Bumped;
    var start := if |times| == 0 then t else curStart;
    WindowShifts(at, cur, Elapsed(start, t));
    assert (times + [t])[..|times|] == times;
  }

  // ---- The sparkline as a histogram ----

  /** The bucket of two seconds a time falls in, counted from the first time. */
  function Bucket(times: seq<int>, k: nat): int
    requires k < |times|
  {
    (times[k] - times[0]) / 2_000_000_000
  }

  /** The times are in order, and no thirty buckets in a row stay empty. */
  predicate Steady(times: seq<int>) {
    forall k :: 0 <= k < |times| - 1 ==> times[k] <= times[k + 1] && Bucket(times, k + 1) < Bucket(times, k) + 30
  }

  /** The buckets of all times. */
  function Buckets(times: seq<int>): (at: seq<int>)
    ensures |at| == |times|
    ensures forall k {:trigger at[k]} :: 0 <= k < |times| ==> at[k] == Bucket(times, k)
  {
    seq(|times|, k requires 0 <= k < |times| => Bucket(times, k))
  }

  lemma {:induction false} CountIsNumber(at: seq<int>, b: int)
    ensures Count(at, b) == |set k: nat | k < |at| && at[k] == b|
  {
    if |at| > 0 {
      var front, s := at[..|at| - 1], set k: nat | k < |at| && at[k] == b;
      CountIsNumber(front, b);
      assert s - {|at| - 1} == set k: nat | k < |front| && front[k] == b;
    }
  }

  lemma {:induction false} BucketsRise(times: seq<int>, k: nat)
    requires Steady(times) && k < |times|
    ensures Bucket(times, k) <= Bucket(times, |times| - 1)
    decreases |times| - k
  {
    if k < |times| - 1 {
      BucketsRise(times, k + 1);
    }
  }

  lemma BucketsElapsed(first: int, cur: int, t: int)
    ensures (t - first - 2_000_000_000 * cur) / 2_000_000_000 == (t - first) / 2_000_000_000 - cur
  {
  }

  lemma OneMoreBucket(at: seq<int>, cur: int, first: int, t: int)
    requires forall k :: 0 <= k < |at| ==> at[k] <= cur
    requires cur <= (t - first) / 2_000_000_000 < cur + 30
    ensures var start, next := first + 2_000_000_000 * cur, (t - first) / 2_000_000_000;
      AfterEvent(Spark(start, Window(at, cur)), start, t) == Spark(first + 2_000_000_000 * next, Window(at + [next], next))
  {
    hide Window, Shifted, Bumped;
    var next := (t - first) / 2_000_000_000;
    BucketsElapsed(first, cur, t);
    WindowShifts(at, cur, next - cur);
  }

  lemma {:induction false} SparkIsWindow(times: seq<int>)
    requires Steady(times) && |times| > 0
    ensures var cur := Bucket(times, |times| - 1);
      SparkOf(times) == Spark(times[0] + 2_000_000_000 * cur, Window(Buckets(times), cur))
  {
    hide Window, AfterEvent;
    var front := times[..|times| - 1];
    if |front| == 0 {
      FirstBucket(times[0]);
      assert Buckets(times) == [0];
    } else {
      assert forall k :: 0 <= k < |front| ==> Bucket(front, k) == Bucket(times, k);
      SparkIsWindow(front);
      var cur := Bucket(front, |front| - 1);
      forall k | 0 <= k < |front|
        ensures Buckets(front)[k] <= cur
      {
        BucketsRise(front, k);
      }
      assert times[|front| - 1] <= times[(|front| - 1) + 1] && Bucket(times, (|front| - 1) + 1) < Bucket(times, |front| - 1) + 30;
      OneMoreBucket(Buckets(front), cur, times[0], times[|front|]);
      assert Buckets(times) == Buckets(front) + [Bucket(times, |front|)];
    }
  }

  lemma FirstBucket(t: int)
    ensures SparkOf([t]) == Spark(t, Window([0], 0))
  {
    hide Window, Shifted, Bumped;
    NothingTold(0, 0);
    WindowShifts([], 0, 0);
    assert [t][..0] == [] && [] + [0] == [0];
  }

  /** Main result: for steady times the sparkline is a histogram: cell i counts the times in the bucket that
      lies 29 - i before the last one. */
  lemma SparkIsHistogram(times: seq<int>, i: nat)
    requires Steady(times) && |times| > 0 && i < 30
    ensures |SparkOf(times).window| == 30
    ensures SparkOf(times).window[i] ==
      |set k: nat | k < |times| && Bucket(times, k) == Bucket(times, |times| - 1) - 29 + i|
  {
    hide SparkOf, Count;
    SparkIsWindow(times);
    var b := Bucket(times, |times| - 1) - 29 + i;
    CountIsNumber(Buckets(times), b);
    assert (set k: nat | k < |times| && Bucket(times, k) == b) == set k: nat | k < |times| && Buckets(times)[k] == b;
  }

  /** What one more time makes of the sparkline: a whole minute or more after the start of the last bucket
      it starts anew with that time alone, and before that start the time counts in the last bucket. */
  lemma SparkElsewhere(times: seq<int>, t: int)
    ensures |times| > 0 ==>
      var s, r := SparkOf(times), SparkOf(times + [t]);
      && (t >= s.start + 60_000_000_000 ==> r.start == t && r.window[29] == 1 && forall i :: 0 <= i < 29 ==> r.window[i] == 0)
      && (t < s.start ==> r == Spark(s.start, s.window[29 := s.window[29] + 1]))
  {
    hide SparkOf, AfterEvent;
    if |times| > 0 {
      OneMoreSpark(times, t);
      GapStartsAnew(SparkOf(times), t);
      LateCountsInLast(SparkOf(times), t);
    }
  }

  lemma GapStartsAnew(s: Spark, t: int)
    requires |s.window| == 30
    ensures t >= s.start + 60_000_000_000 ==>
      AfterEvent(s, s.start, t) == Spark(t, NoEvents()[29 := 1])
  {
    if t >= s.start + 60_000_000_000 {
      assert Shifted(s.window, Elapsed(s.start, t)) == NoEvents();
    }
  }

  lemma LateCountsInLast(s: Spark, t: int)
    requires |s.window| == 30
    ensures t < s.start ==> AfterEvent(s, s.start, t) == Spark(s.start, s.window[29 := s.window[29] + 1])
  {
    if t < s.start {
      hide Shifted;
      ShiftedByNone(s.window);
      assert Elapsed(s.start, t) == 0;
    }
  }

  lemma ShiftedByNone(w: seq<int>)
    requires |w| == 30
    ensures Shifted(w, 0) == w
  {
    assert |Shifted(w, 0)| == |w|;
  }

  lemma OneMoreSpark(times: seq<int>, t: int)
    requires |times| > 0
    ensures SparkOf(times + [t]) == AfterEvent(SparkOf(times), SparkOf(times).start, t)
  {
    hide AfterEvent;
    assert (times + [t])[..|times|] == times;
  }

  /** Go's integer division, toward zero. */
  function TruncDiv(a: int, b: int): int
    requires b > 0
  {
    if a >= 0 then a / b else -((-a) / b)
  }

  /** The cell of the bucket j before the current one. */
  function Cell(curIdx: nat, j: nat): int {
    if curIdx >= j then curIdx - j else curIdx - j + SPARK_BUCKETS
  }

  /** The ring's cells hold the counts of the last thirty buckets. */
  predicate Holds(b: seq<int>, curIdx: nat, at: seq<int>, cur: int) {
    && |b| == SPARK_BUCKETS && curIdx < SPARK_BUCKETS
    && (forall k :: 0 <= k < |at| ==> at[k] <= cur)
    && forall j {:trigger Cell(curIdx, j)} :: 0 <= j < SPARK_BUCKETS ==> b[Cell(curIdx, j)] == Count(at, cur - j)
  }

  /** Counting one event in the current bucket. */
  lemma Counted(b: seq<int>, curIdx: nat, at: seq<int>, cur: int)
    requires Holds(b, curIdx, at, cur)
    ensures Holds(b[curIdx := b[curIdx] + 1], curIdx, at + [cur], cur)
  {
    assert Cell(curIdx, 0) == curIdx;
    forall j | 0 <= j < SPARK_BUCKETS
      ensures b[curIdx := b[curIdx] + 1][Cell(curIdx, j)] == Count(at + [cur], cur - j)
    {
      CountSnoc(at, cur, cur - j);
    }
  }

  /** Opening one bucket. */
  lemma Opened(b: seq<int>, curIdx: nat, at: seq<int>, cur: int)
    requires Holds(b, curIdx, at, cur)
    ensures var next := (curIdx + 1) % SPARK_BUCKETS;
      Holds(b[next := 0], next, at, cur + 1)
  {
    var next := (curIdx + 1) % SPARK_BUCKETS;
    NothingLater(at, cur, cur + 1);
    forall j | 0 <= j < SPARK_BUCKETS
      ensures b[next := 0][Cell(next, j)] == Count(at, cur + 1 - j)
    {
      if j > 0 {
        assert Cell(next, j) == Cell(curIdx, j - 1);
      }
    }
  }

  /** Forgetting everything after a gap wider than the ring. */
  lemma Forgotten(b: seq<int>, at: seq<int>, cur: int, adv: nat)
    requires |b| == SPARK_BUCKETS && adv >= SPARK_BUCKETS
    requires forall k :: 0 <= k < SPARK_BUCKETS ==> b[k] == 0
    requires forall k :: 0 <= k < |at| ==> at[k] <= cur
    ensures Holds(b, 0, at, cur + adv)
  {
    forall j | 0 <= j < SPARK_BUCKETS
      ensures b[Cell(0, j)] == Count(at, cur + adv - j)
    {
      NothingLater(at, cur, cur + adv - j);
    }
  }

  class RingCounters {
    const buckets: array<int>
    var curIdx: nat
    var curStart: int
    var started: bool
    ghost var at: seq<int>
    ghost var cur: int
    ghost var times: seq<int>

    ghost predicate Valid()
      reads this, buckets
    {
      && buckets.Length == SPARK_BUCKETS
      && Holds(buckets[..], curIdx, at, cur)
      && |at| == |times|
      && (started <==> |times| > 0)
      && Told(times, curStart, at, cur)
    }

    constructor ()
      ensures Valid() && fresh(buckets)
      ensures !started && times == []
    {
      buckets := new int[SPARK_BUCKETS](_ => 0);
      curIdx, curStart, started := 0, 0, false;
      at, cur, times := [], 0, [];
      NothingTold(0, 0);
    }

    /** Records one event at time t: the window shifts by the whole buckets elapsed and counts one
        more at its end, and for times in order t lies in the current bucket. */
    method Add(t: int)
      requires Valid()
      modifies this, buckets
      ensures Valid() && started && times == old(times) + [t]
      ensures var adv := if old(started) then Elapsed(old(curStart), t) else 0;
        && cur == old(cur) + adv
        && at == old(at) + [cur]
        && Window(at, cur) == Bumped(Shifted(Window(old(at), old(cur)), adv))
      ensures !old(started) || t >= old(curStart) ==> curStart <= t < curStart + BUCKET_WIDTH
      ensures old(started) && t < old(curStart) ==> curStart == old(curStart)
    {
      hide Holds, Window, Shifted, Told;
      BeforeCur(buckets[..], curIdx, at, cur);
      ToldOneMore(times, curStart, at, cur, t);
      if !started {
        curStart := t;
        started := true;
      }
      var adv := TruncDiv(t - curStart, BUCKET_WIDTH);
      if adv < 0 {
        adv := 0;
      }
      WindowShifts(at, cur, adv);
      if adv >= SPARK_BUCKETS {
        for i := 0 to SPARK_BUCKETS
          modifies buckets
          invariant forall k :: 0 <= k < i ==> buckets[k] == 0
        {
          buckets[i] := 0;
        }
        Forgotten(buckets[..], at, cur, adv);
        curIdx := 0;
        curStart := t;
        cur := cur + adv;
      } else {
        Forward(adv);
      }
      Counted(buckets[..], curIdx, at, cur);
      IndexInRing(buckets[..], curIdx, at, cur);
      ghost var filled := buckets[..][curIdx := buckets[curIdx] + 1];
      buckets[curIdx] := buckets[curIdx] + 1;
      assert buckets[..] == filled;
      at, times := at + [cur], times + [t];
    }

    /** Opens adv new buckets. */
    method Forward(adv: nat)
      requires buckets.Length == SPARK_BUCKETS && Holds(buckets[..], curIdx, at, cur)
      modifies this`curIdx, this`curStart, this`cur, buckets
      ensures Holds(buckets[..], curIdx, at, cur)
      ensures cur == old(cur) + adv && curStart == old(curStart) + adv * BUCKET_WIDTH
    {
      hide Holds;
      for n := 0 to adv
        invariant Holds(buckets[..], curIdx, at, cur)
        invariant cur == old(cur) + n && curStart == old(curStart) + n * BUCKET_WIDTH
      {
        Opened(buckets[..], curIdx, at, cur);
        ghost var next := (curIdx + 1) % SPARK_BUCKETS;
        ghost var after := buckets[..][next := 0];
        curIdx := (curIdx + 1) % SPARK_BUCKETS;
        buckets[curIdx] := 0;
        assert buckets[..] == after;
        curStart := curStart + BUCKET_WIDTH;
        cur := cur + 1;
      }
    }

    /** The buckets, oldest first: always the window of the last thirty, whatever times came in. */
    method Series() returns (out: seq<int>)
      requires Valid()
      ensures out == Window(at, cur) == SparkOf(times).window
    {
      var a := new int[SPARK_BUCKETS];
      for i := 0 to SPARK_BUCKETS
        invariant forall k :: 0 <= k < i ==> a[k] == Count(at, cur - (SPARK_BUCKETS - 1) + k)
      {
        assert (curIdx + 1 + i) % SPARK_BUCKETS == Cell(curIdx, SPARK_BUCKETS - 1 - i);
        assert buckets[..][Cell(curIdx, SPARK_BUCKETS - 1 - i)] == Count(at, cur - (SPARK_BUCKETS - 1 - i));
        a[i] := buckets[(curIdx + 1 + i) % SPARK_BUCKETS];
      }
      out := a[..];
    }
  }

  lemma BeforeCur(b: seq<int>, curIdx: nat, at: seq<int>, cur: int)
    requires Holds(b, curIdx, at, cur)
    ensures forall k :: 0 <= k < |at| ==> at[k] <= cur
  {
  }

  lemma IndexInRing(b: seq<int>, curIdx: nat, at: seq<int>, cur: int)
    requires Holds(b, curIdx, at, cur)
    ensures curIdx < |b|
  {
  }
}
