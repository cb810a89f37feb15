/** Resampling a series of timed values at equal steps. */
module Resampling {
  import opened Common

  const MAX_STATS_DATA_POINT_BUFFER_SIZE := 1000

  /** Times are whole milliseconds, values real numbers. */
  datatype DataPoint = DataPoint(time: int, value: real)

  /** The last points added. */
  function Buffered(added: seq<DataPoint>): seq<DataPoint> {
    if |added| <= MAX_STATS_DATA_POINT_BUFFER_SIZE then added
    else added[|added| - MAX_STATS_DATA_POINT_BUFFER_SIZE..]
  }

  /** The value of the last point strictly before `time`, or zero. */
  function LastBefore(points: seq<DataPoint>, time: real): real {
    if points == [] then 0.0
    else
      var last := |points| - 1;
      if points[last].time as real < time then points[last].value else LastBefore(points[..last], time)
  }

  ghost predicate Chronological(points: seq<DataPoint>) {
    forall i, j :: 0 <= i <= j < |points| ==> points[i].time <= points[j].time
  }

  // ------------------------------------------------------ the two pointers

  /** The next point to look at after those before `time` were passed. */
  function Pass(points: seq<DataPoint>, next: nat, time: real): (n: nat)
    requires next <= |points|
    ensures next <= n <= |points|
    ensures forall k :: next <= k < n ==> points[k].time as real < time
    ensures n < |points| ==> !(points[n].time as real < time)
    decreases |points| - next
  {
    if next < |points| && points[next].time as real < time then Pass(points, next + 1, time) else next
  }

  function ValueAt(points: seq<DataPoint>, next: nat): real
    requires next <= |points|
  {
    if next == 0 then 0.0 else points[next - 1].value
  }

  /** The values from the state with the next point `next`, at `time` and later. */
  function From(points: seq<DataPoint>, next: nat, time: real, stepSize: real, count: nat): (values: seq<real>)
    requires next <= |points|
    ensures |values| == count
    decreases count
  {
    if count == 0 then []
    else
      var n := Pass(points, next, time);
      [ValueAt(points, n)] + From(points, n, time + stepSize, stepSize, count - 1)
  }

  function Resampled(points: seq<DataPoint>, startTime: real, stepSize: real, count: nat): (values: seq<real>)
    ensures |values| == count
  {
    From(points, 0, startTime, stepSize, count)
  }

  lemma {:induction false} LastBeforeAt(points: seq<DataPoint>, n: nat, time: real)
    requires n <= |points|
    requires n > 0 ==> points[n - 1].time as real < time
    requires forall k :: n <= k < |points| ==> !(points[k].time as real < time)
    ensures LastBefore(points, time) == ValueAt(points, n)
  {
    if n < |points| {
      LastBeforeAt(points[..|points| - 1], n, time);
    }
  }

  /** The time of the value at index `i`. */
  function TimeAt(startTime: real, stepSize: real, i: nat): real {
    startTime + i as real * stepSize
  }

  lemma {:induction false} FromIsLastBefore(points: seq<DataPoint>, next: nat, time: real, stepSize: real, count: nat, i: nat)
    requires Chronological(points) && stepSize >= 0.0 && next <= |points| && i < count
    requires next > 0 ==> points[next - 1].time as real < time
    ensures From(points, next, time, stepSize, count)[i] == LastBefore(points, TimeAt(time, stepSize, i))
    decreases i
  {
    var n := Pass(points, next, time);
    if i == 0 {
      assert TimeAt(time, stepSize, 0) == time;
      LastBeforeAt(points, n, time);
    } else {
      FromIsLastBefore(points, n, time + stepSize, stepSize, count - 1, i - 1);
      StepOn(time, stepSize, i);
    }
  }

  lemma StepOn(time: real, stepSize: real, i: nat)
    requires i > 0
    ensures TimeAt(time + stepSize, stepSize, i - 1) == TimeAt(time, stepSize, i)
  {
    assert (i - 1) as real * stepSize == i as real * stepSize - stepSize;
  }

  /** With the points in order and time not going back, index `i` has the value of
      the last point strictly before its time. */
  lemma ResampledIsLastBefore(points: seq<DataPoint>, startTime: real, stepSize: real, count: nat, i: nat)
    requires Chronological(points) && stepSize >= 0.0 && i < count
    ensures Resampled(points, startTime, stepSize, count)[i] == LastBefore(points, TimeAt(startTime, stepSize, i))
  {
    FromIsLastBefore(points, 0, startTime, stepSize, count, i);
  }

  /** The buffer has at most 1000 points, as many as there are up to that, and they are
      the last ones. */
  lemma BufferedExactly(added: seq<DataPoint>)
    ensures |Buffered(added)| == if |added| < 1000 then |added| else 1000
    ensures forall k :: 0 <= k < |Buffered(added)| ==> Buffered(added)[k] == added[|added| - |Buffered(added)| + k]
  {
  }

  lemma BufferedChronological(added: seq<DataPoint>)
    requires Chronological(added)
    ensures Chronological(Buffered(added))
  {
  }

  // ------------------------------------------------- points added meanwhile

  ghost predicate AnyBefore(points: seq<DataPoint>, time: real) {
    exists i :: 0 <= i < |points| && points[i].time as real < time
  }

  lemma {:induction false} LastBeforeConcat(a: seq<DataPoint>, b: seq<DataPoint>, time: real)
    ensures LastBefore(a + b, time) == if AnyBefore(b, time) then LastBefore(b, time) else LastBefore(a, time)
    ensures !AnyBefore(a, time) ==> LastBefore(a, time) == 0.0
  {
    NoneBefore(a, time);
    if b == [] {
      assert a + b == a;
    } else {
      var last := |b| - 1;
      assert (a + b)[|a + b| - 1] == b[last] && (a + b)[..|a + b| - 1] == a + b[..last];
      LastBeforeConcat(a, b[..last], time);
      assert AnyBefore(b, time) <==> b[last].time as real < time || AnyBefore(b[..last], time);
    }
  }

  lemma {:induction false} NoneBefore(a: seq<DataPoint>, time: real)
    ensures !AnyBefore(a, time) ==> LastBefore(a, time) == 0.0
  {
    if a != [] && !AnyBefore(a, time) {
      assert forall i :: 0 <= i < |a| - 1 ==> a[..|a| - 1][i] == a[i];
      NoneBefore(a[..|a| - 1], time);
    }
  }

  /** Those of the points `a` that are still buffered when `b` were added. */
  function StillBuffered(a: seq<DataPoint>, b: seq<DataPoint>): seq<DataPoint> {
    var n := |a| + |b|;
    if n <= MAX_STATS_DATA_POINT_BUFFER_SIZE then a
    else if |b| >= MAX_STATS_DATA_POINT_BUFFER_SIZE then []
    else a[n - MAX_STATS_DATA_POINT_BUFFER_SIZE..]
  }

  lemma BufferedParts(a: seq<DataPoint>, b: seq<DataPoint>)
    ensures Buffered(a + b) == StillBuffered(a, b) + Buffered(b)
    ensures |StillBuffered(a, b)| <= |Buffered(a)|
    ensures var d := |Buffered(a)| - |StillBuffered(a, b)|; Buffered(a)[d..] == StillBuffered(a, b)
  {
  }

  /** The value at `time` is still that of the points `a` when `b` were added: the
      last new point before `time` has the same value; or there is none, and some of
      the old points before `time` are still buffered or the value was zero. */
  ghost predicate StillRightAt(a: seq<DataPoint>, b: seq<DataPoint>, time: real) {
    if AnyBefore(Buffered(b), time) then LastBefore(Buffered(b), time) == LastBefore(Buffered(a), time)
    else AnyBefore(StillBuffered(a, b), time) || LastBefore(Buffered(a), time) == 0.0
  }

  lemma StillRightExactlyWhen(a: seq<DataPoint>, b: seq<DataPoint>, time: real)
    ensures LastBefore(Buffered(a + b), time) == LastBefore(Buffered(a), time) <==> StillRightAt(a, b, time)
  {
    var kept, buffered := StillBuffered(a, b), Buffered(a);
    BufferedParts(a, b);
    var d := |buffered| - |kept|;
    assert buffered == buffered[..d] + kept;
    hide Buffered, StillBuffered;
    LastBeforeConcat(kept, Buffered(b), time);
    LastBeforeConcat(buffered[..d], kept, time);
  }

  /** Values computed before the points `b` were added are those computed after
      exactly when they are still right at every sampled time. */
  lemma CachedValuesRightExactlyWhen(a: seq<DataPoint>, b: seq<DataPoint>, startTime: real, stepSize: real, count: nat)
    requires Chronological(a + b) && stepSize >= 0.0
    ensures Resampled(Buffered(a), startTime, stepSize, count) == Resampled(Buffered(a + b), startTime, stepSize, count) <==>
            forall i: nat :: i < count ==> StillRightAt(a, b, TimeAt(startTime, stepSize, i))
  {
    assert Chronological(a) by {
      assert forall i :: 0 <= i < |a| ==> a[i] == (a + b)[i];
    }
    BufferedChronological(a);
    BufferedChronological(a + b);
    hide Buffered, Chronological;
    var was, now := Resampled(Buffered(a), startTime, stepSize, count), Resampled(Buffered(a + b), startTime, stepSize, count);
    forall i: nat | i < count
      ensures was[i] == now[i] <==> StillRightAt(a, b, TimeAt(startTime, stepSize, i))
    {
      ResampledIsLastBefore(Buffered(a), startTime, stepSize, count, i);
      ResampledIsLastBefore(Buffered(a + b), startTime, stepSize, count, i);
      StillRightExactlyWhen(a, b, TimeAt(startTime, stepSize, i));
    }
    hide Resampled, StillRightAt;
  }

  /** For one point more, and none dropped: it is at or after every sampled time, or
      has the value that was there. */
  lemma OnePointMore(a: seq<DataPoint>, p: DataPoint, time: real)
    requires |a| < MAX_STATS_DATA_POINT_BUFFER_SIZE
    ensures StillRightAt(a, [p], time) <==> p.time as real >= time || p.value == LastBefore(a, time)
  {
    assert Buffered([p]) == [p] && Buffered(a) == a;
    NoneBefore(a, time);
    assert [p][..0] == [];
    assert AnyBefore([p], time) <==> [p][0].time as real < time;
  }
}
