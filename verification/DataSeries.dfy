/** A data series that buffers points, and caches the last values asked for. */
module DataSeries {
  import opened Common
  import opened Resampling

  class TimelineDataSeries {
    var dataPoints: seq<DataPoint>
    var hasCache: bool
    var cacheStartTime: real
    var cacheStepSize: real
    var cacheValues: seq<real>
    ghost var added: seq<DataPoint>      // all points ever added
    ghost var addedThen: seq<DataPoint>  // those that were when the cached values were computed

    ghost predicate Valid()
      reads this
    {
      && dataPoints == Buffered(added)
      && addedThen <= added
      && (hasCache ==> cacheValues == Resampled(Buffered(addedThen), cacheStartTime, cacheStepSize, |cacheValues|))
    }

    constructor ()
      ensures Valid() && added == [] && !hasCache
    {
      dataPoints, added, hasCache, cacheStartTime, cacheStepSize, cacheValues := [], [], false, 0.0, 0.0, [];
      addedThen := [];
    }

    method AddPoint(timeTicks: real, value: real)
      requires Valid()
      modifies this`dataPoints, this`added
      ensures Valid() && added == old(added) + [DataPoint(Trunc(timeTicks), value)]
    {
      var point := DataPoint(Trunc(timeTicks), value);
      dataPoints := dataPoints + [point];
      added := added + [point];
      if |dataPoints| > MAX_STATS_DATA_POINT_BUFFER_SIZE {
        dataPoints := dataPoints[1..];
      }
    }

    ghost predicate CacheHit(startTime: real, stepSize: real, count: nat)
      reads this
    {
      hasCache && cacheStartTime == startTime && cacheStepSize == stepSize && |cacheValues| == count
    }

    /** The values are those of the points buffered when they were last computed;
        points added since then count only when the arguments change.  For points in
        order the answer is that of the present points exactly when those added since
        do not matter at any sampled time. */
    method GetValues(startTime: real, stepSize: real, count: nat) returns (values: seq<real>)
      requires Valid()
      modifies this`hasCache, this`cacheStartTime, this`cacheStepSize, this`cacheValues, this`addedThen
      ensures Valid() && CacheHit(startTime, stepSize, count)
      ensures addedThen == if old(CacheHit(startTime, stepSize, count)) then old(addedThen) else added
      ensures values == Resampled(Buffered(addedThen), startTime, stepSize, count)
      ensures Chronological(added) && stepSize >= 0.0 ==>
                (values == Resampled(dataPoints, startTime, stepSize, count) <==>
                 forall i: nat :: i < count ==>
                   StillRightAt(addedThen, added[|addedThen|..], TimeAt(startTime, stepSize, i)))
    {
      values := CachedValues(startTime, stepSize, count);
      if Chronological(added) && stepSize >= 0.0 {
        assert addedThen + added[|addedThen|..] == added;
        CachedValuesRightExactlyWhen(addedThen, added[|addedThen|..], startTime, stepSize, count);
      }
    }

    method CachedValues(startTime: real, stepSize: real, count: nat) returns (values: seq<real>)
      requires Valid()
      modifies this`hasCache, this`cacheStartTime, this`cacheStepSize, this`cacheValues, this`addedThen
      ensures Valid() && CacheHit(startTime, stepSize, count)
      ensures addedThen == if old(CacheHit(startTime, stepSize, count)) then old(addedThen) else added
      ensures values == Resampled(Buffered(addedThen), startTime, stepSize, count)
    {
      if hasCache && cacheStartTime == startTime && cacheStepSize == stepSize && |cacheValues| == count {
        return cacheValues;
      }
      cacheValues := GetValuesInternal(startTime, stepSize, count);
      hasCache, cacheStartTime, cacheStepSize := true, startTime, stepSize;
      addedThen := added;
      return cacheValues;
    }

    method GetValuesInternal(startTime: real, stepSize: real, count: nat) returns (values: seq<real>)
      ensures values == Resampled(dataPoints, startTime, stepSize, count)
    {
      values := [];
      var nextPoint: nat, currentValue: real, time: real := 0, 0.0, startTime;
      for i := 0 to count
        invariant nextPoint <= |dataPoints| && currentValue == ValueAt(dataPoints, nextPoint)
        invariant values + From(dataPoints, nextPoint, time, stepSize, count - i) ==
                  Resampled(dataPoints, startTime, stepSize, count)
      {
        ghost var first := nextPoint;
        nextPoint, currentValue := PassPoints(nextPoint, currentValue, time);
        assert From(dataPoints, first, time, stepSize, count - i) ==
               [currentValue] + From(dataPoints, nextPoint, time + stepSize, stepSize, count - i - 1);
        values := values + [currentValue];
        time := time + stepSize;
      }
    }

    method PassPoints(next: nat, value: real, time: real) returns (nextPoint: nat, currentValue: real)
      requires next <= |dataPoints| && value == ValueAt(dataPoints, next)
      ensures nextPoint == Pass(dataPoints, next, time) && currentValue == ValueAt(dataPoints, nextPoint)
    {
      nextPoint, currentValue := next, value;
      while nextPoint < |dataPoints| && dataPoints[nextPoint].time as real < time
        invariant next <= nextPoint <= |dataPoints| && currentValue == ValueAt(dataPoints, nextPoint)
        invariant Pass(dataPoints, nextPoint, time) == Pass(dataPoints, next, time)
      {
        currentValue := dataPoints[nextPoint].value;
        nextPoint := nextPoint + 1;
      }
    }
  }

  /** Asking again after a point was added: the second answer is the first one, and
      not that of the points there are. */
  method StaleValues() returns (series: TimelineDataSeries, values: seq<real>)
    ensures fresh(series) && series.Valid() && Chronological(series.added) && series.added == [DataPoint(0, 1.0)]
    ensures values == Resampled([], 0.0, 1.0, 2) && values != Resampled(series.dataPoints, 0.0, 1.0, 2)
  {
    PointCounts();
    hide Resampled;
    series := new TimelineDataSeries();
    values := series.GetValues(0.0, 1.0, 2);
    series.AddPoint(0.0, 1.0);
    values := series.GetValues(0.0, 1.0, 2);
  }

  lemma PointCounts()
    ensures Trunc(0.0) == 0 && Buffered([]) == [] && Buffered([DataPoint(0, 1.0)]) == [DataPoint(0, 1.0)]
    ensures Resampled([], 0.0, 1.0, 2) != Resampled([DataPoint(0, 1.0)], 0.0, 1.0, 2)
  {
    ResampledIsLastBefore([], 0.0, 1.0, 2, 1);
    ResampledIsLastBefore([DataPoint(0, 1.0)], 0.0, 1.0, 2, 1);
  }
}
