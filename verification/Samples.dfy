/** The values the metrics store holds: src/store/types.rs.  Instants are milliseconds; values are reals. */
module Samples {
  datatype MetricType = Gauge | Counter

  datatype AggregationType = Avg | Max | Min | Median | Last

  datatype LabeledSample = LabeledSample(value: real, scrapedAt: nat, success: bool, metricType: MetricType)

  datatype SampleKey = SampleKey(namespace: string, epaName: string, metricName: string, podName: string)

  datatype CacheKey = CacheKey(namespace: string, epaName: string, metricName: string)

  datatype CachedAggregation = CachedAggregation(value: real, computedAt: nat, ttl: nat)
  {
    predicate IsValid(now: nat) {
      (if computedAt <= now then now - computedAt else 0) < ttl
    }
  }
}
