/**
 * The sliding-window metrics collector (server/metrics.py): a queue of
 * request samples ordered by arrival, from which every sample older than
 * the window is dropped at the front, and a snapshot that aggregates what
 * remains. The clock is a parameter (`now` is `time.time()` at the call);
 * floating-point values are modelled as exact reals.
 */
module Metrics {
  /** One served request. */
  datatype MetricSample = MetricSample(timestamp: real, latencyMs: real, bytesIn: int, bytesOut: int)

  /** The aggregates `snapshot` reports. */
  datatype Snapshot = Snapshot(
    windowSeconds: int,
    sampleCount: nat,
    latencyMsAvg: real,
    latencyMsMax: real,
    latencyMsMin: real,
    rttMsAvg: real,
    throughputKbps: real,
    requestsPerSec: real)

  const DefaultWindowSeconds: int := 60

  /** The shortest span a snapshot divides by, so that it never divides by zero. */
  const MinSpan: real := 0.000001

  /** Timestamps never decrease from front to back. */
  predicate Ordered(samples: seq<MetricSample>) {
    forall i, j :: 0 <= i < j < |samples| ==> samples[i].timestamp <= samples[j].timestamp
  }

  /** What trimming leaves: the front samples older than `cutoff` dropped, one by one, up to the first that is not. */
  function Retained(samples: seq<MetricSample>, cutoff: real): (r: seq<MetricSample>)
    ensures |r| <= |samples| && r == samples[|samples| - |r|..]
    ensures forall i :: 0 <= i < |samples| - |r| ==> samples[i].timestamp < cutoff
    ensures r == [] || r[0].timestamp >= cutoff
  {
    if samples != [] && samples[0].timestamp < cutoff then Retained(samples[1..], cutoff) else samples
  }

  /** For time-ordered samples, trimming keeps the order and keeps only samples inside the window. */
  lemma RetainedInWindow(samples: seq<MetricSample>, cutoff: real)
    requires Ordered(samples)
    ensures Ordered(Retained(samples, cutoff))
    ensures forall i :: 0 <= i < |Retained(samples, cutoff)| ==> Retained(samples, cutoff)[i].timestamp >= cutoff
  {
    var r := Retained(samples, cutoff);
    var k := |samples| - |r|;
    forall i | 0 <= i < |r|
      ensures r[i].timestamp >= cutoff
    {
      assert r[i] == samples[k + i] && r[0] == samples[k];
    }
  }

  /** Trimming never drops a sample at or after the cutoff that is the last one. */
  lemma {:induction false} RetainedKeepsLast(samples: seq<MetricSample>, cutoff: real)
    requires samples != [] && samples[|samples| - 1].timestamp >= cutoff
    ensures Retained(samples, cutoff) != []
    ensures Retained(samples, cutoff)[|Retained(samples, cutoff)| - 1] == samples[|samples| - 1]
    decreases |samples|
  {
    if samples[0].timestamp < cutoff {
      assert |samples| > 1;
      RetainedKeepsLast(samples[1..], cutoff);
    }
  }

  /** The sample `record` appends. */
  function Stamp(now: real, latencyMs: real, bytesIn: int, bytesOut: int): MetricSample {
    MetricSample(now, latencyMs, bytesIn, bytesOut)
  }

  /** Recording with a non-negative window keeps the new sample, as the last one. */
  lemma RecordKeepsNewSample(samples: seq<MetricSample>, sample: MetricSample, window: int)
    requires window >= 0
    ensures var r := Retained(samples + [sample], sample.timestamp - window as real);
      r != [] && r[|r| - 1] == sample
  {
    RetainedKeepsLast(samples + [sample], sample.timestamp - window as real);
  }

  /** A sample no older than the last keeps a time-ordered queue time-ordered. */
  lemma OrderedSnoc(samples: seq<MetricSample>, sample: MetricSample)
    requires Ordered(samples)
    requires samples == [] || samples[|samples| - 1].timestamp <= sample.timestamp
    ensures Ordered(samples + [sample])
  {
    var all := samples + [sample];
    forall i, j | 0 <= i < j < |all|
      ensures all[i].timestamp <= all[j].timestamp
    {
      if j < |samples| {
        assert all[i] == samples[i] && all[j] == samples[j];
      } else if i < |samples| - 1 {
        assert all[i] == samples[i] && samples[i].timestamp <= samples[|samples| - 1].timestamp;
      }
    }
  }

  /**
   * When the clock has not gone back, recording keeps the queue
   * time-ordered and every sample in it inside the window.
   */
  lemma RecordKeepsOrder(samples: seq<MetricSample>, sample: MetricSample, window: int)
    requires Ordered(samples)
    requires samples == [] || samples[|samples| - 1].timestamp <= sample.timestamp
    ensures var r := Retained(samples + [sample], sample.timestamp - window as real);
      Ordered(r) && forall i :: 0 <= i < |r| ==> r[i].timestamp >= sample.timestamp - window as real
  {
    var all := samples + [sample];
    OrderedSnoc(samples, sample);
    RetainedInWindow(all, sample.timestamp - window as real);
  }

  // ---------------------------------------------------------------------------
  // Aggregates

  function TotalLatency(samples: seq<MetricSample>): real {
    if samples == [] then 0.0 else TotalLatency(samples[..|samples| - 1]) + samples[|samples| - 1].latencyMs
  }

  function TotalBytesOut(samples: seq<MetricSample>): int {
    if samples == [] then 0 else TotalBytesOut(samples[..|samples| - 1]) + samples[|samples| - 1].bytesOut
  }

  /** `max(s.latency_ms for s in samples)`: the largest latency, which some sample has. */
  function MaxLatency(samples: seq<MetricSample>): (m: real)
    requires samples != []
    ensures forall i :: 0 <= i < |samples| ==> samples[i].latencyMs <= m
    ensures exists i :: 0 <= i < |samples| && samples[i].latencyMs == m
  {
    if |samples| == 1 then samples[0].latencyMs
    else
      var rest := MaxLatency(samples[1..]);
      assert forall i :: 1 <= i < |samples| ==> samples[i] == samples[1..][i - 1];
      if samples[0].latencyMs >= rest then samples[0].latencyMs else rest
  }

  /** `min(s.latency_ms for s in samples)`: the smallest latency, which some sample has. */
  function MinLatency(samples: seq<MetricSample>): (m: real)
    requires samples != []
    ensures forall i :: 0 <= i < |samples| ==> m <= samples[i].latencyMs
    ensures exists i :: 0 <= i < |samples| && samples[i].latencyMs == m
  {
    if |samples| == 1 then samples[0].latencyMs
    else
      var rest := MinLatency(samples[1..]);
      assert forall i :: 1 <= i < |samples| ==> samples[i] == samples[1..][i - 1];
      if samples[0].latencyMs <= rest then samples[0].latencyMs else rest
  }

  /** A total lies between the count times any lower bound and the count times any upper bound. */
  lemma {:induction false} TotalLatencyBounds(samples: seq<MetricSample>, lo: real, hi: real)
    requires forall i :: 0 <= i < |samples| ==> lo <= samples[i].latencyMs <= hi
    ensures |samples| as real * lo <= TotalLatency(samples) <= |samples| as real * hi
    decreases |samples|
  {
    if samples != [] {
      var init := samples[..|samples| - 1];
      assert forall i :: 0 <= i < |init| ==> init[i] == samples[i];
      TotalLatencyBounds(init, lo, hi);
    }
  }

  /** A total between `n * lo` and `n * hi` has its mean between `lo` and `hi`. */
  lemma MeanBetween(total: real, n: real, lo: real, hi: real)
    requires n > 0.0 && n * lo <= total <= n * hi
    ensures lo <= total / n <= hi && (total / n) * n == total
  {
    var m := total / n;
    assert m * n == total;
  }

  /** The time the retained samples cover, never less than `MinSpan`. */
  function Span(samples: seq<MetricSample>): (span: real)
    requires samples != []
    ensures span > 0.0
    ensures span >= samples[|samples| - 1].timestamp - samples[0].timestamp
    ensures span >= MinSpan
    ensures span == MinSpan || span == samples[|samples| - 1].timestamp - samples[0].timestamp
  {
    var d := samples[|samples| - 1].timestamp - samples[0].timestamp;
    if d > MinSpan then d else MinSpan
  }

  /**
   * The snapshot of the retained samples: all zeros for none; otherwise the
   * aggregates of `Aggregate`.
   */
  function Summary(samples: seq<MetricSample>, window: int): (snap: Snapshot)
    ensures snap.windowSeconds == window && snap.sampleCount == |samples|
    ensures snap.rttMsAvg == snap.latencyMsAvg
    ensures samples == [] ==> snap == Snapshot(window, 0, 0.0, 0.0, 0.0, 0.0, 0.0, 0.0)
    ensures samples != [] ==> snap.latencyMsMin <= snap.latencyMsAvg <= snap.latencyMsMax
    ensures samples != [] ==> snap.latencyMsMax == MaxLatency(samples) && snap.latencyMsMin == MinLatency(samples)
    ensures samples != [] ==> snap.latencyMsAvg == TotalLatency(samples) / |samples| as real
    ensures samples != [] ==> snap.throughputKbps == TotalBytesOut(samples) as real / 1024.0 / Span(samples)
    ensures samples != [] ==> snap.requestsPerSec == |samples| as real / Span(samples)
  {
    if samples == [] then Snapshot(window, 0, 0.0, 0.0, 0.0, 0.0, 0.0, 0.0)
    else Aggregate(samples, window)
  }

  /**
   * The aggregates of a non-empty window: the mean latency (which lies
   * between the extremes, see `MeanLatencyBounds`), the extremes, and the
   * kilobytes sent and the requests served per second of the span.
   */
  function Aggregate(samples: seq<MetricSample>, window: int): (snap: Snapshot)
    requires samples != []
    ensures snap.windowSeconds == window && snap.sampleCount == |samples|
    ensures snap.rttMsAvg == snap.latencyMsAvg
    ensures snap.latencyMsMin <= snap.latencyMsAvg <= snap.latencyMsMax
    ensures snap.latencyMsMax == MaxLatency(samples) && snap.latencyMsMin == MinLatency(samples)
    ensures snap.latencyMsAvg == TotalLatency(samples) / |samples| as real
    ensures snap.throughputKbps == TotalBytesOut(samples) as real / 1024.0 / Span(samples)
    ensures snap.requestsPerSec == |samples| as real / Span(samples)
  {
    var count := |samples|;
    var avg := MeanLatency(samples);
    var span := Span(samples);
    Snapshot(window, count, avg, MaxLatency(samples), MinLatency(samples), avg,
      TotalBytesOut(samples) as real / 1024.0 / span, count as real / span)
  }

  /** The mean latency: the total over the count, between the smallest and the largest latency. */
  function MeanLatency(samples: seq<MetricSample>): (avg: real)
    requires samples != []
    ensures MinLatency(samples) <= avg <= MaxLatency(samples)
  {
    MeanLatencyBounds(samples, MinLatency(samples), MaxLatency(samples));
    TotalLatency(samples) / |samples| as real
  }

  /** The total latency over the count lies between any bounds of the latencies. */
  lemma MeanLatencyBounds(samples: seq<MetricSample>, lo: real, hi: real)
    requires samples != []
    requires forall i :: 0 <= i < |samples| ==> lo <= samples[i].latencyMs <= hi
    ensures var mean := TotalLatency(samples) / |samples| as real;
      lo <= mean <= hi && mean * |samples| as real == TotalLatency(samples)
  {
    var n, total := |samples| as real, TotalLatency(samples);
    assert n * lo <= total <= n * hi by {
      TotalLatencyBounds(samples, lo, hi);
    }
    MeanBetween(total, n, lo, hi);
  }

  class MetricsCollector {
    const windowSeconds: int
    var samples: seq<MetricSample>

    constructor (windowSeconds: int := DefaultWindowSeconds)
      ensures this.windowSeconds == windowSeconds && samples == []
    {
      this.windowSeconds := windowSeconds;
      samples := [];
    }

    /** `_trim_locked`: drops front samples older than `now - windowSeconds`. */
    method Trim(now: real)
      modifies this
      ensures samples == Retained(old(samples), now - windowSeconds as real)
    {
      var cutoff := now - windowSeconds as real;
      var rest := samples;
      while rest != [] && rest[0].timestamp < cutoff
        invariant Retained(rest, cutoff) == Retained(samples, cutoff)
        decreases |rest|
      {
        rest := rest[1..];
      }
      samples := rest;
    }

    /** `record`: appends one sample stamped `now`, then trims. */
    method Record(now: real, latencyMs: real, bytesIn: int, bytesOut: int)
      modifies this
      ensures samples == Retained(old(samples) + [Stamp(now, latencyMs, bytesIn, bytesOut)], now - windowSeconds as real)
    {
      samples := samples + [Stamp(now, latencyMs, bytesIn, bytesOut)];
      Trim(now);
    }

    /** `snapshot`: trims, then reports the aggregates of what is left. */
    method TakeSnapshot(now: real) returns (snap: Snapshot)
      modifies this
      ensures samples == Retained(old(samples), now - windowSeconds as real)
      ensures snap == Summary(samples, windowSeconds)
    {
      Trim(now);
      snap := Summary(samples, windowSeconds);
    }
  }
}
