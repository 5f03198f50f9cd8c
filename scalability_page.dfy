/**
 * The scalability page: how long each live stream has run, and the load
 * status drawn from the stream count and the server's CPU and memory probes.
 */
module ScalabilityPage {
  import opened Common
  import opened Numbers
  import opened Clock
  import StreamTracker

  /** Dividing by 1000 and then by 60 is dividing by 60000, and so on up to the hour. */
  lemma MillisecondDivisions(ms: nat)
    ensures ms / 1000 / 60 == ms / 60000
    ensures ms / 60000 / 60 == ms / 3600000
  {
    var q, r := ms / 1000, ms % 1000;
    var q2, r2 := q / 60, q % 60;
    assert ms == 60000 * q2 + (1000 * r2 + r);
    var p, t := ms / 60000, ms % 60000;
    var p2, t2 := p / 60, p % 60;
    assert ms == 3600000 * p2 + (60000 * t2 + t);
  }

  /**
   * formatDuration(ms): "Hh Mm" from an hour on, with the minutes past the
   * hour; "Mm Ss" below, with the seconds past the minute.
   */
  function FormatDuration(ms: int): (r: string)
    ensures ms >= 3600000 ==> ReadFields(r, ' ') == [Some(ms / 3600000), Some(ms / 60000 % 60)]
    ensures 0 <= ms < 3600000 ==> ReadFields(r, ' ') == [Some(ms / 60000), Some(ms / 1000 % 60)]
  {
    var seconds := ms / 1000;
    var minutes := seconds / 60;
    var hours := minutes / 60;
    LongRead(ms);
    ShortRead(ms);
    if hours > 0 then Unit(hours, 'h') + " " + Unit(JsRem(minutes, 60), 'm')
    else Unit(minutes, 'm') + " " + Unit(JsRem(seconds, 60), 's')
  }

  lemma LongRead(ms: int)
    ensures ms >= 3600000 ==>
      ReadFields(Unit(ms / 1000 / 60 / 60, 'h') + " " + Unit(JsRem(ms / 1000 / 60, 60), 'm'), ' ') == [Some(ms / 3600000), Some(ms / 60000 % 60)]
  {
    if ms >= 3600000 {
      MillisecondDivisions(ms);
      TwoUnitsRead(ms / 3600000, 'h', ms / 60000 % 60, 'm');
    }
  }

  lemma ShortRead(ms: int)
    ensures 0 <= ms < 3600000 ==>
      ReadFields(Unit(ms / 1000 / 60, 'm') + " " + Unit(JsRem(ms / 1000, 60), 's'), ' ') == [Some(ms / 60000), Some(ms / 1000 % 60)]
  {
    if 0 <= ms < 3600000 {
      MillisecondDivisions(ms);
      TwoUnitsRead(ms / 60000, 'm', ms / 1000 % 60, 's');
    }
  }

  /** The hour form holds the whole minutes a stream has run, the short form its whole seconds. */
  lemma FormatDurationReadsBack(ms: nat)
    ensures ms >= 3600000 ==> Base60(0, ReadFields(FormatDuration(ms), ' ')) == Some(ms / 60000)
    ensures ms < 3600000 ==> Base60(0, ReadFields(FormatDuration(ms), ' ')) == Some(ms / 1000)
  {
    var f := ReadFields(FormatDuration(ms), ' ');
    MillisecondDivisions(ms);
    if ms >= 3600000 {
      var p := ms / 60000;
      assert f == [Some(p / 60), Some(p % 60)];
      PairDenotes(f, p / 60, p % 60, p);
    } else {
      var q := ms / 1000;
      assert f == [Some(q / 60), Some(q % 60)];
      PairDenotes(f, q / 60, q % 60, q);
    }
  }

  // ---------------------------------------------------------------- load status

  /** The OS probes of GET /api/stats, in percent. */
  datatype Probes = Probes(cpuUsage: real, memoryUsage: real)

  datatype Status = Unknown | High | Medium | Low

  /** `active / limit > t`; a zero limit divides to Infinity, or to NaN when nothing is active. */
  predicate StreamLoadAbove(active: nat, limit: nat, t: real) {
    if limit > 0 then (active as real) / (limit as real) > t else active > 0
  }

  /** Some load, out of 1, exceeds t. */
  predicate AnyLoadAbove(a: StreamTracker.StreamAnalytics, p: Probes, t: real) {
    || StreamLoadAbove(a.activeStreams, a.totalConcurrentLimit, t)
    || p.cpuUsage / 100.0 > t
    || p.memoryUsage / 100.0 > t
  }

  /** getPerformanceStatus. */
  function PerformanceStatus(analytics: Option<StreamTracker.StreamAnalytics>, probes: Option<Probes>): (r: Status)
    ensures r == Unknown <==> analytics.None? || probes.None?
    ensures r == High <==> analytics.Some? && probes.Some? && AnyLoadAbove(analytics.value, probes.value, 0.8)
    ensures r == Low <==> analytics.Some? && probes.Some? && !AnyLoadAbove(analytics.value, probes.value, 0.6)
  {
    if analytics.None? || probes.None? then Unknown
    else if AnyLoadAbove(analytics.value, probes.value, 0.8) then High
    else if AnyLoadAbove(analytics.value, probes.value, 0.6) then Medium
    else Low
  }

  function Rank(s: Status): int {
    match s
    case Unknown => -1
    case Low => 0
    case Medium => 1
    case High => 2
  }

  /** Raising the stream count, the CPU load or the memory load never lowers the status. */
  lemma StatusMonotone(a: StreamTracker.StreamAnalytics, p: Probes, a': StreamTracker.StreamAnalytics, p': Probes)
    requires a'.totalConcurrentLimit == a.totalConcurrentLimit && a'.activeStreams >= a.activeStreams
    requires p'.cpuUsage >= p.cpuUsage && p'.memoryUsage >= p.memoryUsage
    ensures Rank(PerformanceStatus(Some(a), Some(p))) <= Rank(PerformanceStatus(Some(a'), Some(p')))
  {
    StreamLoadGrows(a.activeStreams, a'.activeStreams, a.totalConcurrentLimit, 0.8);
    StreamLoadGrows(a.activeStreams, a'.activeStreams, a.totalConcurrentLimit, 0.6);
  }

  lemma StreamLoadGrows(active: nat, active': nat, limit: nat, t: real)
    requires active <= active' && t >= 0.0
    ensures StreamLoadAbove(active, limit, t) ==> StreamLoadAbove(active', limit, t)
  {
    if limit > 0 {
      var l := limit as real;
      assert (active as real) / l <= (active' as real) / l by {
        assert (active' as real) / l - (active as real) / l == ((active' - active) as real) / l;
      }
    }
  }

  /** Against the fixed limit of 250 streams, load is high above 200 streams and medium above 150. */
  lemma StreamThresholds(active: nat)
    ensures StreamLoadAbove(active, StreamTracker.TotalConcurrentLimit, 0.8) <==> active > 200
    ensures StreamLoadAbove(active, StreamTracker.TotalConcurrentLimit, 0.6) <==> active > 150
  {
    var x := active as real;
    assert x / 250.0 * 250.0 == x;
  }
}
