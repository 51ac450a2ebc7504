/** check_io.py: two snapshots of the disk counters per device, wraparound, three threshold tests
    on one running status, and the fold of all devices into the exit status. */
module DiskIo {
  import opened Text

  /** `sys.maxsize` on a 64-bit machine. */
  const MAXSIZE := 0x7fff_ffff_ffff_ffff

  /** A line of the counter file: the device's name and its counters from the fourth column on. */
  datatype Row = Row(name: string, counters: seq<int>)

  datatype Limits = Limits(averagingPeriod: int, sreadWarn: Option<int>, sreadCrit: Option<int>,
                           swriteWarn: Option<int>, swriteCrit: Option<int>,
                           utilWarn: int, utilCrit: int)

  const SECTORS_READ := 2
  const SECTORS_WRITTEN := 6
  const MS_BUSY := 9

  // ---------- Counters ----------

  /** Lines 106-113: a negative difference is taken for one wraparound. */
  function Corrected(first: int, second: int): int
  {
    if second - first < 0 then second - first + MAXSIZE else second - first
  }

  /** The corrected difference is the true increase exactly when the counter did not wrap between
      the snapshots or wraps at `sys.maxsize`; otherwise it is off by the difference. */
  lemma WraparoundUndone(before: nat, after: nat, modulus: nat)
    requires modulus > 0 && before <= after && after - before < modulus
    ensures var wrapped := after % modulus < before % modulus;
            var delta := Corrected(before % modulus, after % modulus);
            && (delta == after - before <==> !wrapped || modulus == MAXSIZE)
            && (wrapped ==> delta == after - before + MAXSIZE - modulus)
  {
    var q, r := before / modulus, before % modulus;
    var d := after - before;
    assert before == q * modulus + r;
    if r + d < modulus {
      Remainder(after, q, r + d, modulus);
    } else {
      assert after == (q + 1) * modulus + (r + d - modulus);
      Remainder(after, q + 1, r + d - modulus, modulus);
    }
  }

  /** A 32-bit counter that goes from 2^32 - 1 through zero to 4 has grown by 5, not by what is reported. */
  lemma NarrowCounterMisread()
    ensures Corrected(4294967295, 4294967300 % 4294967296) == MAXSIZE - 4294967291 != 5
  {}

  lemma Remainder(n: int, q: int, r: int, m: int)
    requires 0 <= r < m && n == q * m + r
    ensures n % m == r
  {
    var q', r' := n / m, n % m;
    var k := q' - q;
    assert k * m == r - r' by {
      assert n == q' * m + r';
      assert (q' - q) * m == q' * m - q * m;
    }
    if k >= 1 { MultipleAtLeast(k, m); } else if k <= -1 { MultipleAtLeast(-k, m); }
  }

  lemma MultipleAtLeast(k: int, m: int)
    requires k >= 1 && m >= 1
    ensures k * m >= m && (-k) * m <= -m
  {}

  // ---------- Severity of one device ----------

  /** How many of the two limits are exceeded: 0 fine, 1 warning, 2 critical. */
  function Exceeded(value: real, warn: int, crit: int): int
  {
    (if value > warn as real then 1 else 0) + (if value > crit as real then 1 else 0)
  }

  function Utilization(busy: int, period: int): real
    requires period > 0
  {
    (100 * busy) as real / (1000 * period) as real
  }

  /** Thresholds as line 264-278 accept them, after the argument types did. */
  predicate AcceptedLimits(l: Limits)
  {
    && l.averagingPeriod > 0
    && 0 < l.utilWarn < l.utilCrit < 100
    && ((l.sreadWarn.Some? && l.sreadCrit.Some? && l.swriteWarn.Some? && l.swriteCrit.Some?
         && 0 < l.sreadWarn.value < l.sreadCrit.value && 0 < l.swriteWarn.value < l.swriteCrit.value)
        || (l.sreadWarn.None? && l.sreadCrit.None? && l.swriteWarn.None? && l.swriteCrit.None?))
  }

  /** The worst of the enabled tests. */
  function Severity(l: Limits, first: seq<int>, second: seq<int>): int
    requires AcceptedLimits(l) && |first| > MS_BUSY && |second| > MS_BUSY
  {
    var read := Corrected(first[SECTORS_READ], second[SECTORS_READ]);
    var write := Corrected(first[SECTORS_WRITTEN], second[SECTORS_WRITTEN]);
    var busy := Utilization(Corrected(first[MS_BUSY], second[MS_BUSY]), l.averagingPeriod);
    var util := Exceeded(busy, l.utilWarn, l.utilCrit);
    if l.sreadCrit.None? then util
    else Max(util, Max(Exceeded(read as real, l.sreadWarn.value, l.sreadCrit.value),
                       Exceeded(write as real, l.swriteWarn.value, l.swriteCrit.value)))
  }

  /** What a device contributes: its severity, 3 without two samples, nothing (an exception) when a
      counter is missing. */
  function DeviceStatus(l: Limits, samples: seq<seq<int>>): Option<int>
    requires AcceptedLimits(l)
  {
    if |samples| < 2 then Some(3)
    else if |samples[0]| <= MS_BUSY || |samples[1]| <= MS_BUSY then None
    else Some(Severity(l, samples[0], samples[1]))
  }

  class Device {
    const name: string
    const limits: Limits
    var performanceData: seq<seq<int>>

    constructor (name: string, limits: Limits)
      ensures this.name == name && this.limits == limits && performanceData == []
    {
      this.name, this.limits, performanceData := name, limits, [];
    }

    method AddPerformanceData(data: seq<int>)
      modifies this
      ensures performanceData == old(performanceData) + [data]
    {
      performanceData := performanceData + [data];
    }

    /** Lines 102-142. */
    method CheckLimits() returns (status: Option<int>)
      requires AcceptedLimits(limits)
      ensures status == DeviceStatus(limits, performanceData)
    {
      if |performanceData| < 2 { return Some(3); }
      if |performanceData[1]| <= MS_BUSY || |performanceData[0]| <= MS_BUSY { return None; }
      var sread := performanceData[1][SECTORS_READ] - performanceData[0][SECTORS_READ];
      var swrite := performanceData[1][SECTORS_WRITTEN] - performanceData[0][SECTORS_WRITTEN];
      var tbusy := performanceData[1][MS_BUSY] - performanceData[0][MS_BUSY];
      if sread < 0 { sread := sread + MAXSIZE; }
      if swrite < 0 { swrite := swrite + MAXSIZE; }
      if tbusy < 0 { tbusy := tbusy + MAXSIZE; }
      var s := 0;
      if limits.sreadCrit.Some? {
        if sread > limits.sreadCrit.value {
          s := 2;
        } else if sread > limits.sreadWarn.value {
          if s < 1 { s := 1; }
        }
        if swrite > limits.swriteCrit.value {
          s := 2;
        } else if swrite > limits.swriteWarn.value {
          if s < 1 { s := 1; }
        }
      }
      var tmp := (100 * tbusy) as real / (1000 * limits.averagingPeriod) as real;
      if tmp > limits.utilCrit as real {
        s := 2;
      } else if tmp > limits.utilWarn as real {
        if s < 1 { s := 1; }
      }
      return Some(s);
    }
  }

  // ---------- The status in the script's own terms ----------

  /** By how much a counter went up, a decrease being taken for one wraparound. */
  function Rise(first: seq<int>, second: seq<int>, column: nat): int
    requires column < |first| && column < |second|
  {
    if second[column] >= first[column] then second[column] - first[column]
    else second[column] - first[column] + 0x7fff_ffff_ffff_ffff
  }

  /** The device read, wrote or was busy more than one of its limits allows: busy in milliseconds, its limit
      in per cent of the period in seconds. */
  predicate Exceeds(read: Option<int>, write: Option<int>, util: int, period: int, first: seq<int>, second: seq<int>)
    requires |first| >= 10 && |second| >= 10
  {
    || (read.Some? && Rise(first, second, 2) > read.value)
    || (write.Some? && Rise(first, second, 6) > write.value)
    || 100 * Rise(first, second, 9) > util * 1000 * period
  }

  /** A device's status: 3 exactly with fewer than two samples, an exception exactly when one of the first
      two lacks a column, else 2 exactly when a critical limit is exceeded and at least 1 exactly when a
      warning limit is. */
  lemma StatusMeans(l: Limits, samples: seq<seq<int>>)
    requires AcceptedLimits(l)
    ensures var status := DeviceStatus(l, samples);
            && (status == Some(3) <==> |samples| < 2)
            && (status == None <==> |samples| >= 2 && (|samples[0]| < 10 || |samples[1]| < 10))
            && (|samples| >= 2 && |samples[0]| >= 10 && |samples[1]| >= 10 ==>
                  && 0 <= status.value <= 2
                  && (status.value == 2 <==>
                        Exceeds(l.sreadCrit, l.swriteCrit, l.utilCrit, l.averagingPeriod, samples[0], samples[1]))
                  && (status.value >= 1 <==>
                        Exceeds(l.sreadWarn, l.swriteWarn, l.utilWarn, l.averagingPeriod, samples[0], samples[1])))
  {
    if |samples| >= 2 && |samples[0]| >= 10 && |samples[1]| >= 10 {
      var busy := Corrected(samples[0][9], samples[1][9]);
      BusyAbove(busy, l.averagingPeriod, l.utilWarn);
      BusyAbove(busy, l.averagingPeriod, l.utilCrit);
      assert busy == Rise(samples[0], samples[1], 9);
    }
  }

  lemma BusyAbove(busy: int, period: int, limit: int)
    requires period > 0
    ensures Utilization(busy, period) > limit as real <==> 100 * busy > limit * 1000 * period
  {
    var share, whole := Utilization(busy, period), (1000 * period) as real;
    assert share * whole == (100 * busy) as real;
    assert limit as real * whole == (limit * 1000 * period) as real;
    if share > limit as real { Scaled(limit as real, share, whole); } else { Scaled(share, limit as real, whole); }
  }

  lemma Scaled(a: real, b: real, c: real)
    requires a <= b && c > 0.0
    ensures a * c <= b * c && (a < b ==> a * c < b * c)
  {}

  /** A write load above its critical limit is critical, whatever else the device does. */
  lemma WritesAreChecked()
    ensures var l := Limits(10, Some(100), Some(200), Some(100), Some(200), 50, 90);
            DeviceStatus(l, [[0, 0, 0, 0, 0, 0, 0, 0, 0, 0], [0, 0, 0, 0, 0, 0, 1000, 0, 0, 0]]) == Some(2)
  {
    var l := Limits(10, Some(100), Some(200), Some(100), Some(200), 50, 90);
    StatusMeans(l, [[0, 0, 0, 0, 0, 0, 0, 0, 0, 0], [0, 0, 0, 0, 0, 0, 1000, 0, 0, 0]]);
  }

  // ---------- Arguments ----------

  /** Arguments after their types were checked; a limit that was not given is `None`. */
  datatype Arguments = Arguments(timeout: int, limits: Limits)

  /** `IntRangeValidator`: strictly between the bounds that are given. */
  function InRange(lower: Option<int>, upper: Option<int>, val: int): (r: Option<int>)
    ensures r == Some(val) <==> (lower.Some? ==> lower.value < val) && (upper.Some? ==> val < upper.value)
    ensures r == None || r == Some(val)
  {
    if lower.Some? && lower.value >= val then None
    else if upper.Some? && upper.value <= val then None
    else Some(val)
  }

  predicate Typed(o: Option<int>) { o.Some? ==> InRange(Some(0), None, o.value).Some? }

  /** What the argument types let through. */
  predicate TypeChecked(a: Arguments)
  {
    && InRange(Some(0), None, a.timeout).Some? && InRange(Some(0), None, a.limits.averagingPeriod).Some?
    && Typed(a.limits.sreadWarn) && Typed(a.limits.sreadCrit)
    && Typed(a.limits.swriteWarn) && Typed(a.limits.swriteCrit)
    && InRange(Some(0), Some(99), a.limits.utilWarn).Some?
    && InRange(Some(1), Some(100), a.limits.utilCrit).Some?
  }

  /** Which arguments get past the types and the checks: positive numbers, a period up to the timeout,
      utilisation limits below 99 and 100, all throughput limits or none, and each warning below its
      critical limit. */
  lemma AcceptedExactlyWhen(a: Arguments)
    ensures var l := a.limits;
            TypeChecked(a) && l.averagingPeriod <= a.timeout && AcceptedLimits(l) <==>
            && 1 <= l.averagingPeriod <= a.timeout
            && 1 <= l.utilWarn <= 98 && l.utilWarn + 1 <= l.utilCrit <= 99
            && (|| (l.sreadWarn == None && l.sreadCrit == None && l.swriteWarn == None && l.swriteCrit == None)
                || (&& l.sreadWarn.Some? && l.sreadCrit.Some? && l.swriteWarn.Some? && l.swriteCrit.Some?
                    && 1 <= l.sreadWarn.value < l.sreadCrit.value && 1 <= l.swriteWarn.value < l.swriteCrit.value))
  {}

  /** Which values the argument types let through on their own. */
  lemma TypesLetThrough(a: Arguments)
    ensures TypeChecked(a) <==>
            && a.timeout >= 1 && a.limits.averagingPeriod >= 1
            && (forall o :: o in [a.limits.sreadWarn, a.limits.sreadCrit, a.limits.swriteWarn, a.limits.swriteCrit] ==>
                  o.Some? ==> o.value >= 1)
            && 1 <= a.limits.utilWarn <= 98 && 2 <= a.limits.utilCrit <= 99
  {
    var given := [a.limits.sreadWarn, a.limits.sreadCrit, a.limits.swriteWarn, a.limits.swriteCrit];
    assert given[0] in given && given[1] in given && given[2] in given && given[3] in given;
  }

  /** Lines 260-278, where an absent limit is as false as zero: accepted exactly with an averaging
      period up to the timeout, all throughput limits or none, and each warning below its critical. */
  method Validate(a: Arguments) returns (accepted: bool)
    requires TypeChecked(a)
    ensures accepted <==> a.limits.averagingPeriod <= a.timeout && AcceptedLimits(a.limits)
  {
    var l := a.limits;
    if a.timeout + 1 <= l.averagingPeriod { return false; }
    if l.utilWarn >= l.utilCrit { return false; }
    if (l.sreadWarn.Some? || l.sreadCrit.Some? || l.swriteWarn.Some? || l.swriteCrit.Some?)
       && !(l.sreadWarn.Some? && l.sreadCrit.Some? && l.swriteWarn.Some? && l.swriteCrit.Some?) {
      return false;
    } else if l.sreadWarn.Some? {
      if l.sreadWarn.value >= l.sreadCrit.value { return false; }
      if l.swriteWarn.value >= l.swriteCrit.value { return false; }
    }
    return true;
  }

  // ---------- Sampling and the fold ----------

  /** The counters a snapshot holds for a device, in file order. */
  function RowsOf(name: string, snapshot: seq<Row>): seq<seq<int>>
  {
    if snapshot == [] then []
    else
      var n := |snapshot| - 1;
      RowsOf(name, snapshot[..n]) + if snapshot[n].name == name then [snapshot[n].counters] else []
  }

  ghost predicate UniqueNames(snapshot: seq<Row>)
  {
    forall i, j :: 0 <= i < j < |snapshot| ==> snapshot[i].name != snapshot[j].name
  }

  ghost predicate Listed(name: string, snapshot: seq<Row>)
  {
    exists i :: 0 <= i < |snapshot| && snapshot[i].name == name
  }

  lemma {:induction false} RowsOfUnique(name: string, snapshot: seq<Row>)
    requires UniqueNames(snapshot)
    ensures |RowsOf(name, snapshot)| == if Listed(name, snapshot) then 1 else 0
    ensures forall i :: 0 <= i < |snapshot| && snapshot[i].name == name ==>
              RowsOf(name, snapshot) == [snapshot[i].counters]
  {
    if snapshot != [] {
      var n := |snapshot| - 1;
      RowsOfUnique(name, snapshot[..n]);
      if Listed(name, snapshot[..n]) {
        var i :| 0 <= i < n && snapshot[..n][i].name == name;
        assert snapshot[i].name == name;
      }
    }
  }

  /** Worst status over a list of devices, from a starting status; an exception anywhere makes the
      plugin report 2. */
  function Worst(l: Limits, names: seq<string>, first: seq<Row>, second: seq<Row>): Option<int>
    requires AcceptedLimits(l)
  {
    if names == [] then Some(0)
    else
      var n := |names| - 1;
      var sofar := Worst(l, names[..n], first, second);
      var s := Sampled(l, names[n], first, second);
      if sofar.None? || s.None? then None else Some(Max(sofar.value, s.value))
  }

  /** The status of a device that was sampled from two snapshots. */
  function Sampled(l: Limits, name: string, first: seq<Row>, second: seq<Row>): Option<int>
    requires AcceptedLimits(l)
  {
    DeviceStatus(l, RowsOf(name, first) + RowsOf(name, second))
  }

  class NagiosData {
    var exitStatus: int

    constructor ()
      ensures exitStatus == 0
    {
      exitStatus := 0;
    }

    /** Takes the statuses off the list one by one; the script always passes at least one. */
    method UpdateData(statuses: seq<int>)
      requires statuses != []
      modifies this
      ensures forall s :: s in statuses ==> s <= exitStatus
      ensures old(exitStatus) <= exitStatus && (exitStatus == old(exitStatus) || exitStatus in statuses)
    {
      var data := statuses;
      while data != []
        invariant forall s :: s in statuses ==> s in data || s <= exitStatus
        invariant forall s :: s in data ==> s in statuses
        invariant old(exitStatus) <= exitStatus
        invariant exitStatus == old(exitStatus) || exitStatus in statuses
        decreases |data|
      {
        var newStatus := data[0];
        assert data == [newStatus] + data[1..];
        data := data[1..];
        if exitStatus < newStatus { exitStatus := newStatus; }
      }
    }
  }

  class Plugin {
    const limits: Limits
    const names: seq<string>
    var devices: map<string, Device>

    ghost predicate Valid()
      reads this
    {
      && devices.Keys == (set n | n in names)
      && (forall n :: n in devices ==> devices[n].name == n && devices[n].limits == limits)
    }

    /** Lines 308-318. */
    constructor (limits: Limits, names: seq<string>)
      ensures Valid() && this.limits == limits && this.names == names
      ensures forall n :: n in devices ==> fresh(devices[n]) && devices[n].performanceData == []
    {
      this.limits, this.names := limits, names;
      devices := map[];
      new;
      var i := 0;
      while i < |names|
        invariant 0 <= i <= |names|
        invariant devices.Keys == (set n | n in names[..i])
        invariant forall n :: n in devices ==> fresh(devices[n]) && devices[n].performanceData == []
        invariant forall n :: n in devices ==> devices[n].name == n && devices[n].limits == limits
      {
        var d := new Device(names[i], limits);
        devices := devices[names[i] := d];
        assert names[..i + 1] == names[..i] + [names[i]];
        i := i + 1;
      }
      assert names[..i] == names;
    }

    /** Lines 323 and 329: every row of a monitored device is added to it. */
    method Sample(snapshot: seq<Row>)
      requires Valid()
      modifies devices.Values
      ensures Valid()
      ensures forall n :: n in devices ==>
                devices[n].performanceData == old(devices[n].performanceData) + RowsOf(n, snapshot)
    {
      var i := 0;
      while i < |snapshot|
        invariant 0 <= i <= |snapshot|
        invariant forall n :: n in devices ==>
                    devices[n].performanceData == old(devices[n].performanceData) + RowsOf(n, snapshot[..i])
      {
        var row := snapshot[i];
        assert snapshot[..i + 1][..i] == snapshot[..i];
        if row.name in devices {
          assert devices[row.name] in devices.Values;
          devices[row.name].AddPerformanceData(row.counters);
        }
        i := i + 1;
      }
      assert snapshot[..i] == snapshot;
    }

    /** Lines 334-335 and the exit; `order` is the order in which the device table is listed. An
        exception while checking is reported as 2. */
    method Report(order: seq<string>, ghost first: seq<Row>, ghost second: seq<Row>) returns (exit: int)
      requires Valid() && AcceptedLimits(limits)
      requires forall n :: n in order <==> n in devices
      requires forall n :: n in devices ==> devices[n].performanceData == RowsOf(n, first) + RowsOf(n, second)
      ensures var worst := Worst(limits, order, first, second);
              exit == if worst.Some? then worst.value else 2
    {
      hide Listed, RowsOf, DeviceStatus;
      var nagios := new NagiosData();
      var i := 0;
      while i < |order|
        invariant 0 <= i <= |order| && fresh(nagios)
        invariant Worst(limits, order[..i], first, second) == Some(nagios.exitStatus)
      {
        var n := order[i];
        assert order[..i + 1][..i] == order[..i];
        var status := devices[n].CheckLimits();
        assert status == Sampled(limits, n, first, second);
        if status.None? {
          WorstStaysUndefined(limits, order, first, second, i);
          return 2;
        }
        ghost var sofar := nagios.exitStatus;
        nagios.UpdateData([status.value]);
        assert status.value in [status.value];
        assert nagios.exitStatus == Max(sofar, status.value);
        i := i + 1;
      }
      assert order[..i] == order;
      return nagios.exitStatus;
    }
  }

  /** Lines 307-349: build the devices, sample twice, report. A snapshot that cannot be read makes
      the plugin exit 1. `order` is the order in which the device table is listed. */
  method CheckDevices(limits: Limits, names: seq<string>, order: seq<string>, first: Option<seq<Row>>,
                      second: Option<seq<Row>>)
    returns (exit: int)
    requires AcceptedLimits(limits)
    requires forall n :: n in order <==> n in names
    ensures exit == PluginStatus(limits, order, first, second)
  {
    var plugin := new Plugin(limits, names);
    if first.None? { return 1; }
    plugin.Sample(first.value);
    if second.None? { return 1; }
    plugin.Sample(second.value);
    exit := plugin.Report(order, first.value, second.value);
  }

  /** 1 without both snapshots, 2 when a device cannot be checked, otherwise the worst status. */
  function PluginStatus(l: Limits, order: seq<string>, first: Option<seq<Row>>, second: Option<seq<Row>>): int
    requires AcceptedLimits(l)
  {
    if first.None? || second.None? then 1
    else
      var worst := Worst(l, order, first.value, second.value);
      if worst.Some? then worst.value else 2
  }

  lemma {:induction false} WorstStaysUndefined(l: Limits, names: seq<string>, first: seq<Row>, second: seq<Row>, i: nat)
    requires AcceptedLimits(l) && i < |names|
    requires Sampled(l, names[i], first, second).None?
    ensures Worst(l, names, first, second).None?
    decreases |names|
  {
    hide Sampled;
    var n := |names| - 1;
    if i < n { WorstStaysUndefined(l, names[..n], first, second, i); }
  }

  /** Two whole snapshots with unique names: a device has two samples, in snapshot order, exactly
      when both list it. */
  lemma TwoSamplesExactlyWhenListedTwice(name: string, first: seq<Row>, second: seq<Row>)
    requires UniqueNames(first) && UniqueNames(second)
    ensures var samples := RowsOf(name, first) + RowsOf(name, second);
            && (|samples| >= 2 <==> Listed(name, first) && Listed(name, second))
            && (forall i, j :: (0 <= i < |first| && 0 <= j < |second|
                                && first[i].name == name && second[j].name == name) ==>
                  samples == [first[i].counters, second[j].counters])
  {
    RowsOfUnique(name, first);
    RowsOfUnique(name, second);
  }

  /** A device's status is at most 2 with two samples and 3 without. */
  lemma SampledStatus(l: Limits, name: string, first: seq<Row>, second: seq<Row>)
    requires AcceptedLimits(l) && UniqueNames(first) && UniqueNames(second)
    ensures var s := Sampled(l, name, first, second);
            s.Some? ==> 0 <= s.value <= 3 && (s.value == 3 <==> !(Listed(name, first) && Listed(name, second)))
  {
    TwoSamplesExactlyWhenListedTwice(name, first, second);
  }

  /** The exit status of the fold is the worst over the devices, whatever their order, and it is 3
      exactly when some device is missing from a snapshot. */
  lemma {:induction false} WorstOfAll(l: Limits, names: seq<string>, first: seq<Row>, second: seq<Row>)
    requires AcceptedLimits(l) && UniqueNames(first) && UniqueNames(second)
    requires Worst(l, names, first, second).Some?
    ensures var worst := Worst(l, names, first, second).value;
            && (forall n :: n in names ==>
                  Sampled(l, n, first, second).Some? && Sampled(l, n, first, second).value <= worst)
            && (worst == 0 || exists n :: n in names && Sampled(l, n, first, second) == Some(worst))
            && 0 <= worst <= 3
            && (worst == 3 <==> exists n :: n in names && !(Listed(n, first) && Listed(n, second)))
  {
    hide Sampled, RowsOf, Listed;
    if names != [] {
      var k := |names| - 1;
      WorstOfAll(l, names[..k], first, second);
      SampledStatus(l, names[k], first, second);
      assert names == names[..k] + [names[k]];
    }
  }

  ghost predicate WholeRows(snapshot: seq<Row>)
  {
    UniqueNames(snapshot) && forall r :: r in snapshot ==> |r.counters| >= 10
  }

  /** A monitored device exceeds one of these limits between the snapshots. */
  ghost predicate SomeExceeds(read: Option<int>, write: Option<int>, util: int, period: int, order: seq<string>,
                              first: seq<Row>, second: seq<Row>)
    requires WholeRows(first) && WholeRows(second)
  {
    exists r, s :: r in first && s in second && r.name == s.name && r.name in order
                   && Exceeds(read, write, util, period, r.counters, s.counters)
  }

  /** The exit status of a whole check in the script's own terms, for snapshots of unique names and whole
      rows: 1 without both snapshots, else 3 if a device is missing from one, else 2 if one exceeds a
      critical limit, else 1 if one exceeds a warning limit, else 0. */
  lemma ExitMeans(l: Limits, order: seq<string>, first: Option<seq<Row>>, second: Option<seq<Row>>)
    requires AcceptedLimits(l)
    requires (first.Some? ==> WholeRows(first.value)) && (second.Some? ==> WholeRows(second.value))
    ensures PluginStatus(l, order, first, second)
            == if first.None? || second.None? then 1
               else if exists n :: n in order && !(Listed(n, first.value) && Listed(n, second.value)) then 3
               else if SomeExceeds(l.sreadCrit, l.swriteCrit, l.utilCrit, l.averagingPeriod, order,
                                   first.value, second.value) then 2
               else if SomeExceeds(l.sreadWarn, l.swriteWarn, l.utilWarn, l.averagingPeriod, order,
                                   first.value, second.value) then 1
               else 0
  {
    hide Sampled, AcceptedLimits, Exceeds, RowsOf;
    if first.Some? && second.Some? {
      var a, b := first.value, second.value;
      forall n | n in order ensures Sampled(l, n, a, b).Some? { SampledIs(l, n, a, b); }
      WorstDefined(l, order, a, b);
      WorstOfAll(l, order, a, b);
      var worst := Worst(l, order, a, b).value;
      if worst < 3 {
        forall r, s | r in a && s in b && r.name == s.name && r.name in order
          ensures var v := Sampled(l, r.name, a, b).value;
                  && 0 <= v <= worst
                  && (v == 2 <==>
                        Exceeds(l.sreadCrit, l.swriteCrit, l.utilCrit, l.averagingPeriod, r.counters, s.counters))
                  && (v >= 1 <==>
                        Exceeds(l.sreadWarn, l.swriteWarn, l.utilWarn, l.averagingPeriod, r.counters, s.counters))
        {
          SampledIs(l, r.name, a, b);
        }
        if worst > 0 {
          var n :| n in order && Sampled(l, n, a, b) == Some(worst);
          var i :| 0 <= i < |a| && a[i].name == n;
          var j :| 0 <= j < |b| && b[j].name == n;
          assert a[i] in a && b[j] in b && a[i].name == b[j].name;
        }
      }
    }
  }

  lemma {:induction false} WorstDefined(l: Limits, names: seq<string>, first: seq<Row>, second: seq<Row>)
    requires AcceptedLimits(l) && forall n :: n in names ==> Sampled(l, n, first, second).Some?
    ensures Worst(l, names, first, second).Some?
  {
    if names != [] { WorstDefined(l, names[..|names| - 1], first, second); }
  }

  /** One device of the check: 3 if it is missing, else what its two rows tell. */
  lemma SampledIs(l: Limits, n: string, first: seq<Row>, second: seq<Row>)
    requires AcceptedLimits(l) && WholeRows(first) && WholeRows(second)
    ensures var v := Sampled(l, n, first, second);
            v.Some? && 0 <= v.value <= 3
            && forall r, s :: r in first && s in second && r.name == n && s.name == n ==>
                 && 0 <= v.value <= 2
                 && (v.value == 2 <==>
                       Exceeds(l.sreadCrit, l.swriteCrit, l.utilCrit, l.averagingPeriod, r.counters, s.counters))
                 && (v.value >= 1 <==>
                       Exceeds(l.sreadWarn, l.swriteWarn, l.utilWarn, l.averagingPeriod, r.counters, s.counters))
  {
    hide AcceptedLimits, Exceeds, DeviceStatus;
    var samples := RowsOf(n, first) + RowsOf(n, second);
    StatusMeans(l, samples);
    TwoSamplesExactlyWhenListedTwice(n, first, second);
    if Listed(n, first) && Listed(n, second) {
      var i :| 0 <= i < |first| && first[i].name == n;
      var j :| 0 <= j < |second| && second[j].name == n;
      assert samples == [first[i].counters, second[j].counters];
      assert first[i] in first && second[j] in second;
    }
  }

  /** A monitored device with a short row in one of the snapshots raises an exception: 2, whatever the
      other devices do. */
  lemma ShortRowExits(l: Limits, order: seq<string>, first: seq<Row>, second: seq<Row>, r: Row, s: Row)
    requires AcceptedLimits(l) && UniqueNames(first) && UniqueNames(second)
    requires r in first && s in second && r.name == s.name && r.name in order
    requires |r.counters| < 10 || |s.counters| < 10
    ensures PluginStatus(l, order, Some(first), Some(second)) == 2
  {
    var i :| 0 <= i < |first| && first[i] == r;
    var j :| 0 <= j < |second| && second[j] == s;
    TwoSamplesExactlyWhenListedTwice(r.name, first, second);
    StatusMeans(l, RowsOf(r.name, first) + RowsOf(r.name, second));
    var k :| 0 <= k < |order| && order[k] == r.name;
    WorstStaysUndefined(l, order, first, second, k);
  }
}
