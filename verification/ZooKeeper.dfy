/** check_zookeeper.py: the tolerant parser of the `mntr` answer and the two-directional threshold
    classifier over all servers. */
module ZooKeeper {
  import opened Text

  /** A statistic that reads as an integer is kept as one. */
  datatype Value = Int(n: int) | Str(s: string)

  type Stats = map<string, Value>

  // ---------- Lines ----------

  /** Python's `readlines`: every line keeps its newline, the last one may lack it. */
  function ReadLines(data: string): seq<string>
    decreases |data|
  {
    var i := FirstIndex(data, '\n');
    if data == [] then []
    else if i == |data| then [data]
    else [data[..i + 1]] + ReadLines(data[i + 1..])
  }

  predicate LineComplete(data: string) { data == [] || data[|data| - 1] == '\n' }

  lemma ReadLinesCut(head: string, tail: string)
    requires '\n' !in head
    ensures ReadLines(head + ['\n'] + tail) == [head + ['\n']] + ReadLines(tail)
  {
    var data := head + ['\n'] + tail;
    CutAtFirst(head, '\n', tail);
    assert data[..|head| + 1] == head + ['\n'] && data[|head| + 1..] == tail;
  }

  lemma {:induction false} ReadLinesConcat(a: string, b: string)
    requires LineComplete(a)
    ensures ReadLines(a + b) == ReadLines(a) + ReadLines(b)
    decreases |a|
  {
    hide ReadLines;
    if a == [] {
      assert a + b == b;
      NoLines();
    } else {
      var i := FirstIndex(a, '\n');
      assert a[|a| - 1] == '\n';
      var head, tail := a[..i], a[i + 1..];
      assert a == head + ['\n'] + tail;
      assert a + b == head + ['\n'] + (tail + b);
      ReadLinesCut(head, tail);
      ReadLinesCut(head, tail + b);
      ReadLinesConcat(tail, b);
      assert [head + ['\n']] + (ReadLines(tail) + ReadLines(b)) == [head + ['\n']] + ReadLines(tail) + ReadLines(b);
    }
  }

  lemma NoLines()
    ensures ReadLines([]) == []
  {}

  lemma ReadOneLine(line: string)
    requires '\n' !in line
    ensures ReadLines(line + "\n") == [line + "\n"]
  {
    ReadLinesCut(line, []);
    NoLines();
    assert line + ['\n'] + [] == line + "\n";
  }

  // ---------- One line ----------

  predicate IsSpace(c: char) { c == ' ' || 9 <= c as int <= 13 }

  function StripLeft(s: string): string
  {
    if s != [] && IsSpace(s[0]) then StripLeft(s[1..]) else s
  }

  function StripRight(s: string): string
  {
    if s != [] && IsSpace(s[|s| - 1]) then StripRight(s[..|s| - 1]) else s
  }

  function Strip(s: string): string { StripRight(StripLeft(s)) }

  predicate Stripped(s: string)
  {
    s != [] ==> !IsSpace(s[0]) && !IsSpace(s[|s| - 1])
  }

  /** `int(s)`: an optional sign and digits. */
  function ParseInt(s: string): Option<int>
  {
    var body := if s != [] && (s[0] == '-' || s[0] == '+') then s[1..] else s;
    if body == [] || !AllDigits(body) then None
    else
      var magnitude: int := DecimalValue(body);
      Some(if s[0] == '-' then -magnitude else magnitude)
  }

  function ValueOf(s: string): Value
  {
    match ParseInt(s)
    case Some(n) => Int(n)
    case None => Str(s)
  }

  /** `_parse_line`: two tab-separated fields, the first not empty. */
  function ParseLine(line: string): Option<(string, Value)>
  {
    var fields := Split(line, '\t');
    if |fields| != 2 || Strip(fields[0]) == [] then None
    else Some((Strip(fields[0]), ValueOf(Strip(fields[1]))))
  }

  // ---------- The whole answer ----------

  function With(stats: Stats, entry: Option<(string, Value)>): Stats
  {
    if entry.Some? then stats[entry.value.0 := entry.value.1] else stats
  }

  /** The lines in order, later ones overriding earlier ones. */
  function FromLines(lines: seq<string>): Stats
  {
    if lines == [] then map[]
    else With(FromLines(lines[..|lines| - 1]), ParseLine(lines[|lines| - 1]))
  }

  function Parsed(data: string): Stats { FromLines(ReadLines(data)) }

  /** `_parse`. */
  method Parse(data: string) returns (result: Stats)
    ensures result == Parsed(data)
  {
    var lines := ReadLines(data);
    result := map[];
    var i := 0;
    while i < |lines|
      invariant 0 <= i <= |lines|
      invariant result == FromLines(lines[..i])
    {
      assert lines[..i + 1][..i] == lines[..i];
      var entry := ParseLine(lines[i]);
      if entry.Some? {
        var (key, value) := entry.value;
        result := result[key := value];
      }
      i := i + 1;
    }
    assert lines[..i] == lines;
  }

  lemma {:induction false} FromLinesConcat(a: seq<string>, b: seq<string>)
    ensures FromLines(a + b) == FromLines(a) + FromLines(b)
    decreases |b|
  {
    if b == [] {
      assert a + b == a;
    } else {
      var n := |b| - 1;
      assert (a + b)[..|a + b| - 1] == a + b[..n];
      FromLinesConcat(a, b[..n]);
    }
  }

  /** Parsing line-complete text followed by more text is parsing both and letting the second
      override the first. */
  lemma ParseConcat(a: string, b: string)
    requires LineComplete(a)
    ensures Parsed(a + b) == Parsed(a) + Parsed(b)
  {
    ReadLinesConcat(a, b);
    FromLinesConcat(ReadLines(a), ReadLines(b));
  }

  lemma ParsedLine(line: string)
    requires '\n' !in line
    ensures Parsed(line + "\n") == With(map[], ParseLine(line + "\n"))
  {
    ReadOneLine(line);
    assert FromLines([line + "\n"][..0]) == map[];
  }

  /** A malformed line inserted between lines changes nothing. */
  lemma MalformedLineIgnored(a: string, bad: string, b: string)
    requires LineComplete(a) && '\n' !in bad && ParseLine(bad + "\n") == None
    ensures Parsed(a + bad + "\n" + b) == Parsed(a + b)
  {
    hide Parsed, ParseLine;
    assert a + bad + "\n" + b == a + (bad + "\n" + b);
    ParseConcat(a, bad + "\n" + b);
    ParseConcat(bad + "\n", b);
    ParseConcat(a, b);
    ParsedLine(bad);
  }

  /** A read that stops in the middle of a line adds to the complete lines at most the one entry
      the partial line happens to form. */
  lemma TruncatedRead(complete: string, partial: string)
    requires LineComplete(complete) && '\n' !in partial
    ensures Parsed(complete + partial) == With(Parsed(complete), ParseLine(partial))
  {
    ParseConcat(complete, partial);
    if partial == [] {
      assert Split(partial, '\t') == [partial];
      assert ParseLine(partial) == None;
    } else {
      assert ReadLines(partial) == [partial];
      assert FromLines([partial][..0]) == map[];
      assert FromLines([partial]) == With(map[], ParseLine(partial));
    }
  }

  // ---------- Rendering and the round trip ----------

  function RenderInt(n: int): string
  {
    if n < 0 then "-" + Decimal(-n) else Decimal(n)
  }

  function RenderValue(v: Value): string
  {
    match v
    case Int(n) => RenderInt(n)
    case Str(s) => s
  }

  function RenderLine(key: string, v: Value): string { key + "\t" + RenderValue(v) + "\n" }

  function Render(entries: seq<(string, Value)>): string
  {
    if entries == [] then ""
    else
      var n := |entries| - 1;
      Render(entries[..n]) + RenderLine(entries[n].0, entries[n].1)
  }

  predicate PlainText(s: string) { Stripped(s) && '\t' !in s && '\n' !in s }

  /** Keys and string values a server may report: plain text, a key not empty, and a string not the
      literal of an integer. */
  predicate WellFormedEntry(key: string, v: Value)
  {
    key != [] && PlainText(key) && (v.Str? ==> PlainText(v.s) && ParseInt(v.s) == None)
  }

  lemma ParseIntRoundTrip(n: int)
    ensures ParseInt(RenderInt(n)) == Some(n)
    ensures PlainText(RenderInt(n))
  {
    var d := Decimal(if n < 0 then -n else n);
    DecimalRoundTrip(if n < 0 then -n else n);
    assert IsDigit(d[0]) && IsDigit(d[|d| - 1]);
    assert forall i :: 0 <= i < |d| ==> IsDigit(d[i]);
    if n < 0 {
      assert RenderInt(n)[1..] == d;
    }
  }

  lemma StripOfStripped(s: string)
    requires Stripped(s)
    ensures Strip(s) == s && Strip(s + "\n") == s
  {
    var t := s + "\n";
    if s == [] {
      assert StripLeft(t) == StripLeft(t[1..]) == [];
    } else {
      assert t[0] == s[0];
      assert StripLeft(t) == t && t[..|t| - 1] == s;
    }
  }

  lemma TwoFields(key: string, field: string)
    requires '\t' !in key && '\t' !in field
    ensures Split(key + ['\t'] + field, '\t') == [key, field]
  {
    SplitCut(key, '\t', field);
    CutAbsent(field, '\t');
  }

  lemma LineRoundTrip(key: string, v: Value)
    requires WellFormedEntry(key, v)
    ensures ParseLine(RenderLine(key, v)) == Some((key, v))
  {
    hide Split, Strip, ParseInt, RenderInt, Stripped;
    var text := RenderValue(v);
    if v.Int? { ParseIntRoundTrip(v.n); }
    assert PlainText(text) && ValueOf(text) == v;
    assert RenderLine(key, v) == key + ['\t'] + (text + "\n");
    TwoFields(key, text + "\n");
    StripOfStripped(key);
    StripOfStripped(text);
  }

  lemma RenderedLine(key: string, v: Value)
    requires WellFormedEntry(key, v)
    ensures Parsed(RenderLine(key, v)) == map[key := v]
    ensures RenderLine(key, v) != [] && LineComplete(RenderLine(key, v))
  {
    hide Parsed, ParseLine, ParseInt, RenderInt;
    LineRoundTrip(key, v);
    if v.Int? { ParseIntRoundTrip(v.n); }
    var line := key + "\t" + RenderValue(v);
    ParsedLine(line);
    assert RenderLine(key, v) == line + "\n";
  }

  function MapOf(entries: seq<(string, Value)>): Stats
  {
    if entries == [] then map[]
    else
      var n := |entries| - 1;
      MapOf(entries[..n])[entries[n].0 := entries[n].1]
  }

  lemma {:induction false} RenderedEntries(entries: seq<(string, Value)>)
    requires forall e :: e in entries ==> WellFormedEntry(e.0, e.1)
    ensures Parsed(Render(entries)) == MapOf(entries) && LineComplete(Render(entries))
  {
    hide Parsed, Render, RenderLine;
    if entries == [] {
      NoEntries();
    } else {
      var n := |entries| - 1;
      var line := RenderLine(entries[n].0, entries[n].1);
      RenderedPrefix(entries, n);
      RenderedEntries(entries[..n]);
      RenderedLine(entries[n].0, entries[n].1);
      ParseConcat(Render(entries[..n]), line);
      assert Render(entries)[|Render(entries)| - 1] == line[|line| - 1];
    }
  }

  lemma NoEntries()
    ensures Render([]) == [] && Parsed([]) == map[]
  {}

  lemma RenderedPrefix(entries: seq<(string, Value)>, n: nat)
    requires n + 1 == |entries|
    ensures Render(entries) == Render(entries[..n]) + RenderLine(entries[n].0, entries[n].1)
  {}

  /** Parsing the rendering of any well-formed table returns that table, in whatever order its
      entries are written, signed integers included. */
  lemma StatsRoundTrip(stats: Stats, entries: seq<(string, Value)>)
    requires forall k :: k in stats ==> WellFormedEntry(k, stats[k])
    requires forall e :: e in entries <==> e.0 in stats && stats[e.0] == e.1
    ensures Parsed(Render(entries)) == stats
  {
    hide Parsed, Render, WellFormedEntry, MapOf;
    RenderedEntries(entries);
    MapOfEntries(stats, entries, |entries|);
    assert entries[..|entries|] == entries;
    forall k | k in stats ensures k in MapOf(entries) {
      assert (k, stats[k]) in entries;
    }
  }

  lemma {:induction false} MapOfEntries(stats: Stats, entries: seq<(string, Value)>, n: nat)
    requires n <= |entries|
    requires forall e :: e in entries ==> e.0 in stats && stats[e.0] == e.1
    ensures forall k :: k in MapOf(entries[..n]) <==> exists i :: 0 <= i < n && entries[i].0 == k
    ensures forall k :: k in MapOf(entries[..n]) ==> k in stats && MapOf(entries[..n])[k] == stats[k]
  {
    if n > 0 {
      MapOfEntries(stats, entries, n - 1);
      assert entries[..n][..n - 1] == entries[..n - 1];
      assert entries[n - 1] in entries;
    }
  }

  // ---------- The classifier ----------

  /** Python 2's order: any number is below any string. */
  predicate AtLeast(v: Value, threshold: int) { v.Int? ==> threshold <= v.n }

  predicate AtMost(v: Value, threshold: int) { v.Int? && v.n <= threshold }

  /** A threshold is reached from below when the warning is below the critical one, from above
      otherwise. */
  predicate Reached(warning: int, critical: int, threshold: int, v: Value)
  {
    if warning < critical then AtLeast(v, threshold) else AtMost(v, threshold)
  }

  /** How many of two different thresholds the value has reached. */
  function Severity(warning: int, critical: int, v: Value): int
  {
    if warning == critical then 0
    else
      (if Reached(warning, critical, warning, v) then 1 else 0) +
      (if Reached(warning, critical, critical, v) then 1 else 0)
  }

  /** Severity of one server; one that does not report the key has none. */
  function HostSeverity(warning: int, critical: int, key: string, stats: Stats): int
  {
    if key in stats then Severity(warning, critical, stats[key]) else 0
  }

  predicate InState(warning: int, critical: int, key: string, stats: Stats, state: int)
  {
    key in stats && Severity(warning, critical, stats[key]) == state
  }

  /** The hosts in a state, in order. */
  function HostsIn(warning: int, critical: int, key: string, cluster: seq<(string, Stats)>, state: int): seq<string>
  {
    if cluster == [] then []
    else
      var n := |cluster| - 1;
      HostsIn(warning, critical, key, cluster[..n], state) +
      if InState(warning, critical, key, cluster[n].1, state) then [cluster[n].0] else []
  }

  function IntOption(text: Option<string>): Option<int>
  {
    if text.Some? then ParseInt(Strip(text.value)) else None
  }

  /** `analyze`: exactly the worst severity over all servers; the two lists hold each server that
      reports the key and is in that state. */
  method Analyze(warningText: Option<string>, criticalText: Option<string>, key: Option<string>,
                 cluster: seq<(string, Stats)>)
    returns (exit: int, warningState: seq<string>, criticalState: seq<string>)
    ensures IntOption(warningText).None? || IntOption(criticalText).None? || key.None? ==> exit == 2
    ensures IntOption(warningText).Some? && IntOption(criticalText).Some? && key.Some? ==>
              var w, c := IntOption(warningText).value, IntOption(criticalText).value;
              && exit == ClusterSeverity(w, c, key.value, cluster)
              && warningState == HostsIn(w, c, key.value, cluster, 1)
              && criticalState == HostsIn(w, c, key.value, cluster, 2)
  {
    hide Severity, AtMost, AtLeast;
    warningState, criticalState := [], [];
    if IntOption(warningText).None? || IntOption(criticalText).None? { return 2, [], []; }
    if key.None? { return 2, [], []; }
    var warning, critical := IntOption(warningText).value, IntOption(criticalText).value;
    var i := 0;
    while i < |cluster|
      invariant 0 <= i <= |cluster|
      invariant warningState == HostsIn(warning, critical, key.value, cluster[..i], 1)
      invariant criticalState == HostsIn(warning, critical, key.value, cluster[..i], 2)
    {
      var (host, stats) := cluster[i];
      assert cluster[..i + 1][..i] == cluster[..i];
      if key.value in stats {
        var value := stats[key.value];
        ComparisonsTell(warning, critical, value);
        if (AtMost(value, warning) && !AtMost(value, critical))
           || (AtLeast(value, warning) && !AtLeast(value, critical)) {
          warningState := warningState + [host];
        } else if (warning < critical && AtLeast(value, critical))
                  || (warning > critical && AtMost(value, critical)) {
          criticalState := criticalState + [host];
        }
      }
      i := i + 1;
    }
    assert cluster[..i] == cluster;
    HostsInNonEmpty(warning, critical, key.value, cluster, 1);
    HostsInNonEmpty(warning, critical, key.value, cluster, 2);
    ClusterSeverityIs(warning, critical, key.value, cluster);
    if criticalState != [] {
      exit := 2;
    } else if warningState != [] {
      exit := 1;
    } else {
      exit := 0;
    }
  }

  /** The script's two chained comparisons tell the severities 1 and 2 apart. */
  lemma ComparisonsTell(warning: int, critical: int, v: Value)
    ensures var first := (AtMost(v, warning) && !AtMost(v, critical)) || (AtLeast(v, warning) && !AtLeast(v, critical));
            && (Severity(warning, critical, v) == 1 <==> first)
            && (Severity(warning, critical, v) == 2 <==>
                  !first && ((warning < critical && AtLeast(v, critical)) || (warning > critical && AtMost(v, critical))))
  {}

  /** The worst severity over the servers. */
  function ClusterSeverity(warning: int, critical: int, key: string, cluster: seq<(string, Stats)>): int
  {
    if cluster == [] then 0
    else
      var n := |cluster| - 1;
      Max(ClusterSeverity(warning, critical, key, cluster[..n]), HostSeverity(warning, critical, key, cluster[n].1))
  }

  lemma {:induction false} HostsInNonEmpty(warning: int, critical: int, key: string,
                                           cluster: seq<(string, Stats)>, state: int)
    ensures HostsIn(warning, critical, key, cluster, state) != [] <==>
            exists i :: 0 <= i < |cluster| && InState(warning, critical, key, cluster[i].1, state)
  {
    if cluster != [] {
      var n := |cluster| - 1;
      HostsInNonEmpty(warning, critical, key, cluster[..n], state);
      if i :| 0 <= i < n && InState(warning, critical, key, cluster[i].1, state) {
        assert cluster[..n][i] == cluster[i];
      }
    }
  }

  lemma {:induction false} ClusterSeverityIs(warning: int, critical: int, key: string, cluster: seq<(string, Stats)>)
    ensures var worst := ClusterSeverity(warning, critical, key, cluster);
            && 0 <= worst <= 2
            && (forall i :: 0 <= i < |cluster| ==> HostSeverity(warning, critical, key, cluster[i].1) <= worst)
            && (worst > 0 ==> exists i :: 0 <= i < |cluster| && InState(warning, critical, key, cluster[i].1, worst))
  {
    if cluster != [] {
      var n := |cluster| - 1;
      ClusterSeverityIs(warning, critical, key, cluster[..n]);
      var worst := ClusterSeverity(warning, critical, key, cluster);
      forall i | 0 <= i < |cluster| ensures HostSeverity(warning, critical, key, cluster[i].1) <= worst {
        if i < n { assert cluster[..n][i] == cluster[i]; }
      }
      if worst > 0 && worst == ClusterSeverity(warning, critical, key, cluster[..n]) {
        var i :| 0 <= i < n && InState(warning, critical, key, cluster[..n][i].1, worst);
        assert cluster[i] == cluster[..n][i];
      } else if worst > 0 {
        assert InState(warning, critical, key, cluster[n].1, worst);
      }
    }
  }

  // ---------- Properties of the classifier ----------

  /** `v'` is `v` or further towards the critical side. */
  predicate Towards(warning: int, critical: int, v: Value, v': Value)
  {
    v.Int? && v'.Int? && if warning < critical then v.n <= v'.n else v'.n <= v.n
  }

  function Negated(v: Value): Value { if v.Int? then Int(-v.n) else v }

  /** Moving every server's value towards critical never lowers the exit code. */
  lemma {:induction false} ExitMonotone(warning: int, critical: int, key: string,
                                        before: seq<(string, Stats)>, after: seq<(string, Stats)>)
    requires |before| == |after|
    requires forall i :: 0 <= i < |before| ==>
               (key in before[i].1 <==> key in after[i].1)
               && (key in before[i].1 ==> Towards(warning, critical, before[i].1[key], after[i].1[key]))
    ensures ClusterSeverity(warning, critical, key, before) <= ClusterSeverity(warning, critical, key, after)
  {
    if before != [] {
      var n := |before| - 1;
      ExitMonotone(warning, critical, key, before[..n], after[..n]);
      assert HostSeverity(warning, critical, key, before[n].1) <= HostSeverity(warning, critical, key, after[n].1);
    }
  }

  /** Turning the scale round, values and both thresholds, leaves the exit code as it is. */
  lemma {:induction false} ExitSymmetric(warning: int, critical: int, key: string,
                                         before: seq<(string, Stats)>, after: seq<(string, Stats)>)
    requires |before| == |after|
    requires forall i :: 0 <= i < |before| ==>
               (key in before[i].1 <==> key in after[i].1)
               && (key in before[i].1 ==> before[i].1[key].Int? && after[i].1[key] == Negated(before[i].1[key]))
    ensures ClusterSeverity(-warning, -critical, key, after) == ClusterSeverity(warning, critical, key, before)
  {
    if before != [] {
      var n := |before| - 1;
      ExitSymmetric(warning, critical, key, before[..n], after[..n]);
      assert HostSeverity(-warning, -critical, key, after[n].1) == HostSeverity(warning, critical, key, before[n].1);
    }
  }

  /** Equal thresholds switch the check off: it exits 0 for any cluster, and this is the only way
      to silence an integer that has reached the critical threshold. */
  lemma SilentExactlyWhenEqual(warning: int, critical: int, key: string)
    ensures (forall cluster :: ClusterSeverity(warning, critical, key, cluster) == 0) <==> warning == critical
  {
    if warning == critical {
      forall cluster ensures ClusterSeverity(warning, critical, key, cluster) == 0 {
        ClusterSeverityIs(warning, critical, key, cluster);
      }
    } else {
      var cluster := [("host", map[key := Int(critical)])];
      ClusterSeverityIs(warning, critical, key, cluster);
      assert HostSeverity(warning, critical, key, cluster[0].1) == 2;
    }
  }

  // ---------- The classifier in the script's own terms ----------

  /** The value has reached the critical threshold. A string counts as above every number. */
  predicate Critical(warning: int, critical: int, v: Value)
  {
    match v
    case Int(n) => if warning < critical then n >= critical else warning > critical && n <= critical
    case Str(_) => warning < critical
  }

  /** The value has reached the warning threshold and not the critical one. */
  predicate Warns(warning: int, critical: int, v: Value)
  {
    v.Int? && (warning <= v.n < critical || warning >= v.n > critical)
  }

  ghost predicate SomeServer(key: string, cluster: seq<(string, Stats)>, state: Value -> bool)
  {
    exists i :: 0 <= i < |cluster| && key in cluster[i].1 && state(cluster[i].1[key])
  }

  lemma SeverityMeans(warning: int, critical: int, v: Value)
    ensures Severity(warning, critical, v)
            == if Critical(warning, critical, v) then 2 else if Warns(warning, critical, v) then 1 else 0
  {}

  /** The exit code is 2 exactly when some server reports a critical value, else 1 exactly when one
      reports a warning value, else 0. */
  lemma ExitCodeMeans(warning: int, critical: int, key: string, cluster: seq<(string, Stats)>)
    ensures ClusterSeverity(warning, critical, key, cluster)
            == if SomeServer(key, cluster, v => Critical(warning, critical, v)) then 2
               else if SomeServer(key, cluster, v => Warns(warning, critical, v)) then 1
               else 0
  {
    ClusterSeverityIs(warning, critical, key, cluster);
    var worst := ClusterSeverity(warning, critical, key, cluster);
    forall i | 0 <= i < |cluster| && key in cluster[i].1
      ensures HostSeverity(warning, critical, key, cluster[i].1)
              == if Critical(warning, critical, cluster[i].1[key]) then 2
                 else if Warns(warning, critical, cluster[i].1[key]) then 1 else 0
    {
      SeverityMeans(warning, critical, cluster[i].1[key]);
    }
    hide Critical, Warns, Severity;
    var critically, warningly := v => Critical(warning, critical, v), v => Warns(warning, critical, v);
    if SomeServer(key, cluster, critically) {
      var i :| 0 <= i < |cluster| && key in cluster[i].1 && critically(cluster[i].1[key]);
    } else if SomeServer(key, cluster, warningly) {
      var i :| 0 <= i < |cluster| && key in cluster[i].1 && warningly(cluster[i].1[key]);
    }
  }

  /** A server is named as warning, or as critical, exactly when it reports such a value. */
  lemma {:induction false} NamedServers(warning: int, critical: int, key: string, cluster: seq<(string, Stats)>,
                                        host: string)
    ensures host in HostsIn(warning, critical, key, cluster, 1) <==>
            exists i :: 0 <= i < |cluster| && cluster[i].0 == host && key in cluster[i].1
                        && Warns(warning, critical, cluster[i].1[key])
    ensures host in HostsIn(warning, critical, key, cluster, 2) <==>
            exists i :: 0 <= i < |cluster| && cluster[i].0 == host && key in cluster[i].1
                        && Critical(warning, critical, cluster[i].1[key])
  {
    if cluster != [] {
      var n := |cluster| - 1;
      NamedServers(warning, critical, key, cluster[..n], host);
      if key in cluster[n].1 { SeverityMeans(warning, critical, cluster[n].1[key]); }
      NeverBoth(warning, critical);
      hide Critical, Warns, Severity;
      assert forall i :: 0 <= i < n ==> cluster[..n][i] == cluster[i];
    }
  }

  lemma NeverBoth(warning: int, critical: int)
    ensures forall v :: !(Critical(warning, critical, v) && Warns(warning, critical, v))
  {}

  // ---------- Lines and numbers in Python's terms ----------

  /** A numeral is digits, behind a sign or not. */
  lemma NumeralsExactly(s: string)
    ensures ParseInt(s).Some? <==>
            || (|s| > 0 && forall i :: 0 <= i < |s| ==> '0' <= s[i] <= '9')
            || (|s| > 1 && (s[0] == '-' || s[0] == '+') && forall i :: 1 <= i < |s| ==> '0' <= s[i] <= '9')
  {
    if s != [] && (s[0] == '-' || s[0] == '+') {
      assert forall i :: 1 <= i < |s| ==> s[i] == s[1..][i - 1];
    }
  }

  predicate Blank(s: string) { forall i :: 0 <= i < |s| ==> s[i] == ' ' || '\t' <= s[i] <= '\r' }

  lemma {:induction false} StripLeftBlanks(left: string, s: string)
    requires Blank(left) && (s != [] ==> !IsSpace(s[0]))
    ensures StripLeft(left + s) == s
  {
    if left == [] {
      assert left + s == s;
    } else {
      assert (left + s)[1..] == left[1..] + s;
      StripLeftBlanks(left[1..], s);
    }
  }

  lemma {:induction false} StripRightBlanks(s: string, right: string)
    requires Blank(right) && (s != [] ==> !IsSpace(s[|s| - 1]))
    ensures StripRight(s + right) == s
  {
    if right == [] {
      assert s + right == s;
    } else {
      assert (s + right)[..|s + right| - 1] == s + right[..|right| - 1];
      StripRightBlanks(s, right[..|right| - 1]);
    }
  }

  lemma StripAround(left: string, s: string, right: string)
    requires Blank(left) && Blank(right) && Stripped(s)
    ensures Strip(left + s + right) == s
  {
    if s == [] {
      assert left + s + right == (left + right) + [];
      StripLeftBlanks(left + right, []);
    } else {
      assert left + s + right == left + (s + right);
      StripLeftBlanks(left, s + right);
      StripRightBlanks(s, right);
    }
  }

  /** A threshold may be written with a sign and with blanks around it; anything but a numeral is refused. */
  lemma ThresholdsRead(n: int, left: string, right: string)
    requires Blank(left) && Blank(right)
    ensures IntOption(Some(left + RenderInt(n) + right)) == Some(n)
    ensures n >= 0 ==> IntOption(Some(left + ("+" + Decimal(n)) + right)) == Some(n)
    ensures IntOption(None) == None && IntOption(Some(left + right)) == None
  {
    ParseIntRoundTrip(n);
    StripAround(left, RenderInt(n), right);
    StripAround(left, [], right);
    assert left + [] + right == left + right;
    if n >= 0 {
      var text := "+" + Decimal(n);
      assert text[|text| - 1] == Decimal(n)[|Decimal(n)| - 1] && IsDigit(text[|text| - 1]);
      assert text[1..] == Decimal(n);
      DecimalRoundTrip(n);
      StripAround(left, text, right);
    }
  }

  lemma {:induction false} StripsToNothing(s: string)
    ensures Strip(s) == [] <==> Blank(s)
  {
    if Blank(s) {
      StripAround(s, [], []);
      assert s + [] + [] == s;
    } else {
      var k :| 0 <= k < |s| && !IsSpace(s[k]);
      StripLeftKeeps(s, k);
      var left := StripLeft(s);
      var j :| 0 <= j < |left| && !IsSpace(left[j]);
      StripRightKeeps(left, j);
    }
  }

  lemma {:induction false} StripLeftKeeps(s: string, k: nat)
    requires k < |s| && !IsSpace(s[k])
    ensures exists j :: 0 <= j < |StripLeft(s)| && !IsSpace(StripLeft(s)[j])
  {
    if IsSpace(s[0]) {
      assert s[1..][k - 1] == s[k] && StripLeft(s) == StripLeft(s[1..]);
      StripLeftKeeps(s[1..], k - 1);
    } else {
      assert StripLeft(s)[0] == s[0];
    }
  }

  lemma {:induction false} StripRightKeeps(s: string, k: nat)
    requires k < |s| && !IsSpace(s[k])
    ensures StripRight(s) != []
  {
    if IsSpace(s[|s| - 1]) { StripRightKeeps(s[..|s| - 1], k); }
  }

  lemma OneField(s: string)
    ensures |Split(s, '\t')| == 1 <==> '\t' !in s
  {}

  lemma FieldsOf(line: string)
    requires '\t' in line
    ensures var i := FirstIndex(line, '\t');
            && Split(line, '\t')[0] == line[..i] && (|Split(line, '\t')| == 2 <==> '\t' !in line[i + 1..])
  {
    OneField(line[FirstIndex(line, '\t') + 1..]);
  }

  /** A line forms an entry exactly with one tab and something other than white space before it. */
  lemma WellFormedLinesExactly(line: string)
    ensures ParseLine(line).Some? <==>
            exists t :: 0 <= t < |line| && line[t] == '\t' && '\t' !in line[..t] && '\t' !in line[t + 1..]
                        && !Blank(line[..t])
  {
    if '\t' in line {
      var i := FirstIndex(line, '\t');
      FieldsOf(line);
      StripsToNothing(line[..i]);
      forall t | 0 <= t < |line| && line[t] == '\t' && '\t' !in line[..t] ensures t == i {
        assert line == line[..t] + ['\t'] + line[t + 1..];
        CutAtFirst(line[..t], '\t', line[t + 1..]);
      }
      hide Split, Strip, Blank;
    } else {
      OneField(line);
    }
  }
}
