/** check_backuppc: the loop that sorts hosts into good, bad, too old and not too old, and the exit
    status computed from the four lists. */
module BackupPC {

  /** One entry of the server's host table; a missing `lastGoodBackupTime` is 0. */
  datatype HostStatus = HostStatus(kind: string, error: string, lastGoodBackupTime: real, startTime: real)

  datatype Options = Options(warnLevel: real, daysOld: real, reduce: int, statusOnly: bool,
                             backupOnly: bool, archiveOnly: bool, desired: seq<string>,
                             excluded: seq<string>, fullPeriod: real, now: real)

  type Table = map<string, HostStatus>

  const DAY := 86400.0
  const OK := 0
  const WARNING := 1
  const CRITICAL := 2
  const UNKNOWN := 3

  /** Perl takes the empty string and "0" for false. */
  predicate Failing(s: HostStatus) { s.error != "" && s.error != "0" }

  predicate ConnectionError(s: HostStatus)
  {
    s.error == "ping too slow" || s.error == "no ping response" || s.error == "host not found"
  }

  /** Line 182, as the code has it: last good backup minus start time. */
  predicate Exempt(o: Options, s: HostStatus)
  {
    o.statusOnly && ConnectionError(s) && s.lastGoodBackupTime - s.startTime <= o.fullPeriod * DAY
  }

  /** Lines 163-167. `matches(p, t)` says whether regular expression `p` matches somewhere in `t`;
      the host's own name is the pattern. */
  predicate Selected(o: Options, matches: (string, string) -> bool, host: string, kind: string)
  {
    && !(" " <= host)
    && (o.desired != [] ==> exists d :: d in o.desired && matches(host, d))
    && !(exists x :: x in o.excluded && matches(host, x))
    && !(o.backupOnly && kind == "archive")
    && !(o.archiveOnly && kind != "archive")
  }

  function LastGood(s: HostStatus): real
  {
    if s.lastGoodBackupTime == 0.0 then s.startTime else s.lastGoodBackupTime
  }

  datatype Verdict = Skipped | Good | NotTooOld | TooOld

  function Judge(o: Options, matches: (string, string) -> bool, host: string, s: HostStatus): Verdict
  {
    if !Selected(o, matches, host, s.kind) then Skipped
    else if !Failing(s) || Exempt(o, s) then Good
    else if o.now - LastGood(s) > o.daysOld * DAY then TooOld
    else if o.now - LastGood(s) > o.warnLevel * DAY then NotTooOld
    else Good
  }

  /** The hosts of `order` that got one of the verdicts, in order. */
  function Those(o: Options, matches: (string, string) -> bool, table: Table, order: seq<string>,
                 verdicts: set<Verdict>): seq<string>
  {
    if order == [] then []
    else
      var n := |order| - 1;
      var host := order[n];
      Those(o, matches, table, order[..n], verdicts) +
      if host in table && Judge(o, matches, host, table[host]) in verdicts then [host] else []
  }

  const BAD := {NotTooOld, TooOld}

  /** The sorting loop leaves the table with the times it filled in. */
  function Filled(o: Options, matches: (string, string) -> bool, host: string, s: HostStatus): HostStatus
  {
    if Selected(o, matches, host, s.kind) && Failing(s) && !Exempt(o, s) then s.(lastGoodBackupTime := LastGood(s))
    else s
  }

  // ---------- Severity ----------

  function HostsWith(o: Options, matches: (string, string) -> bool, table: Table, verdicts: set<Verdict>): set<string>
  {
    set h | h in table && Judge(o, matches, h, table[h]) in verdicts
  }

  function BaseSeverity(bad: nat, tooOld: nat): int
  {
    if tooOld > 0 then CRITICAL else if bad > 0 then WARNING else OK
  }

  /** Base severity, one step lower but never below OK when few enough hosts fail. */
  function Reduced(bad: nat, tooOld: nat, reduce: int): int
  {
    if bad <= reduce && BaseSeverity(bad, tooOld) > OK then BaseSeverity(bad, tooOld) - 1
    else BaseSeverity(bad, tooOld)
  }

  /** Severity of a host table; it mentions no order. */
  function Severity(o: Options, matches: (string, string) -> bool, table: Table): int
  {
    Reduced(|HostsWith(o, matches, table, BAD)|, |HostsWith(o, matches, table, {TooOld})|, o.reduce)
  }

  ghost predicate Distinct(s: seq<string>)
  {
    forall i, j :: 0 <= i < j < |s| ==> s[i] != s[j]
  }

  ghost predicate Enumerates(order: seq<string>, table: Table)
  {
    && Distinct(order)
    && (forall h :: h in order <==> h in table)
  }

  /** Every desired and excluded name is a pattern for some host. */
  ghost predicate KnownNames(o: Options, matches: (string, string) -> bool, hosts: set<string>)
  {
    forall p :: p in o.desired + o.excluded ==> exists h :: h in hosts && matches(p, h)
  }

  /** How the plugin was called and whether it could reach the server. */
  datatype Call = Call(parsed: bool, version: bool, help: bool, library: bool, connected: bool)

  /** The exit status before any host is looked at, if the plugin gets no further. */
  function EarlyExit(call: Call, o: Options): int
  {
    if call.version then OK
    else if call.help || !call.parsed || (o.backupOnly && o.archiveOnly) then
      if call.parsed && !(o.backupOnly && o.archiveOnly) then OK else UNKNOWN
    else if o.warnLevel > o.daysOld then UNKNOWN
    else if !call.library then CRITICAL
    else UNKNOWN
  }

  predicate Reaches(call: Call, o: Options)
  {
    && call == Call(true, false, false, true, true)
    && !(o.backupOnly && o.archiveOnly) && o.warnLevel <= o.daysOld
  }

  /** What the exit status should be for a whole invocation. */
  ghost function ExitStatus(call: Call, o: Options, matches: (string, string) -> bool, table: Table): int
  {
    if !Reaches(call, o) then EarlyExit(call, o)
    else if !KnownNames(o, matches, table.Keys) then UNKNOWN
    else Severity(o, matches, table)
  }

  class Check {
    var status: Table
    var hostCount: nat
    var goodHost: seq<string>
    var badHost: seq<string>
    var tooOld: seq<string>
    var notTooOld: seq<string>

    constructor (table: Table)
      ensures status == table && hostCount == 0
      ensures goodHost == badHost == tooOld == notTooOld == []
    {
      status, hostCount := table, 0;
      goodHost, badHost, tooOld, notTooOld := [], [], [], [];
    }

    /** Lines 161-214; `order` is the sorted key list. */
    method Classify(o: Options, matches: (string, string) -> bool, order: seq<string>)
      requires Enumerates(order, status)
      requires hostCount == 0 && goodHost == badHost == tooOld == notTooOld == []
      modifies this
      ensures goodHost == Those(o, matches, old(status), order, {Good})
      ensures badHost == Those(o, matches, old(status), order, BAD)
      ensures tooOld == Those(o, matches, old(status), order, {TooOld})
      ensures notTooOld == Those(o, matches, old(status), order, {NotTooOld})
      ensures hostCount == |Those(o, matches, old(status), order, {Good, NotTooOld, TooOld})|
      ensures status.Keys == old(status).Keys
      ensures forall h :: h in status ==> status[h] == Filled(o, matches, h, old(status)[h])
    {
      hide Judge, Filled;
      ghost var table := status;
      var i := 0;
      while i < |order|
        invariant 0 <= i <= |order|
        invariant goodHost == Those(o, matches, table, order[..i], {Good})
        invariant badHost == Those(o, matches, table, order[..i], BAD)
        invariant tooOld == Those(o, matches, table, order[..i], {TooOld})
        invariant notTooOld == Those(o, matches, table, order[..i], {NotTooOld})
        invariant hostCount == |Those(o, matches, table, order[..i], {Good, NotTooOld, TooOld})|
        invariant status.Keys == table.Keys
        invariant forall h :: h in status ==>
                    status[h] == if h in order[..i] then Filled(o, matches, h, table[h]) else table[h]
      {
        var host := order[i];
        assert order[..i + 1][..i] == order[..i];
        assert host !in order[..i];
        assert status[host] == table[host];
        Visit(o, matches, host);
        i := i + 1;
      }
      assert order[..i] == order;
    }

    /** The body of the loop, with its `next`s as returns. */
    method Visit(o: Options, matches: (string, string) -> bool, host: string)
      requires host in status
      modifies this
      ensures var v := Judge(o, matches, host, old(status)[host]);
        && goodHost == old(goodHost) + (if v == Good then [host] else [])
        && badHost == old(badHost) + (if v in BAD then [host] else [])
        && tooOld == old(tooOld) + (if v == TooOld then [host] else [])
        && notTooOld == old(notTooOld) + (if v == NotTooOld then [host] else [])
        && hostCount == old(hostCount) + (if v != Skipped then 1 else 0)
        && status == old(status)[host := Filled(o, matches, host, old(status)[host])]
    {
      var s := status[host];
      if " " <= host { return; }
      if o.desired != [] && !(exists d :: d in o.desired && matches(host, d)) { return; }
      if o.excluded != [] && (exists x :: x in o.excluded && matches(host, x)) { return; }
      if o.backupOnly && s.kind == "archive" { return; }
      if o.archiveOnly && s.kind != "archive" { return; }
      hostCount := hostCount + 1;
      if Failing(s) {
        if o.statusOnly && ConnectionError(s) {
          if s.lastGoodBackupTime - s.startTime <= o.fullPeriod * DAY {
            goodHost := goodHost + [host];
            return;
          }
        }
        badHost := badHost + [host];
        if s.lastGoodBackupTime == 0.0 {
          s := s.(lastGoodBackupTime := s.startTime);
          status := status[host := s];
        }
        if o.now - s.lastGoodBackupTime > o.daysOld * DAY {
          tooOld := tooOld + [host];
        } else if o.now - s.lastGoodBackupTime > o.warnLevel * DAY {
          notTooOld := notTooOld + [host];
        } else {
          goodHost := goodHost + [host];
          badHost := badHost[..|badHost| - 1];
        }
      } else {
        goodHost := goodHost + [host];
      }
    }

    /** Lines 216-265: `and` binds tighter than `or`, and `$#list` is the last index. */
    method Exit(reduce: int) returns (exit: int)
      requires hostCount == |goodHost| + |badHost| && |badHost| == |tooOld| + |notTooOld|
      ensures exit == Reduced(|badHost|, |tooOld|, reduce)
    {
      if hostCount == |goodHost| || (|badHost| - 1 < reduce && tooOld == []) { return OK; }
      if |tooOld| - 1 < 0 || |badHost| - 1 < reduce { return WARNING; }
      return CRITICAL;
    }

    /** Lines 75-265, from the options to the exit status. */
    method Run(call: Call, o: Options, matches: (string, string) -> bool, order: seq<string>) returns (exit: int)
      requires Enumerates(order, status)
      requires hostCount == 0 && goodHost == badHost == tooOld == notTooOld == []
      modifies this
      ensures exit == ExitStatus(call, o, matches, old(status))
    {
      hide Judge, Filled, Those, HostsWith;
      var goodOpt := call.parsed;
      if call.version { return OK; }
      if o.backupOnly && o.archiveOnly { goodOpt := false; }
      if call.help || !goodOpt {
        if goodOpt { return OK; }
        return UNKNOWN;
      }
      if o.warnLevel > o.daysOld { return UNKNOWN; }
      if !call.library { return CRITICAL; }
      if !call.connected { return UNKNOWN; }
      var known := CheckNames(o.desired + o.excluded, matches);
      if !known { return UNKNOWN; }
      ghost var table := status;
      Classify(o, matches, order);
      Partition(o, matches, table, order);
      ThoseAreHosts(o, matches, table, order, BAD);
      ThoseAreHosts(o, matches, table, order, {TooOld});
      exit := Exit(o.reduce);
    }

    /** Lines 151-158. */
    method CheckNames(names: seq<string>, matches: (string, string) -> bool) returns (known: bool)
      ensures known <==> forall p :: p in names ==> exists h :: h in status.Keys && matches(p, h)
    {
      var i := 0;
      while i < |names|
        invariant 0 <= i <= |names|
        invariant forall p :: p in names[..i] ==> exists h :: h in status.Keys && matches(p, h)
      {
        if !(exists h :: h in status.Keys && matches(names[i], h)) {
          assert names[i] in names;
          return false;
        }
        assert names[..i + 1] == names[..i] + [names[i]];
        i := i + 1;
      }
      assert names[..i] == names;
      return true;
    }
  }

  // ---------- The four lists ----------

  /** Every counted host is good or bad, every bad one too old or not too old. */
  lemma Partition(o: Options, matches: (string, string) -> bool, table: Table, order: seq<string>)
    ensures var good, bad := Those(o, matches, table, order, {Good}), Those(o, matches, table, order, BAD);
            var older := Those(o, matches, table, order, {TooOld});
            var recent := Those(o, matches, table, order, {NotTooOld});
            && |Those(o, matches, table, order, {Good, NotTooOld, TooOld})| == |good| + |bad|
            && multiset(bad) == multiset(older) + multiset(recent) && |bad| == |older| + |recent|
            && (forall h :: h in good ==> h !in bad) && (forall h :: h in older ==> h !in recent)
  {
    SplitVerdicts(o, matches, table, order, {Good}, BAD);
    SplitVerdicts(o, matches, table, order, {TooOld}, {NotTooOld});
    assert {Good} + BAD == {Good, NotTooOld, TooOld} && {TooOld} + {NotTooOld} == BAD;
  }

  lemma {:induction false} SplitVerdicts(o: Options, matches: (string, string) -> bool, table: Table,
                                         order: seq<string>, u: set<Verdict>, v: set<Verdict>)
    requires u !! v
    ensures var a, b := Those(o, matches, table, order, u), Those(o, matches, table, order, v);
            var both := Those(o, matches, table, order, u + v);
            && multiset(both) == multiset(a) + multiset(b) && |both| == |a| + |b|
            && (forall h :: h in a ==> h !in b)
  {
    if order != [] {
      SplitVerdicts(o, matches, table, order[..|order| - 1], u, v);
    }
    ThoseJudged(o, matches, table, order, u);
    ThoseJudged(o, matches, table, order, v);
  }

  lemma {:induction false} ThoseJudged(o: Options, matches: (string, string) -> bool, table: Table,
                                       order: seq<string>, verdicts: set<Verdict>)
    ensures forall h :: h in Those(o, matches, table, order, verdicts) <==>
              h in order && h in table && Judge(o, matches, h, table[h]) in verdicts
  {
    if order != [] {
      var n := |order| - 1;
      ThoseJudged(o, matches, table, order[..n], verdicts);
      assert order == order[..n] + [order[n]];
    }
  }

  /** A list of distinct hosts is as long as its set. */
  lemma ThoseAreHosts(o: Options, matches: (string, string) -> bool, table: Table,
                                         order: seq<string>, verdicts: set<Verdict>)
    requires Enumerates(order, table)
    ensures |Those(o, matches, table, order, verdicts)| == |HostsWith(o, matches, table, verdicts)|
  {
    ThoseDistinct(o, matches, table, order, verdicts);
    ThoseJudged(o, matches, table, order, verdicts);
    var those := Those(o, matches, table, order, verdicts);
    DistinctLength(those);
    assert (set h | h in those) == HostsWith(o, matches, table, verdicts);
  }

  lemma {:induction false} ThoseDistinct(o: Options, matches: (string, string) -> bool, table: Table,
                                         order: seq<string>, verdicts: set<Verdict>)
    requires Distinct(order)
    ensures Distinct(Those(o, matches, table, order, verdicts))
  {
    if order != [] {
      var n := |order| - 1;
      ThoseDistinct(o, matches, table, order[..n], verdicts);
      ThoseJudged(o, matches, table, order[..n], verdicts);
      assert order[n] !in order[..n];
      assert order[n] !in Those(o, matches, table, order[..n], verdicts);
    }
  }

  lemma {:induction false} DistinctLength(s: seq<string>)
    requires Distinct(s)
    ensures |set h | h in s| == |s|
  {
    if s != [] {
      var n := |s| - 1;
      DistinctLength(s[..n]);
      assert (set h | h in s) == (set h | h in s[..n]) + {s[n]};
    }
  }

  // ---------- Monotonicity ----------

  /** `o'` is no more lenient than `o` and looks no earlier, with the same host filters. */
  predicate NoMoreLenient(o: Options, o': Options)
  {
    && o.now <= o'.now && o.daysOld >= o'.daysOld && o.warnLevel >= o'.warnLevel && o.reduce >= o'.reduce
    && o' == o.(now := o'.now, daysOld := o'.daysOld, warnLevel := o'.warnLevel, reduce := o'.reduce)
  }

  /** The severity never drops when time advances or hosts are added, and never rises when the
      critical age, the warning age or the reduction is raised. */
  lemma SeverityMonotone(o: Options, o': Options, matches: (string, string) -> bool,
                                            table: Table, table': Table)
    requires NoMoreLenient(o, o')
    requires forall h :: h in table ==> h in table' && table'[h] == table[h]
    ensures Severity(o, matches, table) <= Severity(o', matches, table')
  {
    forall h | h in table
      ensures Judge(o, matches, h, table[h]) in BAD ==> Judge(o', matches, h, table[h]) in BAD
      ensures Judge(o, matches, h, table[h]) == TooOld ==> Judge(o', matches, h, table[h]) == TooOld
    {}
    SubsetSize(HostsWith(o, matches, table, BAD), HostsWith(o', matches, table', BAD));
    SubsetSize(HostsWith(o, matches, table, {TooOld}), HostsWith(o', matches, table', {TooOld}));
  }

  lemma SubsetSize(a: set<string>, b: set<string>)
    requires a <= b
    ensures |a| <= |b|
  {
    assert b == a + (b - a);
  }

  // ---------- Hosts that are never looked at ----------

  /** A table of these hosts, each of its type. */
  ghost predicate TableOf(table: Table, kinds: map<string, string>)
  {
    table.Keys == kinds.Keys && forall h :: h in table ==> table[h].kind == kinds[h]
  }

  /** The plugin reports OK whatever the hosts' backups look like exactly when its filters select no
      host: passing the check for unknown names does not mean that anything is checked. */
  lemma AlwaysOkExactlyWhen(call: Call, o: Options, matches: (string, string) -> bool, kinds: map<string, string>)
    requires Reaches(call, o) && KnownNames(o, matches, kinds.Keys)
    ensures (forall table: Table :: TableOf(table, kinds) ==> ExitStatus(call, o, matches, table) == OK)
            <==> forall h :: h in kinds ==> !Selected(o, matches, h, kinds[h])
  {
    if forall h :: h in kinds ==> !Selected(o, matches, h, kinds[h]) {
      forall table: Table | TableOf(table, kinds) ensures ExitStatus(call, o, matches, table) == OK {
        assert HostsWith(o, matches, table, BAD) == {} && HostsWith(o, matches, table, {TooOld}) == {};
      }
    } else {
      var h :| h in kinds && Selected(o, matches, h, kinds[h]);
      var started := o.now - o.daysOld * DAY - 1.0;
      var table := map k | k in kinds :: HostStatus(kinds[k], "backup failed", 0.0, started);
      assert TableOf(table, kinds);
      assert Judge(o, matches, h, table[h]) == TooOld;
      assert h in HostsWith(o, matches, table, {TooOld});
      assert ExitStatus(call, o, matches, table) == Severity(o, matches, table) > OK;
    }
  }

  /** Literal names as patterns. */
  predicate Occurs(p: string, t: string)
  {
    p <= t || (t != [] && Occurs(p, t[1..]))
  }

  /** A case in point: asked for "db" on a server that knows only "db1", the plugin accepts the name,
      since it occurs in "db1", but "db1" does not occur in "db": OK however old the failed backup. */
  lemma ShortNameChecksNothing(o: Options, status: HostStatus)
    requires o.desired == ["db"] && o.excluded == []
    requires !(o.backupOnly && o.archiveOnly) && o.warnLevel <= o.daysOld
    ensures ExitStatus(Call(true, false, false, true, true), o, Occurs, map["db1" := status]) == OK
  {
    var table: Table := map["db1" := status];
    var kinds := map["db1" := status.kind];
    assert Occurs("db", "db1") by { assert "db" <= "db1"; }
    assert !Occurs("db1", "db") by { assert "db"[1..] == "b" && "b"[1..] == []; }
    assert TableOf(table, kinds);
    AlwaysOkExactlyWhen(Call(true, false, false, true, true), o, Occurs, kinds);
  }

  // ---------- The connectivity exemption ----------

  /** The difference the help text speaks of, for a host that cannot be reached: how long after its
      last good backup the failing job started. */
  predicate ExemptAsDocumented(o: Options, s: HostStatus)
  {
    o.statusOnly && ConnectionError(s) && s.startTime - s.lastGoodBackupTime <= o.fullPeriod * DAY
  }

  /** With the operands of line 182 in the documented order the exemption would have an upper limit;
      as it is, it agrees with that exactly while the two times are within one full period. */
  lemma ExemptionAgreesExactlyWhen(o: Options, s: HostStatus)
    requires o.statusOnly && ConnectionError(s) && o.fullPeriod >= 0.0
    ensures (Exempt(o, s) <==> ExemptAsDocumented(o, s))
            <==> -(o.fullPeriod * DAY) <= s.startTime - s.lastGoodBackupTime <= o.fullPeriod * DAY
  {
    assert o.fullPeriod * DAY >= 0.0;
  }

  /** A selected host that could not be reached counts as good, however old its last backup, as long
      as that backup precedes the failing job. */
  lemma UnreachableIsGood(o: Options, matches: (string, string) -> bool, host: string, s: HostStatus)
    requires o.statusOnly && ConnectionError(s) && o.fullPeriod >= 0.0
    requires s.lastGoodBackupTime <= s.startTime
    ensures Selected(o, matches, host, s.kind) ==> Judge(o, matches, host, s) == Good
  {
    assert o.fullPeriod * DAY >= 0.0;
  }

  /** A case in point: a host last backed up a hundred days before its failing job, with a full
      period of a week and a critical age of as many days, is exempt, against the help text. */
  lemma LongUnreachableExempt(o: Options)
    requires o.statusOnly && o.fullPeriod == 7.0
    ensures var s := HostStatus("backup", "no ping response", DAY, 101.0 * DAY);
            Exempt(o, s) && !ExemptAsDocumented(o, s)
  {}

  // ---------- The exit status in the script's own terms ----------

  /** A failure the plugin is to report: of a host that the options let through, with an error that is not
      excused, and more than so many days without a good backup. */
  ghost predicate OldFailure(o: Options, matches: (string, string) -> bool, host: string, s: HostStatus, days: real)
  {
    && (host == "" || host[0] != ' ')
    && (|o.desired| > 0 ==> exists i :: 0 <= i < |o.desired| && matches(host, o.desired[i]))
    && (forall i :: 0 <= i < |o.excluded| ==> !matches(host, o.excluded[i]))
    && (o.backupOnly ==> s.kind != "archive")
    && (o.archiveOnly ==> s.kind == "archive")
    && s.error != "" && s.error != "0"
    && !(o.statusOnly && s.error in {"ping too slow", "no ping response", "host not found"}
         && s.lastGoodBackupTime - s.startTime <= o.fullPeriod * 86400.0)
    && o.now - (if s.lastGoodBackupTime != 0.0 then s.lastGoodBackupTime else s.startTime) > days * 86400.0
  }

  ghost function OldFailures(o: Options, matches: (string, string) -> bool, table: Table, days: real): set<string>
  {
    set h | h in table && OldFailure(o, matches, h, table[h], days)
  }

  /** A plugin that gets to the hosts exits 2 if one of them has failed for more than the critical age,
      else 1 if one has for more than the warning age, else 0; and one less if no more than `reduce` of
      them have failed that long, but never less than 0. */
  lemma ExitStatusMeans(call: Call, o: Options, matches: (string, string) -> bool, table: Table)
    requires call.parsed && !call.version && !call.help && call.library && call.connected
    requires !(o.backupOnly && o.archiveOnly) && o.warnLevel <= o.daysOld
    requires forall p :: p in o.desired || p in o.excluded ==> exists h :: h in table && matches(p, h)
    ensures var critical := OldFailures(o, matches, table, o.daysOld);
            var failed := OldFailures(o, matches, table, o.warnLevel);
            var worst := if critical != {} then 2 else if failed != {} then 1 else 0;
            && ExitStatus(call, o, matches, table) == (if |failed| <= o.reduce && worst > 0 then worst - 1 else worst)
            && (o.reduce <= 0 ==> ExitStatus(call, o, matches, table) == worst)
  {
    forall h | h in table
      ensures OldFailure(o, matches, h, table[h], o.daysOld) <==> Judge(o, matches, h, table[h]) == TooOld
      ensures OldFailure(o, matches, h, table[h], o.warnLevel) <==> Judge(o, matches, h, table[h]) in BAD
    {
      FailureJudged(o, matches, h, table[h]);
    }
    hide OldFailure, Judge;
    assert OldFailures(o, matches, table, o.daysOld) == HostsWith(o, matches, table, {TooOld});
    assert OldFailures(o, matches, table, o.warnLevel) == HostsWith(o, matches, table, BAD);
    assert KnownNames(o, matches, table.Keys);
  }

  lemma FailureJudged(o: Options, matches: (string, string) -> bool, h: string, s: HostStatus)
    requires o.warnLevel <= o.daysOld
    ensures OldFailure(o, matches, h, s, o.daysOld) <==> Judge(o, matches, h, s) == TooOld
    ensures OldFailure(o, matches, h, s, o.warnLevel) <==> Judge(o, matches, h, s) in BAD
  {
    assert " " <= h <==> h != "" && h[0] == ' ';
    assert o.daysOld * 86400.0 >= o.warnLevel * 86400.0;
    FilterMeans(o, matches, h, s.kind);
    hide Selected;
  }

  lemma FilterMeans(o: Options, matches: (string, string) -> bool, h: string, kind: string)
    ensures Selected(o, matches, h, kind) <==>
            && (h == "" || h[0] != ' ')
            && (|o.desired| > 0 ==> exists i :: 0 <= i < |o.desired| && matches(h, o.desired[i]))
            && (forall i :: 0 <= i < |o.excluded| ==> !matches(h, o.excluded[i]))
            && (o.backupOnly ==> kind != "archive")
            && (o.archiveOnly ==> kind == "archive")
  {
    assert " " <= h <==> h != "" && h[0] == ' ';
    if d :| d in o.desired && matches(h, d) {
      var i :| 0 <= i < |o.desired| && o.desired[i] == d;
    }
    if x :| x in o.excluded && matches(h, x) {
      var i :| 0 <= i < |o.excluded| && o.excluded[i] == x;
    }
  }

  /** A plugin that does not get to the hosts: 0 for the version and for help asked for alone, 2 without the
      library, and otherwise 3. */
  lemma EarlyExitMeans(call: Call, o: Options, matches: (string, string) -> bool, table: Table)
    ensures var exit := ExitStatus(call, o, matches, table);
            var misused := !call.parsed || (o.backupOnly && o.archiveOnly);
            && (call.version ==> exit == 0)
            && (!call.version && misused ==> exit == 3)
            && (!call.version && !misused && call.help ==> exit == 0)
            && (!call.version && !misused && !call.help ==>
                  && (o.warnLevel > o.daysOld ==> exit == 3)
                  && (o.warnLevel <= o.daysOld && !call.library ==> exit == 2)
                  && (o.warnLevel <= o.daysOld && call.library && !call.connected ==> exit == 3)
                  && (o.warnLevel <= o.daysOld && call.library && call.connected
                      && (exists p :: p in o.desired + o.excluded && forall h :: h in table ==> !matches(p, h)) ==>
                        exit == 3))
  {}

  /** With the default thresholds, a backup that failed yesterday is a warning. */
  lemma YesterdaysFailureWarns(o: Options, matches: (string, string) -> bool)
    requires o.warnLevel == 0.0 && o.daysOld == 7.0 && o.reduce == 0 && o.desired == [] && o.excluded == []
    requires !o.backupOnly && !o.archiveOnly && o.now == 100.0 * DAY
    ensures var table: Table := map["db1" := HostStatus("backup", "backup failed", o.now - DAY, o.now)];
            ExitStatus(Call(true, false, false, true, true), o, matches, table) == 1
  {
    var table: Table := map["db1" := HostStatus("backup", "backup failed", o.now - DAY, o.now)];
    ExitStatusMeans(Call(true, false, false, true, true), o, matches, table);
    assert OldFailure(o, matches, "db1", table["db1"], 0.0);
    assert "db1" in OldFailures(o, matches, table, 0.0);
    assert OldFailures(o, matches, table, 7.0) == {};
  }
}
