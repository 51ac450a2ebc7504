/** Several runs of pipework: repeating a run, repairing an interrupted one, and what any history of
    runs for other containers preserves. */
module AttachHistory {
  import opened Text
  import opened LinkNames
  import opened Network
  import opened Pipework
  import opened AttachStages
  import opened AttachRuns
  import opened DummyRuns

  // ---------- Running again ----------

  /** Once the host end is up, a run changes no link, however far it gets. */
  lemma RerunChangesNothing(links: Links, cfg: Config, limit: nat)
    requires Accepted(links, cfg) && BridgeKey(cfg) in links
    requires LocalKey(cfg) in links && links[LocalKey(cfg)].up
    ensures Run(links, cfg, limit) == (links, AlreadyUp)
  {}

  /** A second run after a completed one exits with every link unchanged. */
  lemma RerunAfterCompletion(links: Links, cfg: Config, limit: nat)
    requires WellFormed(links) && FullRun(links, cfg).1 == Completed
    ensures Run(FullRun(links, cfg).0, cfg, limit) == (FullRun(links, cfg).0, AlreadyUp)
  {
    FullRunCompletes(links, cfg);
    var done := FullRun(links, cfg).0;
    assert BridgeKey(cfg) in done && done[BridgeKey(cfg)].kind == Bridge;
    RerunChangesNothing(done, cfg, limit);
  }

  // ---------- Interrupted runs ----------

  /** With the bridge in place and the host end not the bridge itself, clearing keeps the bridge. */
  lemma BaseKeepsBridge(links: Links, cfg: Config)
    requires WellFormed(links) && Accepted(links, cfg) && LocalKey(cfg) != BridgeKey(cfg)
    ensures BridgeKey(cfg) in Base(links, cfg)
    ensures Base(links, cfg)[BridgeKey(cfg)].kind == Bridge
    ensures Base(links, cfg)[BridgeKey(cfg)].up == Bridged(links, cfg)[BridgeKey(cfg)].up
    ensures LocalKey(cfg) !in Base(links, cfg)
  {}

  /** Deleting the half-built pair restores the table it was added to. */
  lemma DeleteUndoesPair(base: Links, cfg: Config, i: nat)
    requires WellFormed(base) && 1 <= i <= BUILD && Apart(base, cfg, i)
    ensures Deleted(Stage(base, cfg, i), LocalKey(cfg)) == base
  {
    assert forall k :: k in base ==> PeerSound(base, k) && MasterSound(base, k);
  }

  /** A full run is the bridge, then clearing and building on the cleared table. */
  lemma FullRunBuilds(links: Links, cfg: Config)
    requires WellFormed(links) && Accepted(links, cfg) && !LocalUp(links, cfg)
    requires BridgeKey(cfg) in links || ValidName(cfg.bridge)
    ensures var r := ExecAll(Base(links, cfg), BuildSteps(cfg));
            FullRun(links, cfg) == (r.0, if r.1 then Completed else Interrupted)
  {
    hide Exec, Executed;
    var b, c, limit := |BridgeSteps(links, cfg)|, |ClearSteps(links, cfg)|, |Steps(links, cfg)|;
    FullBridge(links, cfg, limit);
    BridgeThenTail(links, cfg, limit);
    FullClear(links, cfg, limit - b);
    ClearThenBuild(links, cfg, limit - b);
  }

  lemma FullBridge(links: Links, cfg: Config, limit: nat)
    requires Accepted(links, cfg) && limit >= |BridgeSteps(links, cfg)|
    requires BridgeKey(cfg) in links || ValidName(cfg.bridge)
    ensures Executed(links, BridgeSteps(links, cfg), limit) == |BridgeSteps(links, cfg)|
  {}

  lemma FullClear(links: Links, cfg: Config, limit: nat)
    requires limit >= |ClearSteps(links, cfg)|
    ensures Executed(Bridged(links, cfg), ClearSteps(links, cfg), limit) == |ClearSteps(links, cfg)|
  {}

  /** The state an interrupted run left, and whether the next run makes up for it. */
  ghost predicate BridgeLeftDown(links: Links, mid: Links, cfg: Config)
  {
    BridgeKey(cfg) !in links && BridgeKey(cfg) in mid && !mid[BridgeKey(cfg)].up
  }

  /** Interrupted before the host end is up, and not between creating and raising a new bridge, a
      run is repaired by the next one: it ends as if the first had never been interrupted. */
  lemma NextRunRepairs(links: Links, cfg: Config, limit: nat)
    requires WellFormed(links) && Accepted(links, cfg) && LocalKey(cfg) != BridgeKey(cfg)
    requires !LocalUp(links, cfg)
    requires var mid := Run(links, cfg, limit).0;
             !BridgeLeftDown(links, mid, cfg) && !LocalUp(mid, cfg)
    ensures FullRun(Run(links, cfg, limit).0, cfg) == FullRun(links, cfg)
  {
    var mid := Run(links, cfg, limit).0;
    var n, lead := Reached(links, cfg, limit), Lead(links, cfg);
    RunReaches(links, cfg, limit);
    RunKeepsWellFormed(links, cfg, limit);
    BridgedWellFormed(links, cfg);
    BaseKeepsBridge(links, cfg);
    if n > 0 {
      ProgressNeedsName(links, cfg, limit);
      assert Bridged(mid, cfg) == mid;
      if n > lead {
        DeleteUndoesPair(Base(links, cfg), cfg, n - lead);
      }
      assert Base(mid, cfg) == Base(links, cfg);
      FullRunBuilds(mid, cfg);
      FullRunBuilds(links, cfg);
    }
  }

  lemma ProgressNeedsName(links: Links, cfg: Config, limit: nat)
    requires WellFormed(links) && Accepted(links, cfg) && Reached(links, cfg, limit) > 0
    ensures BridgeKey(cfg) in links || ValidName(cfg.bridge)
  {}

  /** A new bridge that was created but not raised stays down, whatever the next run does. */
  lemma BridgeStaysDown(mid: Links, cfg: Config, limit: nat)
    requires WellFormed(mid) && Accepted(mid, cfg) && LocalKey(cfg) != BridgeKey(cfg)
    requires BridgeKey(cfg) in mid && !mid[BridgeKey(cfg)].up
    ensures BridgeKey(cfg) in Run(mid, cfg, limit).0 && !Run(mid, cfg, limit).0[BridgeKey(cfg)].up
  {
    RunReaches(mid, cfg, limit);
    BaseKeepsBridge(mid, cfg);
  }

  /** Exactly which interruptions the next run repairs, for a run that would have completed, by the
      number of statements executed: every one but the one right after a new bridge is created, and
      those from raising the host end up to, but not including, the last statement. */
  lemma RepairedExactlyWhen(links: Links, cfg: Config, limit: nat)
    requires WellFormed(links) && FullRun(links, cfg).1 == Completed
    ensures var n := Reached(links, cfg, limit);
            FullRun(Run(links, cfg, limit).0, cfg).0 == FullRun(links, cfg).0 <==>
            && !(BridgeKey(cfg) !in links && n == 1)
            && !(Lead(links, cfg) + 3 <= n < Lead(links, cfg) + BUILD)
  {
    var mid, full := Run(links, cfg, limit), FullRun(links, cfg);
    RunReaches(links, cfg, limit);
    RunKeepsWellFormed(links, cfg, limit);
    FullRunCompletes(links, cfg);
    BaseKeepsBridge(links, cfg);
    ReachedMeans(links, cfg, limit);
    if BridgeLeftDown(links, mid.0, cfg) {
      BridgeStaysDown(mid.0, cfg, |Steps(mid.0, cfg)|);
      assert full.0[BridgeKey(cfg)].up;
    } else if LocalUp(mid.0, cfg) {
      StuckRun(links, cfg, limit);
    } else {
      NextRunRepairs(links, cfg, limit);
    }
  }

  /** What the statement reached says about the table left behind. */
  lemma ReachedMeans(links: Links, cfg: Config, limit: nat)
    requires WellFormed(links) && FullRun(links, cfg).1 == Completed
    ensures var n, mid := Reached(links, cfg, limit), Run(links, cfg, limit);
            && (BridgeLeftDown(links, mid.0, cfg) <==> BridgeKey(cfg) !in links && n == 1)
            && (!BridgeLeftDown(links, mid.0, cfg) ==>
                  (LocalUp(mid.0, cfg) <==> n >= Lead(links, cfg) + 3)
                  && (mid.1 == Completed <==> n == Lead(links, cfg) + BUILD))
  {
    RunReaches(links, cfg, limit);
    FullRunCompletes(links, cfg);
    BaseKeepsBridge(links, cfg);
    assert |Steps(links, cfg)| == Lead(links, cfg) + BUILD;
    assert Reached(links, cfg, limit) == |Steps(links, cfg)| <==> Exec(links, Steps(links, cfg), limit).1;
    hide Exec, Executed;
  }

  const SAMPLE := Config("br0", "eth1", "", 42, Container(0), "", "", "10.0.0.2/24")
  const EMPTY: Links := map[]

  /** The script's name for a bridge must begin with "br": a call for a missing `extbr0` is refused. */
  lemma UnknownBridgeRefused(limit: nat)
    ensures Run(EMPTY, SAMPLE.(bridge := "extbr0"), limit) == (EMPTY, Refused)
  {
    RefusedExactlyWhen(EMPTY, SAMPLE.(bridge := "extbr0"), limit);
  }

  lemma SampleCompletes()
    ensures Accepted(EMPTY, SAMPLE) && FullRun(EMPTY, SAMPLE).1 == Completed && Lead(EMPTY, SAMPLE) == 2
    ensures |Steps(EMPTY, SAMPLE)| == 2 + BUILD && Key(Container(0), "eth1") !in Base(EMPTY, SAMPLE)
  {
    assert Decimal(42) == "42" by { assert Decimal(4) == "4"; }
    assert LocalOf(SAMPLE) == "veth1pl42" && GuestOf(SAMPLE) == "veth1pg42";
    assert Bridged(EMPTY, SAMPLE) == map[OnHost("br0") := NEW_BRIDGE];
    hide Exec, Executed;
    FullRunCompletes(EMPTY, SAMPLE);
  }

  /** Both kinds of damage happen: on an empty table, interrupted after its first statement a run leaves
      a bridge that no later run raises; interrupted after its fifth it leaves a host end that every
      later run takes for a finished attachment, although the container has no interface. */
  lemma DamageHappens()
    ensures FullRun(EMPTY, SAMPLE).1 == Completed
    ensures var mid := Run(EMPTY, SAMPLE, 1).0;
            BridgeLeftDown(EMPTY, mid, SAMPLE) && FullRun(mid, SAMPLE).0 != FullRun(EMPTY, SAMPLE).0
    ensures var mid := Run(EMPTY, SAMPLE, 5).0;
            FullRun(mid, SAMPLE) == (mid, AlreadyUp) && Key(Container(0), "eth1") !in mid
  {
    hide Exec, Executed;
    SampleCompletes();
    ReachedOf(EMPTY, SAMPLE, 1);
    ReachedOf(EMPTY, SAMPLE, 5);
    RunReaches(EMPTY, SAMPLE, 5);
    ReachedMeans(EMPTY, SAMPLE, 1);
    ReachedMeans(EMPTY, SAMPLE, 5);
    RepairedExactlyWhen(EMPTY, SAMPLE, 1);
    StuckRun(EMPTY, SAMPLE, 5);
  }

  /** A run that would complete reaches every statement it is given time for. */
  lemma ReachedOf(links: Links, cfg: Config, limit: nat)
    requires FullRun(links, cfg).1 == Completed && limit <= |Steps(links, cfg)|
    ensures Reached(links, cfg, limit) == limit
  {
    ExecutedShorter(links, Steps(links, cfg), limit);
  }

  lemma {:induction false} ExecutedShorter(links: Links, cs: seq<Command>, limit: nat)
    requires ExecAll(links, cs).1 && limit <= |cs|
    ensures Executed(links, cs, limit) == limit
    decreases |cs|
  {
    hide Effect, Possible;
    if limit > 0 { ExecutedShorter(Effect(links, cs[0]), cs[1..], limit - 1); }
  }

  /** A run interrupted with the host end up is taken for a complete one ever after. */
  lemma StuckRun(links: Links, cfg: Config, limit: nat)
    requires WellFormed(links) && FullRun(links, cfg).1 == Completed
    requires LocalUp(Run(links, cfg, limit).0, cfg)
    requires !BridgeLeftDown(links, Run(links, cfg, limit).0, cfg)
    ensures var mid := Run(links, cfg, limit);
            FullRun(mid.0, cfg) == (mid.0, AlreadyUp)
            && (mid.0 == FullRun(links, cfg).0 <==> mid.1 == Completed)
  {
    var mid := Run(links, cfg, limit);
    var n, lead := Reached(links, cfg, limit), Lead(links, cfg);
    RunReaches(links, cfg, limit);
    FullRunCompletes(links, cfg);
    BaseKeepsBridge(links, cfg);
    NamesDiffer(cfg);
    assert n > lead + 2;
    assert BridgeKey(cfg) in mid.0 && mid.0[BridgeKey(cfg)].kind == Bridge;
    RerunChangesNothing(mid.0, cfg, |Steps(mid.0, cfg)|);
    var inside := Key(cfg.ns, cfg.container);
    if n < lead + BUILD {
      assert inside !in mid.0 || !mid.0[inside].up;
      assert mid.1 == Interrupted;
    } else {
      assert mid.0 == Finished(links, cfg);
    }
  }

  // ---------- Histories ----------

  /** One run in either mode, interrupted after `limit` statements if it lasts that long. */
  datatype Event = BridgeEvent(cfg: Config, limit: nat) | DummyEvent(cfg: Config, limit: nat)

  function AfterEvent(links: Links, e: Event): Links
  {
    match e
    case BridgeEvent(cfg, limit) => Run(links, cfg, limit).0
    case DummyEvent(cfg, limit) => DummyRun(links, cfg, limit)
  }

  function History(links: Links, events: seq<Event>): Links
    decreases |events|
  {
    if events == [] then links
    else History(AfterEvent(links, events[0]), events[1..])
  }

  /** The pair of (`container`, `pid`): its host end, and a peer that is either still in the host
      namespace under its generated name or inside a container. */
  ghost predicate Paired(links: Links, container: string, pid: nat, peer: Key)
  {
    var local := OnHost(LocalName(container, pid));
    && local in links && links[local].peer == Some(peer)
    && (peer.ns == Host ==> peer.name == GuestName(container, pid))
  }

  /** A bridge-mode run generates its own names, and it is not a run for (`container`, `pid`). */
  predicate ForAnother(e: Event, container: string, pid: nat)
  {
    e.BridgeEvent? ==> e.cfg.local == "" && (e.cfg.container, e.cfg.pid) != (container, pid)
  }

  /** The link is not enslaved to something that bears the run's generated name. */
  predicate NotItsBridge(l: Link, e: Event)
  {
    e.BridgeEvent? ==> l.master != Some(OnHost(LocalName(e.cfg.container, e.cfg.pid)))
  }

  /** What survives of a pair: both ends, their peer relation, up flags, addresses and bridge. */
  ghost predicate PairKept(before: Links, after: Links, container: string, pid: nat, peer: Key)
    requires WellFormed(before) && Paired(before, container, pid, peer)
  {
    var local := OnHost(LocalName(container, pid));
    assert PeerSound(before, local) && MasterSound(before, local);
    && local in after && after[local] == before[local]
    && peer in after && after[peer] == before[peer]
    && (before[local].master.Some? ==>
          before[local].master.value in after
          && after[before[local].master.value] == before[before[local].master.value])
  }

  lemma RunKeepsPair(links: Links, e: Event, container: string, pid: nat, peer: Key)
    requires WellFormed(links) && Paired(links, container, pid, peer) && ForAnother(e, container, pid)
    requires peer in links ==> NotItsBridge(links[peer], e)
    requires NotItsBridge(links[OnHost(LocalName(container, pid))], e)
    ensures PairKept(links, AfterEvent(links, e), container, pid, peer)
    ensures WellFormed(AfterEvent(links, e))
  {
    if e.DummyEvent? {
      DummyRunAdds(links, e.cfg, e.limit);
      assert PeerSound(links, OnHost(LocalName(container, pid)));
      assert MasterSound(links, OnHost(LocalName(container, pid)));
    } else {
      RunKeepsWellFormed(links, e.cfg, e.limit);
      BridgeRunKeepsPair(links, e, container, pid, peer);
    }
  }

  lemma BridgeRunKeepsPair(links: Links, e: Event, container: string, pid: nat, peer: Key)
    requires e.BridgeEvent?
    requires WellFormed(links) && Paired(links, container, pid, peer) && ForAnother(e, container, pid)
    requires peer in links ==> NotItsBridge(links[peer], e)
    requires NotItsBridge(links[OnHost(LocalName(container, pid))], e)
    ensures PairKept(links, AfterEvent(links, e), container, pid, peer)
  {
    var local, other := OnHost(LocalName(container, pid)), LocalKey(e.cfg);
    RunLeavesOthers(links, e.cfg, e.limit);
    LocalNameInjective(e.cfg.container, e.cfg.pid, container, pid);
    LocalNeverGuest(e.cfg.container, e.cfg.pid, container, pid);
    assert PeerSound(links, local) && MasterSound(links, local);
    assert PeerSound(links, peer) && MasterSound(links, peer);
    var doomed := Doomed(links, e.cfg);
    if doomed != {} { assert PeerSound(links, other); }
    assert local !in doomed && peer !in doomed;
    if links[local].master.Some? {
      var m := links[local].master.value;
      assert PeerSound(links, m) && MasterSound(links, m);
    }
    if links[peer].master.Some? {
      var m := links[peer].master.value;
      assert PeerSound(links, m) && MasterSound(links, m);
    }
  }

  /** Non-interference over any history of runs, complete or interrupted anywhere, for other
      (interface, pid) pairs and whatever bridges, and of dummy-mode runs for any: the pair stays
      exactly as it was. */
  lemma {:induction false} HistoryKeepsPair(links: Links, events: seq<Event>, container: string, pid: nat, peer: Key)
    requires WellFormed(links) && Paired(links, container, pid, peer)
    requires forall e :: e in events ==> ForAnother(e, container, pid)
    requires forall e :: e in events ==> NotItsBridge(links[OnHost(LocalName(container, pid))], e)
    requires forall e :: e in events ==> peer in links ==> NotItsBridge(links[peer], e)
    ensures WellFormed(History(links, events))
    ensures PairKept(links, History(links, events), container, pid, peer)
    decreases |events|
  {
    var local := OnHost(LocalName(container, pid));
    assert PeerSound(links, local) && MasterSound(links, local);
    if events != [] {
      var e, next := events[0], AfterEvent(links, events[0]);
      RunKeepsPair(links, e, container, pid, peer);
      HistoryKeepsPair(next, events[1..], container, pid, peer);
    }
  }

  /** End to end: a container attached by a completed run keeps its network through every later
      history of runs for other containers, and a repeated run for it still changes nothing. */
  lemma AttachedStaysAttached(links: Links, cfg: Config, events: seq<Event>, limit: nat)
    requires WellFormed(links) && FullRun(links, cfg).1 == Completed
    requires cfg.local == "" && cfg.ns != Host
    requires forall e :: e in events ==> ForAnother(e, cfg.container, cfg.pid)
    requires forall e :: e in events && e.BridgeEvent? ==> cfg.bridge != LocalName(e.cfg.container, e.cfg.pid)
    ensures var after := History(Finished(links, cfg), events);
            var inside := Key(cfg.ns, cfg.container);
            && LocalKey(cfg) in after && inside in after
            && after[LocalKey(cfg)] == Link(Veth, true, Some(inside), Some(BridgeKey(cfg)), "", {})
            && after[inside] == Link(Veth, true, Some(LocalKey(cfg)), None, cfg.mac, {cfg.address})
            && Run(after, cfg, limit) == (after, AlreadyUp)
  {
    FullRunCompletes(links, cfg);
    RunKeepsWellFormed(links, cfg, |Steps(links, cfg)|);
    var done, inside := Finished(links, cfg), Key(cfg.ns, cfg.container);
    HistoryKeepsPair(done, events, cfg.container, cfg.pid, inside);
    var after := History(done, events);
    assert MasterSound(after, LocalKey(cfg));
    RerunChangesNothing(after, cfg, limit);
  }

  /** What the hypothesis on the peer's name excludes, exactly: a run for another pair deletes a
      host end, at some statement, if and only if the run gets as far as looking at the link and the
      peer of that host end bears the run's own generated name, which takes a container sharing the
      host's namespace, and is down. */
  lemma OtherRunDeletesExactlyWhen(links: Links, e: Event, container: string, pid: nat, peer: Key)
    requires WellFormed(links) && Accepted(links, e.cfg)
    requires OnHost(LocalName(container, pid)) in links
    requires links[OnHost(LocalName(container, pid))].peer == Some(peer)
    requires e.BridgeEvent? && ForAnother(e, container, pid)
    ensures (exists limit :: OnHost(LocalName(container, pid)) !in Run(links, e.cfg, limit).0) <==>
            && peer == LocalKey(e.cfg) && !links[peer].up
            && (BridgeKey(e.cfg) in links || ValidName(e.cfg.bridge))
  {
    var local := OnHost(LocalName(container, pid));
    LocalNameInjective(e.cfg.container, e.cfg.pid, container, pid);
    assert PeerSound(links, local);
    if limit :| local !in Run(links, e.cfg, limit).0 {
      MissingWasPeer(links, e.cfg, limit, local);
    }
    if peer == LocalKey(e.cfg) && !links[peer].up && (BridgeKey(e.cfg) in links || ValidName(e.cfg.bridge)) {
      var lead := Lead(links, e.cfg);
      assert PeerSound(links, peer);
      assert BridgeKey(e.cfg) !in links ==> BridgeKey(e.cfg) != peer;
      RunClears(links, e.cfg);
      assert local !in Run(links, e.cfg, lead).0;
    }
  }

  lemma MissingWasPeer(links: Links, cfg: Config, limit: nat, k: Key)
    requires WellFormed(links) && Accepted(links, cfg)
    requires k in links && k != LocalKey(cfg) && k !in Run(links, cfg, limit).0
    ensures links[k].peer == Some(LocalKey(cfg)) && LocalKey(cfg) in links && !links[LocalKey(cfg)].up
    ensures BridgeKey(cfg) in links || ValidName(cfg.bridge)
  {
    RunLeavesOthers(links, cfg, limit);
    RunReaches(links, cfg, limit);
    assert PeerSound(links, k);
    if LocalKey(cfg) in links { assert PeerSound(links, LocalKey(cfg)); }
    if links[k].master.Some? { assert MasterSound(links, k); }
    BridgedWellFormed(links, cfg);
    assert Reached(links, cfg, limit) > 0;
    ProgressNeedsName(links, cfg, limit);
  }

  /** Interrupted right before it adds the pair, a run leaves the cleared table. */
  lemma RunClears(links: Links, cfg: Config)
    requires WellFormed(links) && Accepted(links, cfg) && !LocalUp(links, cfg)
    requires BridgeKey(cfg) in links || ValidName(cfg.bridge)
    ensures Run(links, cfg, Lead(links, cfg)).0 == Base(links, cfg)
  {
    var b, c, limit := |BridgeSteps(links, cfg)|, |ClearSteps(links, cfg)|, Lead(links, cfg);
    FullBridge(links, cfg, limit);
    BridgeThenTail(links, cfg, limit);
    FullClear(links, cfg, limit - b);
    ClearThenBuild(links, cfg, limit - b);
    assert Exec(Base(links, cfg), BuildSteps(cfg), 0).0 == Base(links, cfg);
  }
}
