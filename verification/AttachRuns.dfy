/** One run of pipework on a Linux bridge: the exact table it leaves wherever it is interrupted, what
    it leaves alone, and when it completes. */
module AttachRuns {
  import opened Text
  import opened LinkNames
  import opened Network
  import opened Pipework
  import opened AttachStages

  predicate Accepted(links: Links, cfg: Config) { BridgeMode(links, cfg) && cfg.vlan == "" }

  /** A new bridge that has not been raised yet. */
  function HalfBridged(links: Links, cfg: Config): Links
  {
    links[BridgeKey(cfg) := NEW_BRIDGE.(up := false)]
  }

  /** Number of statements before the veth pair is added. */
  function Lead(links: Links, cfg: Config): nat
  {
    |BridgeSteps(links, cfg)| + |ClearSteps(links, cfg)|
  }

  /** How many statements of the run were executed. */
  function Reached(links: Links, cfg: Config, limit: nat): nat
  {
    Executed(links, Steps(links, cfg), limit)
  }

  /** The table after `n` statements. */
  function At(links: Links, cfg: Config, n: nat): Links
  {
    var b := |BridgeSteps(links, cfg)|;
    if n < b then (if n == 0 then links else HalfBridged(links, cfg))
    else if LocalUp(links, cfg) || n < Lead(links, cfg) then Bridged(links, cfg)
    else Stage(Base(links, cfg), cfg, n - Lead(links, cfg))
  }

  lemma BridgedWellFormed(links: Links, cfg: Config)
    requires WellFormed(links)
    ensures WellFormed(Bridged(links, cfg)) && WellFormed(Base(links, cfg))
  {
    assert forall k :: k in links ==> PeerSound(links, k) && MasterSound(links, k);
    var b := Bridged(links, cfg);
    assert WellFormed(b);
    if LocalKey(cfg) in b { DeletedWellFormed(b, LocalKey(cfg)); }
  }

  /** After its first statements a run stands at its own plan for the rest. */
  lemma BridgePhase(links: Links, cfg: Config, limit: nat)
    requires WellFormed(links) && Accepted(links, cfg)
    ensures var bs := BridgeSteps(links, cfg);
            var n := Executed(links, bs, limit);
            Exec(links, bs, limit) == (if n == 0 then links else if n < |bs| then HalfBridged(links, cfg)
                                       else Bridged(links, cfg), n == |bs|)
            && (n == |bs| == 0 ==> links == Bridged(links, cfg))
  {
    var bs := BridgeSteps(links, cfg);
    if bs != [] && limit > 0 && Possible(links, bs[0]) {
      var l1 := Effect(links, bs[0]);
      assert l1 == HalfBridged(links, cfg);
      ExecNext(links, bs, 0, limit);
      assert bs[0..] == bs;
      if limit > 1 {
        ExecNext(l1, bs, 1, limit - 1);
        assert Effect(l1, bs[1]) == Bridged(links, cfg);
      }
    }
  }

  lemma ClearPhase(links: Links, cfg: Config, limit: nat)
    ensures var cs := ClearSteps(links, cfg);
            var n := Executed(Bridged(links, cfg), cs, limit);
            Exec(Bridged(links, cfg), cs, limit)
            == (if n == |cs| then Base(links, cfg) else Bridged(links, cfg), n == |cs|)
  {}

  function TailSteps(links: Links, cfg: Config): seq<Command>
  {
    ClearSteps(links, cfg) + BuildSteps(cfg)
  }

  lemma ClearThenBuild(links: Links, cfg: Config, limit: nat)
    ensures var c := |ClearSteps(links, cfg)|;
            var n := Executed(Bridged(links, cfg), ClearSteps(links, cfg), limit);
            if n < c then
              n == 0 && Executed(Bridged(links, cfg), TailSteps(links, cfg), limit) == 0
              && Exec(Bridged(links, cfg), TailSteps(links, cfg), limit) == (Bridged(links, cfg), false)
            else
              c <= limit
              && Executed(Bridged(links, cfg), TailSteps(links, cfg), limit)
                 == c + Executed(Base(links, cfg), BuildSteps(cfg), limit - c)
              && Exec(Bridged(links, cfg), TailSteps(links, cfg), limit)
                 == Exec(Base(links, cfg), BuildSteps(cfg), limit - c)
  {
    var l, cs := Bridged(links, cfg), ClearSteps(links, cfg);
    ClearPhase(links, cfg, limit);
    if Executed(l, cs, limit) < |cs| {
      ExecCut(l, cs, BuildSteps(cfg), limit);
    } else {
      ExecPast(l, cs, BuildSteps(cfg), limit);
    }
  }

  lemma TailReaches(links: Links, cfg: Config, limit: nat)
    requires WellFormed(links) && !LocalUp(links, cfg)
    ensures var n := |BridgeSteps(links, cfg)| + Executed(Bridged(links, cfg), TailSteps(links, cfg), limit);
            && Exec(Bridged(links, cfg), TailSteps(links, cfg), limit)
               == (At(links, cfg, n), n == |Steps(links, cfg)|)
            && (n >= Lead(links, cfg) ==> Apart(Base(links, cfg), cfg, n - Lead(links, cfg)))
  {
    hide Exec, Executed;
    var c := |ClearSteps(links, cfg)|;
    ClearThenBuild(links, cfg, limit);
    BridgedWellFormed(links, cfg);
    if Executed(Bridged(links, cfg), ClearSteps(links, cfg), limit) == c {
      BuildReaches(Base(links, cfg), cfg, limit - c);
    }
  }

  /** A run that finds the host end down first provides the bridge, then does the rest. */
  lemma BridgeThenTail(links: Links, cfg: Config, limit: nat)
    requires WellFormed(links) && Accepted(links, cfg) && !LocalUp(links, cfg)
    ensures var b := |BridgeSteps(links, cfg)|;
            var n := Executed(links, BridgeSteps(links, cfg), limit);
            if n < b then
              Reached(links, cfg, limit) == n
              && Exec(links, Steps(links, cfg), limit) == (if n == 0 then links else HalfBridged(links, cfg), false)
            else
              b <= limit
              && Reached(links, cfg, limit) == b + Executed(Bridged(links, cfg), TailSteps(links, cfg), limit - b)
              && Exec(links, Steps(links, cfg), limit)
                 == Exec(Bridged(links, cfg), TailSteps(links, cfg), limit - b)
  {
    var bs, tail := BridgeSteps(links, cfg), TailSteps(links, cfg);
    assert Steps(links, cfg) == bs + tail;
    BridgePhase(links, cfg, limit);
    if Executed(links, bs, limit) < |bs| {
      ExecCut(links, bs, tail, limit);
    } else {
      ExecPast(links, bs, tail, limit);
    }
  }

  lemma WorkReaches(links: Links, cfg: Config, limit: nat)
    requires WellFormed(links) && Accepted(links, cfg) && !LocalUp(links, cfg)
    ensures var n := Reached(links, cfg, limit);
            && Exec(links, Steps(links, cfg), limit) == (At(links, cfg, n), n == |Steps(links, cfg)|)
            && (n >= Lead(links, cfg) ==> Apart(Base(links, cfg), cfg, n - Lead(links, cfg)))
  {
    hide Exec, Executed;
    var b := |BridgeSteps(links, cfg)|;
    BridgeThenTail(links, cfg, limit);
    if Executed(links, BridgeSteps(links, cfg), limit) == b {
      TailReaches(links, cfg, limit - b);
    }
  }

  /** An interrupted run leaves exactly the table of the statement it had reached. */
  lemma RunReaches(links: Links, cfg: Config, limit: nat)
    requires WellFormed(links) && Accepted(links, cfg)
    ensures var n := Reached(links, cfg, limit);
            && Run(links, cfg, limit).0 == At(links, cfg, n)
            && (!LocalUp(links, cfg) && n >= Lead(links, cfg) ==>
                Apart(Base(links, cfg), cfg, n - Lead(links, cfg)))
  {
    if LocalUp(links, cfg) {
      BridgePhase(links, cfg, limit);
      assert Steps(links, cfg) == BridgeSteps(links, cfg);
    } else {
      WorkReaches(links, cfg, limit);
    }
  }

  // ---------- One run ----------

  /** The links a run deletes: a host end that is down, and its peer. */
  function Doomed(links: Links, cfg: Config): set<Key>
  {
    if Accepted(links, cfg) && !LocalUp(links, cfg) && LocalKey(cfg) in links
    then Removed(links, LocalKey(cfg)) else {}
  }

  /** The only names a run can add to the table. */
  function OwnKeys(cfg: Config): set<Key>
  {
    { BridgeKey(cfg), LocalKey(cfg), OnHost(GuestOf(cfg)), Key(cfg.ns, GuestOf(cfg)),
      Key(cfg.ns, cfg.container) }
  }

  /** Wherever a run is interrupted, every link it does not delete, and whose bridge it does not
      delete, is still there with the same up flag, peer, bridge and addresses; nothing appears
      outside the run's own names. */
  lemma RunLeavesOthers(links: Links, cfg: Config, limit: nat)
    requires WellFormed(links)
    ensures forall k :: k in links && k !in Doomed(links, cfg)
                        && !(links[k].master.Some? && links[k].master.value in Doomed(links, cfg)) ==>
              k in Run(links, cfg, limit).0 && Run(links, cfg, limit).0[k] == links[k]
    ensures Run(links, cfg, limit).0.Keys <= links.Keys + OwnKeys(cfg)
  {
    if Accepted(links, cfg) {
      RunReaches(links, cfg, limit);
    }
  }

  lemma RunKeepsWellFormed(links: Links, cfg: Config, limit: nat)
    requires WellFormed(links)
    ensures WellFormed(Run(links, cfg, limit).0)
  {
    ExecKeepsWellFormed(links, Steps(links, cfg), limit);
  }

  /** What a completed run leaves: the pair's host end up on the bridge, its peer inside the
      container under the requested name, up, with the requested addresses. */
  function Finished(links: Links, cfg: Config): Links
  {
    var inside := Key(cfg.ns, cfg.container);
    Base(links, cfg)[LocalKey(cfg) := Link(Veth, true, Some(inside), Some(BridgeKey(cfg)), "", {})]
                    [inside := Link(Veth, true, Some(LocalKey(cfg)), None, cfg.mac, {cfg.address})]
  }

  /** A run left alone completes exactly when the host end is down or absent and every name it
      needs is valid and free. */
  lemma FullRunCompletes(links: Links, cfg: Config)
    requires WellFormed(links) && Accepted(links, cfg)
    ensures FullRun(links, cfg).1 == Completed <==>
            && !LocalUp(links, cfg)
            && (BridgeKey(cfg) in links || ValidName(cfg.bridge))
            && Buildable(Base(links, cfg), cfg)
    ensures FullRun(links, cfg).1 == Completed ==> FullRun(links, cfg).0 == Finished(links, cfg)
  {
    var limit := |Steps(links, cfg)|;
    RunReaches(links, cfg, limit);
    if !LocalUp(links, cfg) {
      FullTail(links, cfg);
    }
  }

  lemma FullTail(links: Links, cfg: Config)
    requires WellFormed(links) && Accepted(links, cfg) && !LocalUp(links, cfg)
    ensures ExecAll(links, Steps(links, cfg)).1 <==>
            (BridgeKey(cfg) in links || ValidName(cfg.bridge)) && Buildable(Base(links, cfg), cfg)
  {
    var b, cs, limit := |BridgeSteps(links, cfg)|, ClearSteps(links, cfg), |Steps(links, cfg)|;
    BridgePhase(links, cfg, limit);
    BridgeThenTail(links, cfg, limit);
    if Executed(links, BridgeSteps(links, cfg), limit) == b {
      ClearPhase(links, cfg, limit - b);
      ClearThenBuild(links, cfg, limit - b);
      BridgedWellFormed(links, cfg);
      BuildCompletes(Base(links, cfg), cfg);
    }
  }

  // ---------- How a run ends, in the script's own terms ----------

  /** A run is refused exactly with a VLAN, or when its first argument names a link that is no bridge, or no
      link and does not begin like a bridge's name; then nothing is changed. */
  lemma RefusedExactlyWhen(links: Links, cfg: Config, limit: nat)
    ensures var named := Key(Host, cfg.bridge);
            Run(links, cfg, limit).1 == Refused <==>
            || cfg.vlan != ""
            || (named in links && links[named].kind != Bridge)
            || (named !in links && (|cfg.bridge| < 2 || cfg.bridge[0] != 'b' || cfg.bridge[1] != 'r'))
    ensures Run(links, cfg, limit).1 == Refused ==> Run(links, cfg, limit).0 == links
  {
    assert "br" <= cfg.bridge <==> |cfg.bridge| >= 2 && cfg.bridge[0] == 'b' && cfg.bridge[1] == 'r';
    hide Exec, Executed, Steps;
  }

  /** On an existing bridge a run left alone ends early with its host end up exactly when that end is up
      before it starts; then nothing is changed. */
  lemma AlreadyUpExactlyWhen(links: Links, cfg: Config)
    requires Key(Host, cfg.bridge) in links && links[Key(Host, cfg.bridge)].kind == Bridge && cfg.vlan == ""
    ensures var local := Key(Host, if cfg.local == "" then LocalName(cfg.container, cfg.pid) else cfg.local);
            && (FullRun(links, cfg).1 == AlreadyUp <==> local in links && links[local].up)
            && (FullRun(links, cfg).1 == AlreadyUp ==> FullRun(links, cfg).0 == links)
  {
    hide BuildSteps;
    if LocalUp(links, cfg) { assert Steps(links, cfg) == []; }
  }

  /** What a completed run leaves: the pair up, its host end on the bridge, its other end in the container
      under the name asked for, with the MAC address and the address asked for; the guest end's temporary
      name is free again, and the bridge is there, up if it is new. */
  lemma CompletedLeaves(links: Links, cfg: Config)
    requires WellFormed(links) && FullRun(links, cfg).1 == Completed
    ensures var after, bridge := FullRun(links, cfg).0, Key(Host, cfg.bridge);
            var local := Key(Host, if cfg.local == "" then LocalName(cfg.container, cfg.pid) else cfg.local);
            var inside := Key(cfg.ns, cfg.container);
            && local in after && after[local] == Link(Veth, true, Some(inside), Some(bridge), "", {})
            && inside in after && after[inside] == Link(Veth, true, Some(local), None, cfg.mac, {cfg.address})
            && Key(Host, GuestName(cfg.container, cfg.pid)) !in after
            && bridge in after && after[bridge].kind == Bridge
            && (bridge !in links ==> after[bridge] == Link(Bridge, true, None, None, "", {}))
  {
    FullRunCompletes(links, cfg);
    NamesDiffer(cfg);
    BuildableBridge(links, cfg);
    hide FullRun;
  }

  lemma BuildableBridge(links: Links, cfg: Config)
    requires Accepted(links, cfg) && Buildable(Base(links, cfg), cfg)
    ensures BridgeKey(cfg) in Base(links, cfg) && Base(links, cfg)[BridgeKey(cfg)].kind == Bridge
    ensures BridgeKey(cfg) !in links ==> Base(links, cfg)[BridgeKey(cfg)] == NEW_BRIDGE
  {}
}
