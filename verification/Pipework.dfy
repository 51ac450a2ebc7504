/** pipework attaching a container: what a run plans to do, read off the table it starts in, and the
    script itself, which does it statement by statement and may be interrupted after any of them. */
module Pipework {
  import opened Text
  import opened LinkNames
  import opened Network

  /** `local` is the `-l` argument, empty when absent; `ns` is the namespace of process `pid`. */
  datatype Config = Config(bridge: string, container: string, local: string, pid: nat,
                           ns: Namespace, mac: string, vlan: string, address: string)

  datatype Outcome = Completed | AlreadyUp | Interrupted | Refused

  function LocalOf(cfg: Config): string
  {
    if cfg.local == "" then LocalName(cfg.container, cfg.pid) else cfg.local
  }

  function GuestOf(cfg: Config): string { GuestName(cfg.container, cfg.pid) }

  function LocalKey(cfg: Config): Key { OnHost(LocalOf(cfg)) }

  function BridgeKey(cfg: Config): Key { OnHost(cfg.bridge) }

  /** The first argument names a Linux bridge, existing or to be created. */
  predicate BridgeMode(links: Links, cfg: Config)
  {
    if BridgeKey(cfg) in links then links[BridgeKey(cfg)].kind == Bridge else "br" <= cfg.bridge
  }

  // ---------- What a run sets out to do, read off the state it starts in ----------

  function BridgeSteps(links: Links, cfg: Config): seq<Command>
  {
    if BridgeKey(cfg) in links then [] else [AddBridge(cfg.bridge), Raise(BridgeKey(cfg))]
  }

  const NEW_BRIDGE := Link(Bridge, true, None, None, "", {})

  function Bridged(links: Links, cfg: Config): Links
  {
    if BridgeKey(cfg) in links then links else links[BridgeKey(cfg) := NEW_BRIDGE]
  }

  predicate LocalUp(links: Links, cfg: Config)
  {
    var b := Bridged(links, cfg);
    LocalKey(cfg) in b && b[LocalKey(cfg)].up
  }

  function ClearSteps(links: Links, cfg: Config): seq<Command>
  {
    if LocalKey(cfg) in Bridged(links, cfg) then [Delete(LocalOf(cfg))] else []
  }

  /** The table the veth pair is added to. */
  function Base(links: Links, cfg: Config): Links
  {
    var b := Bridged(links, cfg);
    if LocalKey(cfg) in b then Deleted(b, LocalKey(cfg)) else b
  }

  /** Creating the pair and attaching its host end. */
  function HostSteps(cfg: Config): seq<Command>
  {
    [ AddVeth(LocalOf(cfg), GuestOf(cfg)),
      Enslave(LocalOf(cfg), cfg.bridge),
      Raise(LocalKey(cfg)) ]
  }

  /** Handing the guest end over to the container and configuring it there. */
  function GuestSteps(cfg: Config): seq<Command>
  {
    [ Move(GuestOf(cfg), cfg.ns),
      Rename(Key(cfg.ns, GuestOf(cfg)), cfg.container),
      AssignMac(Key(cfg.ns, cfg.container), cfg.mac),
      AddAddress(Key(cfg.ns, cfg.container), cfg.address),
      Raise(Key(cfg.ns, cfg.container)) ]
  }

  /** Dummy mode, lines 371-374, hands its link over in the same way. */
  function DummyOf(cfg: Config): string { DummyName(cfg.container, cfg.pid) }

  function DummySteps(cfg: Config): seq<Command>
  {
    [ AddDummy(DummyOf(cfg)),
      Move(DummyOf(cfg), cfg.ns),
      Rename(Key(cfg.ns, DummyOf(cfg)), cfg.container),
      AssignMac(Key(cfg.ns, cfg.container), cfg.mac),
      AddAddress(Key(cfg.ns, cfg.container), cfg.address),
      Raise(Key(cfg.ns, cfg.container)) ]
  }

  function BuildSteps(cfg: Config): seq<Command> { HostSteps(cfg) + GuestSteps(cfg) }

  function Steps(links: Links, cfg: Config): seq<Command>
  {
    BridgeSteps(links, cfg) +
    (if LocalUp(links, cfg) then [] else ClearSteps(links, cfg) + BuildSteps(cfg))
  }

  /** One run that is interrupted after `limit` statements, if it lasts that long. */
  function Run(links: Links, cfg: Config, limit: nat): (Links, Outcome)
  {
    if !BridgeMode(links, cfg) || cfg.vlan != "" then (links, Refused)
    else
      var r := Exec(links, Steps(links, cfg), limit);
      (r.0, if !r.1 then Interrupted else if LocalUp(links, cfg) then AlreadyUp else Completed)
  }

  function FullRun(links: Links, cfg: Config): (Links, Outcome)
  {
    Run(links, cfg, |Steps(links, cfg)|)
  }

  // ---------- The script ----------

  class Machine {
    var links: Links
    var statements: nat  // still to be executed before the run is interrupted

    constructor (links: Links, statements: nat)
      ensures this.links == links && this.statements == statements
    {
      this.links, this.statements := links, statements;
    }

    /** One command under `set -e`: if it fails, nothing after it is executed. */
    method Execute(c: Command) returns (ok: bool)
      modifies this
      ensures ok == (old(statements) > 0 && Possible(old(links), c))
      ensures ok ==> links == Effect(old(links), c) && statements == old(statements) - 1
      ensures !ok ==> links == old(links) && statements == old(statements)
    {
      if statements == 0 || !Possible(links, c) { return false; }
      links, statements := Effect(links, c), statements - 1;
      return true;
    }

    /** Bridge mode: lines 96-115, 156-158 and 281-329, then the container's side. */
    method Attach(cfg: Config) returns (outcome: Outcome)
      modifies this
      ensures (links, outcome) == Run(old(links), cfg, old(statements))
    {
      if BridgeKey(cfg) in links {
        if links[BridgeKey(cfg)].kind != Bridge { return Refused; }
      } else if !("br" <= cfg.bridge) {
        return Refused;
      }
      if cfg.vlan != "" { return Refused; }
      ghost var rest := Steps(links, cfg);
      var ok;
      if BridgeKey(cfg) !in links {
        ok := Execute(AddBridge(cfg.bridge));
        if !ok { return Interrupted; }
        rest := rest[1..];
        assert Exec(old(links), Steps(old(links), cfg), old(statements)) == Exec(links, rest, statements);
        ok := Execute(Raise(BridgeKey(cfg)));
        if !ok { return Interrupted; }
        rest := rest[1..];
        assert links == Bridged(old(links), cfg);
      }
      assert Exec(old(links), Steps(old(links), cfg), old(statements)) == Exec(links, rest, statements);
      assert rest == if LocalUp(old(links), cfg) then [] else ClearSteps(old(links), cfg) + BuildSteps(cfg);
      if LocalKey(cfg) in links {
        if links[LocalKey(cfg)].up { return AlreadyUp; }
        ok := Execute(Delete(LocalOf(cfg)));
        if !ok { return Interrupted; }
        rest := rest[1..];
      }
      assert rest == BuildSteps(cfg);
      assert Exec(old(links), Steps(old(links), cfg), old(statements)) == Exec(links, rest, statements);
      outcome := AttachPair(cfg);
    }

    /** Lines 310-328 and 389-443. */
    method AttachPair(cfg: Config) returns (outcome: Outcome)
      modifies this
      ensures var r := Exec(old(links), BuildSteps(cfg), old(statements));
              links == r.0 && outcome == if r.1 then Completed else Interrupted
    {
      hide Exec, Executed;
      ExecSplit(links, HostSteps(cfg), GuestSteps(cfg), statements);
      var ok := AttachHostEnd(cfg);
      if !ok { return Interrupted; }
      ok := AttachGuestEnd(cfg);
      return if ok then Completed else Interrupted;
    }

    /** Lines 310-328. */
    method AttachHostEnd(cfg: Config) returns (ok: bool)
      modifies this
      ensures (links, ok) == Exec(old(links), HostSteps(cfg), old(statements))
      ensures ok ==> statements == old(statements) - |HostSteps(cfg)|
    {
      ghost var plan := HostSteps(cfg);
      ok := Next(AddVeth(LocalOf(cfg), GuestOf(cfg)), plan);
      if !ok { return; }
      ok := Next(Enslave(LocalOf(cfg), cfg.bridge), plan[1..]);
      if !ok { return; }
      ok := Next(Raise(LocalKey(cfg)), plan[2..]);
    }

    /** Lines 389-443. */
    method AttachGuestEnd(cfg: Config) returns (ok: bool)
      modifies this
      ensures (links, ok) == Exec(old(links), GuestSteps(cfg), old(statements))
    {
      ghost var plan := GuestSteps(cfg);
      var inside := Key(cfg.ns, cfg.container);
      ok := Next(Move(GuestOf(cfg), cfg.ns), plan);
      if !ok { return; }
      ok := Next(Rename(Key(cfg.ns, GuestOf(cfg)), cfg.container), plan[1..]);
      if !ok { return; }
      ok := Next(AssignMac(inside, cfg.mac), plan[2..]);  // a no-op without a MAC address
      if !ok { return; }
      ok := Next(AddAddress(inside, cfg.address), plan[3..]);
      if !ok { return; }
      ok := Next(Raise(inside), plan[4..]);
    }

    /** Lines 371-374 and 389-443. */
    method AttachDummy(cfg: Config) returns (ok: bool)
      modifies this
      ensures (links, ok) == Exec(old(links), DummySteps(cfg), old(statements))
    {
      ghost var plan := DummySteps(cfg);
      var inside := Key(cfg.ns, cfg.container);
      ok := Next(AddDummy(DummyOf(cfg)), plan);
      if !ok { return; }
      ok := Next(Move(DummyOf(cfg), cfg.ns), plan[1..]);
      if !ok { return; }
      ok := Next(Rename(Key(cfg.ns, DummyOf(cfg)), cfg.container), plan[2..]);
      if !ok { return; }
      ok := Next(AssignMac(inside, cfg.mac), plan[3..]);
      if !ok { return; }
      ok := Next(AddAddress(inside, cfg.address), plan[4..]);
      if !ok { return; }
      ok := Next(Raise(inside), plan[5..]);
    }

    /** Executes `c`, the first command of what is left of the plan. */
    method Next(c: Command, ghost rest: seq<Command>) returns (ok: bool)
      requires rest != [] && rest[0] == c
      modifies this
      ensures ok ==> Exec(old(links), rest, old(statements)) == Exec(links, rest[1..], statements)
      ensures !ok ==> Exec(old(links), rest, old(statements)) == (links, false)
      ensures ok ==> statements == old(statements) - 1
    {
      ok := Execute(c);
    }
  }
}
