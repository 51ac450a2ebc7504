/** Network interfaces of a machine and the effect of the link commands pipework issues, with
    the kernel's veth, bridge and namespace semantics. */
module Network {
  import opened Text

  datatype Namespace = Host | Container(id: nat)

  /** Names are unique within a namespace, so a link is found under its namespace and name. */
  datatype Key = Key(ns: Namespace, name: string)

  datatype Kind = Bridge | Veth | Other

  datatype Link = Link(kind: Kind, up: bool, peer: Option<Key>, master: Option<Key>,
                       mac: string, addresses: set<string>)

  type Links = map<Key, Link>

  datatype Command =
    | AddBridge(name: string)
    | AddDummy(name: string)
    | AddVeth(left: string, right: string)
    | Delete(name: string)
    | Enslave(name: string, bridge: string)
    | Raise(key: Key)
    | Move(name: string, ns: Namespace)
    | Rename(from: Key, name: string)
    | AssignMac(key: Key, mac: string)
    | AddAddress(key: Key, address: string)

  function OnHost(name: string): Key { Key(Host, name) }

  /** The kernel takes names of one to fifteen characters. */
  predicate ValidName(name: string) { 0 < |name| <= 15 }

  const FRESH_VETH := Link(Veth, false, None, None, "", {})

  /** Deleting one end of a veth pair deletes the other. */
  function Removed(links: Links, key: Key): set<Key>
    requires key in links
  {
    match links[key].peer
    case None => {key}
    case Some(other) => {key, other}
  }

  function WithoutMaster(l: Link, gone: set<Key>): Link
  {
    if l.master.Some? && l.master.value in gone then l.(master := None) else l
  }

  /** Deletion frees the ports of a deleted bridge. */
  function Deleted(links: Links, key: Key): Links
    requires key in links
  {
    var gone := Removed(links, key);
    map k | k in links && k !in gone :: WithoutMaster(links[k], gone)
  }

  function Redirect(r: Option<Key>, from: Key, to: Key): Option<Key>
  {
    if r == Some(from) then Some(to) else r
  }

  /** The link keeps its identity under a new key: whatever referred to it still does. */
  function Rekeyed(links: Links, from: Key, to: Key, l: Link): Links
    requires from in links
  {
    (map k | k in links && k != from ::
      links[k].(peer := Redirect(links[k].peer, from, to),
                master := Redirect(links[k].master, from, to)))[to := l]
  }

  /** Whether the kernel accepts a command. */
  predicate Possible(links: Links, c: Command)
  {
    match c
    case AddBridge(name) => ValidName(name) && OnHost(name) !in links
    case AddDummy(name) => ValidName(name) && OnHost(name) !in links
    case AddVeth(left, right) =>
      && ValidName(left) && ValidName(right) && left != right
      && OnHost(left) !in links && OnHost(right) !in links
    case Delete(name) => OnHost(name) in links
    case Enslave(name, bridge) =>
      && OnHost(name) in links && links[OnHost(name)].kind != Bridge
      && OnHost(bridge) in links && links[OnHost(bridge)].kind == Bridge
    case Raise(key) => key in links
    case Move(name, ns) =>
      && OnHost(name) in links
      && (ns == Host || (links[OnHost(name)].kind != Bridge && Key(ns, name) !in links))
    case Rename(from, name) =>
      && from in links && !links[from].up && ValidName(name)
      && (name == from.name || Key(from.ns, name) !in links)
    case AssignMac(key, _) => key in links
    case AddAddress(key, address) => key in links && address !in links[key].addresses
  }

  function Effect(links: Links, c: Command): Links
    requires Possible(links, c)
  {
    match c
    case AddBridge(name) => links[OnHost(name) := Link(Bridge, false, None, None, "", {})]
    case AddDummy(name) => links[OnHost(name) := Link(Other, false, None, None, "", {})]
    case AddVeth(left, right) =>
      links[OnHost(left) := FRESH_VETH.(peer := Some(OnHost(right)))]
           [OnHost(right) := FRESH_VETH.(peer := Some(OnHost(left)))]
    case Delete(name) => Deleted(links, OnHost(name))
    case Enslave(name, bridge) =>
      var k := OnHost(name);
      links[k := links[k].(master := Some(OnHost(bridge)))]
    case Raise(key) => links[key := links[key].(up := true)]
    case Move(name, ns) =>
      if ns == Host then links
      else
        var k := OnHost(name);
        Rekeyed(links, k, Key(ns, name), links[k].(up := false, master := None, addresses := {}))
    case Rename(from, name) =>
      if name == from.name then links
      else Rekeyed(links, from, Key(from.ns, name), links[from])
    case AssignMac(key, mac) =>
      if mac == "" then links else links[key := links[key].(mac := mac)]
    case AddAddress(key, address) =>
      links[key := links[key].(addresses := links[key].addresses + {address})]
  }

  /** Veth ends point at each other; masters are bridges of the same namespace. */
  ghost predicate PeerSound(links: Links, k: Key)
    requires k in links
  {
    match links[k].peer
    case None => true
    case Some(p) =>
      && p != k && p in links && links[p].peer == Some(k)
      && links[k].kind != Bridge
  }

  ghost predicate MasterSound(links: Links, k: Key)
    requires k in links
  {
    match links[k].master
    case None => true
    case Some(m) => m in links && links[m].kind == Bridge && m.ns == k.ns && links[k].kind != Bridge
  }

  ghost predicate WellFormed(links: Links)
  {
    forall k :: k in links ==> PeerSound(links, k) && MasterSound(links, k)
  }

  lemma DeletedWellFormed(links: Links, key: Key)
    requires WellFormed(links) && key in links
    ensures WellFormed(Deleted(links, key))
  {}

  /** Re-keying keeps every reference sound; a bridge may only be renamed where it is, and a link
      that leaves its namespace leaves its bridge. */
  lemma RekeyedWellFormed(links: Links, from: Key, to: Key, l: Link)
    requires WellFormed(links) && from in links && to !in links
    requires l.kind == links[from].kind && l.peer == links[from].peer
    requires l.master == None || (l.master == links[from].master && to.ns == from.ns)
    requires l.kind == Bridge ==> to.ns == from.ns
    ensures WellFormed(Rekeyed(links, from, to, l))
  {}

  /** Every command the kernel accepts keeps the link table well formed. */
  lemma CommandKeepsWellFormed(links: Links, c: Command)
    requires WellFormed(links) && Possible(links, c)
    ensures WellFormed(Effect(links, c))
  {
    var r := Effect(links, c);
    match c
    case Delete(name) => DeletedWellFormed(links, OnHost(name));
    case Move(name, ns) =>
      if ns != Host {
        var k := OnHost(name);
        RekeyedWellFormed(links, k, Key(ns, name), links[k].(up := false, master := None, addresses := {}));
      }
    case Rename(from, name) =>
      if name != from.name {
        RekeyedWellFormed(links, from, Key(from.ns, name), links[from]);
      }
    case _ =>
      forall k | k in r ensures PeerSound(r, k) && MasterSound(r, k) {
        if k in links { assert PeerSound(links, k) && MasterSound(links, k); }
      }
  }

  /** Executes commands in order. It stops at the first one the kernel refuses and after
      `limit` statements, which stands for a kill, a failing command or a lost machine. */
  function Exec(links: Links, cs: seq<Command>, limit: nat): (r: (Links, bool))
    decreases |cs|
  {
    if cs == [] then (links, true)
    else if limit == 0 || !Possible(links, cs[0]) then (links, false)
    else Exec(Effect(links, cs[0]), cs[1..], limit - 1)
  }

  /** How many commands were executed. */
  function Executed(links: Links, cs: seq<Command>, limit: nat): (n: nat)
    ensures n <= |cs| && n <= limit
    ensures n == |cs| <==> Exec(links, cs, limit).1
    decreases |cs|
  {
    if cs == [] || limit == 0 || !Possible(links, cs[0]) then 0
    else 1 + Executed(Effect(links, cs[0]), cs[1..], limit - 1)
  }

  function ExecAll(links: Links, cs: seq<Command>): (Links, bool) { Exec(links, cs, |cs|) }

  lemma {:induction false} ExecKeepsWellFormed(links: Links, cs: seq<Command>, limit: nat)
    requires WellFormed(links)
    ensures WellFormed(Exec(links, cs, limit).0)
    decreases |cs|
  {
    if cs != [] && limit != 0 && Possible(links, cs[0]) {
      CommandKeepsWellFormed(links, cs[0]);
      ExecKeepsWellFormed(Effect(links, cs[0]), cs[1..], limit - 1);
    }
  }

  /** An interrupted execution can be resumed with the commands it did not reach. */
  lemma {:induction false} ExecResume(links: Links, cs: seq<Command>, limit: nat)
    ensures var n := Executed(links, cs, limit);
            && Exec(links, cs, limit).0 == ExecAll(links, cs[..n]).0
            && ExecAll(links, cs[..n]).1
            && ExecAll(links, cs) == ExecAll(Exec(links, cs, limit).0, cs[n..])
    decreases |cs|
  {
    hide Effect, Possible;
    var n := Executed(links, cs, limit);
    if n == 0 {
      assert cs[n..] == cs && cs[..n] == [];
    } else {
      var rest := cs[1..];
      ExecResume(Effect(links, cs[0]), rest, limit - 1);
      assert cs[..n][1..] == rest[..n - 1];
      assert cs[n..] == rest[n - 1..];
    }
  }

  lemma ExecNext(links: Links, plan: seq<Command>, i: nat, limit: nat)
    requires i < |plan| && limit > 0 && Possible(links, plan[i])
    ensures Exec(links, plan[i..], limit) == Exec(Effect(links, plan[i]), plan[i + 1..], limit - 1)
    ensures Executed(links, plan[i..], limit) == 1 + Executed(Effect(links, plan[i]), plan[i + 1..], limit - 1)
  {}

  /** A part that is cut short ends the execution. */
  lemma {:induction false} ExecCut(links: Links, a: seq<Command>, b: seq<Command>, limit: nat)
    requires Executed(links, a, limit) < |a|
    ensures Exec(links, a + b, limit) == (Exec(links, a, limit).0, false)
    ensures Executed(links, a + b, limit) == Executed(links, a, limit)
    decreases |a|
  {
    hide Effect, Possible;
    if limit > 0 && Possible(links, a[0]) {
      assert (a + b)[1..] == a[1..] + b;
      ExecCut(Effect(links, a[0]), a[1..], b, limit - 1);
    }
  }

  /** After a completed part, execution goes on with the next one. */
  lemma {:induction false} ExecPast(links: Links, a: seq<Command>, b: seq<Command>, limit: nat)
    requires Executed(links, a, limit) == |a|
    ensures Exec(links, a + b, limit) == Exec(Exec(links, a, limit).0, b, limit - |a|)
    ensures Executed(links, a + b, limit) == |a| + Executed(Exec(links, a, limit).0, b, limit - |a|)
    decreases |a|
  {
    hide Effect, Possible;
    if a == [] {
      assert a + b == b;
    } else {
      assert (a + b)[1..] == a[1..] + b;
      ExecPast(Effect(links, a[0]), a[1..], b, limit - 1);
    }
  }

  lemma ExecSplit(links: Links, a: seq<Command>, b: seq<Command>, limit: nat)
    ensures Executed(links, a, limit) < |a| ==>
            Exec(links, a + b, limit) == (Exec(links, a, limit).0, false)
            && Executed(links, a + b, limit) == Executed(links, a, limit)
    ensures Executed(links, a, limit) == |a| ==>
            Exec(links, a + b, limit) == Exec(Exec(links, a, limit).0, b, limit - |a|)
            && Executed(links, a + b, limit) == |a| + Executed(Exec(links, a, limit).0, b, limit - |a|)
  {
    if Executed(links, a, limit) < |a| { ExecCut(links, a, b, limit); } else { ExecPast(links, a, b, limit); }
  }
}
