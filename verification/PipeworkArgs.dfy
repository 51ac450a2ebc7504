/** pipework's command line: positional parameters shifted in place, and the address and MAC
    arguments split at their separators. */
module PipeworkArgs {
  import opened Text
  import opened LinkNames
  import opened Network
  import opened Pipework
  import opened AttachRuns

  /** The script's variables after line 39. `rest` is what follows the guest. */
  datatype Parsed = Parsed(wait: bool, directPhys: bool, ifname: string, container: string,
                           local: string, family: string, guest: string, address: string,
                           mac: string, rest: seq<string>)

  /** Positional parameter `i`, counted from 0; an absent one expands to nothing. */
  function Arg(args: seq<string>, i: nat): string
  {
    if i < |args| then args[i] else ""
  }

  /** Where the interface name stands after an optional `flag value` behind it is shifted away. */
  function Past(args: seq<string>, at: nat, flag: string): nat
  {
    if Arg(args, at + 1) == flag then at + 2 else at
  }

  function From(args: seq<string>, i: nat): seq<string>
  {
    if i <= |args| then args[i..] else []
  }

  /** The parse in terms of positions in the original argument vector: `o0` is the interface
      name's, `o1`, `o2`, `o3` are two further for each flag found. */
  function Parse(args: seq<string>): Parsed
  {
    var o0 := if Arg(args, 0) == "--direct-phys" then 1 else 0;
    var o1 := Past(args, o0, "-i");
    var o2 := Past(args, o1, "-l");
    ParsedAt(args, o0, o1, o2, Past(args, o2, "-a"))
  }

  function ParsedAt(args: seq<string>, o0: nat, o1: nat, o2: nat, o3: nat): Parsed
  {
    Parsed(Arg(args, 0) == "--wait", o0 == 1, Arg(args, o0),
           if o1 > o0 then Arg(args, o0 + 2) else "",
           if o2 > o1 then Arg(args, o1 + 2) else "",
           if o3 > o2 then "-" + Arg(args, o2 + 2) else "-4",
           Arg(args, o3 + 1), Arg(args, o3 + 2), Arg(args, o3 + 3), From(args, o3 + 2))
  }

  lemma Shifted(argv: seq<string>, o: nat, n: nat)
    ensures From(From(argv, o), n) == From(argv, o + n)
    ensures forall k: nat :: Arg(From(argv, o), k) == Arg(argv, o + k)
  {}

  /** `[ "$2" = flag ]`, then the value and `shift 2`. */
  method TakeFlag(args: seq<string>, flag: string) returns (found: bool, value: string, left: seq<string>)
    requires flag != ""
    ensures found == (Arg(args, 1) == flag)
    ensures value == (if found then Arg(args, 2) else "")
    ensures left == if found then From(args, 2) else args
  {
    found, value, left := false, "", args;
    if Arg(args, 1) == flag {
      found, value, left := true, Arg(args, 2), args[2..];
    }
  }

  /** Lines 6-39, shifting the parameters as the script does. */
  method ParseArguments(argv: seq<string>) returns (p: Parsed)
    ensures p == Parse(argv)
  {
    var wait, directPhys := false, false;
    var args := argv;
    ghost var o := 0;
    if Arg(args, 0) == "--wait" {
      wait := true;
    } else if Arg(args, 0) == "--direct-phys" {
      directPhys := true;
      args, o := args[1..], 1;
    }
    Shifted(argv, o, 0);
    p := ParseAfterMode(args, wait, directPhys, argv, o);
  }

  /** Lines 16-39. */
  method ParseAfterMode(argv: seq<string>, wait: bool, directPhys: bool, ghost whole: seq<string>, ghost o: nat)
    returns (p: Parsed)
    requires argv == From(whole, o) && o == (if directPhys then 1 else 0)
    requires wait == (Arg(whole, 0) == "--wait") && directPhys == (Arg(whole, 0) == "--direct-phys")
    ensures p == Parse(whole)
  {
    hide From, Arg;
    var found, container, local, family;
    var args := argv;
    ghost var o1 := Past(whole, o, "-i");
    ghost var o2 := Past(whole, o1, "-l");
    ghost var o3 := Past(whole, o2, "-a");
    Shifted(whole, o, 2);
    var ifname := Arg(args, 0);
    found, container, args := TakeFlag(args, "-i");
    Shifted(whole, o1, 2);
    found, local, args := TakeFlag(args, "-l");
    Shifted(whole, o2, 2);
    found, family, args := TakeFlag(args, "-a");
    Shifted(whole, o3, 2);
    family := if found then "-" + family else "-4";
    p := Parsed(wait, directPhys, ifname, container, local, family,
                Arg(args, 1), Arg(args, 2), Arg(args, 3), From(args, 2));
  }

  /** A command line as its author means it. */
  datatype Request = Request(directPhys: bool, ifname: string, container: Option<string>,
                             local: Option<string>, family: Option<string>, guest: string,
                             rest: seq<string>)

  function Flag(name: string, v: Option<string>): seq<string>
  {
    match v
    case None => []
    case Some(s) => [name, s]
  }

  function Render(r: Request): seq<string>
  {
    (if r.directPhys then ["--direct-phys"] else []) + [r.ifname] + Flag("-i", r.container)
    + Flag("-l", r.local) + Flag("-a", r.family) + [r.guest] + r.rest
  }

  function OrElse(v: Option<string>, default: string): string
  {
    if v.Some? then v.value else default
  }

  /** What the script should know: an absent flag leaves its default. */
  function Meaning(r: Request): Parsed
  {
    Parsed(false, r.directPhys, r.ifname, OrElse(r.container, ""), OrElse(r.local, ""),
           "-" + OrElse(r.family, "4"), r.guest, Arg(r.rest, 0), Arg(r.rest, 1), r.rest)
  }

  /** The interface is no mode flag, and the guest no flag the script still looks for. */
  predicate Unambiguous(r: Request)
  {
    && (!r.directPhys ==> r.ifname != "--direct-phys" && r.ifname != "--wait")
    && (r.family.None? ==> r.guest != "-a")
    && (r.family.None? && r.local.None? ==> r.guest != "-l")
    && (r.family.None? && r.local.None? && r.container.None? ==> r.guest != "-i")
  }

  /** Every field of a rendered request is recovered, and all that follows the guest is forwarded
      unchanged (which is what the route, rule and tc modes pass on), exactly when the request is
      unambiguous. */
  lemma ArgumentsRoundTrip(r: Request)
    ensures Parse(Render(r)) == Meaning(r) <==> Unambiguous(r)
  {
    if Unambiguous(r) {
      MeantPositions(r);
      MeantFields(r);
    } else if r.directPhys || (r.ifname != "--direct-phys" && r.ifname != "--wait") {
      GuestTakenForFlag(r);
    } else {
      RenderedAt(r);
    }
  }

  /** A guest called "-i" is lost, and its address becomes the interface name. */
  lemma GuestNamedLikeFlag()
    ensures var p := Parse(["br0", "-i", "10.0.0.2/24"]);
            p.guest == "" && p.container == "10.0.0.2/24" && p.address == ""
    ensures Render(Request(false, "br0", None, None, None, "-i", ["10.0.0.2/24"])) == ["br0", "-i", "10.0.0.2/24"]
  {}

  /** Where the interface name, and what follows each flag, stands in a rendered request. */
  function Positions(r: Request): (nat, nat, nat, nat)
  {
    var d := if r.directPhys then 1 else 0;
    var i := d + |Flag("-i", r.container)|;
    var l := i + |Flag("-l", r.local)|;
    (d, i, l, l + |Flag("-a", r.family)|)
  }

  lemma MeantPositions(r: Request)
    requires Unambiguous(r)
    ensures var (d, i, l, a) := Positions(r);
            Parse(Render(r)) == ParsedAt(Render(r), d, i, l, a)
  {
    hide Render;
    RenderedAt(r);
  }

  lemma MeantFields(r: Request)
    requires Unambiguous(r)
    ensures var (d, i, l, a) := Positions(r);
            ParsedAt(Render(r), d, i, l, a) == Meaning(r)
  {}

  lemma GuestTakenForFlag(r: Request)
    requires !Unambiguous(r)
    requires r.directPhys || (r.ifname != "--direct-phys" && r.ifname != "--wait")
    ensures Parse(Render(r)) != Meaning(r)
  {
    hide Render;
    RenderedAt(r);
  }

  lemma RenderedAt(r: Request)
    ensures var args := Render(r);
            var (d, i, l, a) := Positions(r);
            && (r.directPhys ==> args[0] == "--direct-phys") && |args| == a + 2 + |r.rest|
            && args[d] == r.ifname && args[a + 1] == r.guest && args[a + 2..] == r.rest
            && (r.container.Some? ==> args[d + 1] == "-i" && args[d + 2] == r.container.value)
            && (r.local.Some? ==> args[i + 1] == "-l" && args[i + 2] == r.local.value)
            && (r.family.Some? ==> args[l + 1] == "-a" && args[l + 2] == r.family.value)
  {}

  /** The mode flags, which are looked for in first place only; after `--wait` nothing is shifted. */
  lemma ModeFlags(args: seq<string>)
    ensures Parse(args).wait <==> |args| > 0 && args[0] == "--wait"
    ensures Parse(args).directPhys <==> |args| > 0 && args[0] == "--direct-phys"
    ensures Parse(["--wait", "-i", "eth2"]).container == "eth2" && Parse(["--wait"]).container == ""
  {}

  // ---------- The MAC and address arguments ----------

  /** Lines 41-50: `mac[@vlan]`. */
  function SplitMac(raw: string): (string, string)
  {
    if '@' in raw then (Before(raw, '@'), Before(After(raw, '@'), '@')) else (raw, "")
  }

  /** A MAC address and a VLAN are recovered exactly when neither contains the separator. */
  lemma MacRoundTrip(mac: string, vlan: string)
    ensures SplitMac(mac + "@" + vlan) == (mac, vlan) <==> '@' !in mac && '@' !in vlan
    ensures SplitMac(mac) == (mac, "") <==> '@' !in mac
  {
    var raw := mac + "@" + vlan;
    assert raw[|mac|] == '@';
    assert '@' !in SplitMac(raw).0 && '@' !in SplitMac(raw).1;
    if '@' !in mac {
      assert raw == mac + ['@'] + vlan;
      CutAtFirst(mac, '@', vlan);
      if '@' !in vlan { CutAbsent(vlan, '@'); }
    }
  }

  /** `part` is the text up to the next at sign. */
  predicate UpToAt(text: string, part: string)
  {
    part <= text && '@' !in part && (|part| < |text| ==> text[|part|] == '@')
  }

  /** The MAC argument in general: up to the first at sign, and from there up to the next. */
  lemma MacMeans(raw: string)
    ensures var (mac, vlan) := SplitMac(raw);
            && UpToAt(raw, mac)
            && (if |mac| == |raw| then vlan == "" else UpToAt(raw[|mac| + 1..], vlan))
  {}

  datatype AddressSpec =
    | Dhcp(client: string, foreground: bool, options: string)
    | Static(address: string, gateway: string)
    | Rejected

  const DHCP_CLIENTS := ["dhcp", "udhcpc", "udhcpc-f", "dhcpcd", "dhclient", "dhclient-f"]

  /** The argument is a client's name, possibly with options behind a colon. */
  predicate IsDhcp(raw: string)
  {
    Before(raw, ':') in DHCP_CLIENTS
  }

  /** The shell pattern with a slash and, somewhere behind it, an at sign. */
  predicate HasMaskAndGateway(raw: string)
  {
    '/' in raw && '@' in After(raw, '/')
  }

  function WithoutForeground(client: string): string
  {
    if |client| >= 2 && client[|client| - 2..] == "-f" then client[..|client| - 2] else client
  }

  /** Lines 209-255. */
  function SplitAddress(raw: string): AddressSpec
  {
    if IsDhcp(raw) then
      var client := Before(raw, ':');
      Dhcp(WithoutForeground(client), WithoutForeground(client) != client,
           if ':' in raw then After(raw, ':') else "")
    else if HasMaskAndGateway(raw) then Static(Before(raw, '@'), Before(After(raw, '@'), '@'))
    else if '/' in raw then Static(raw, "")
    else Rejected
  }

  /** The DHCP clients, with and without options; two of them may be told to stay in the foreground. */
  lemma DhcpForms(client: string, foreground: bool, options: string)
    requires client == "dhcp" || client == "udhcpc" || client == "dhcpcd" || client == "dhclient"
    requires foreground ==> client == "udhcpc" || client == "dhclient"
    ensures var text := client + if foreground then "-f" else "";
            && SplitAddress(text) == Dhcp(client, foreground, "")
            && SplitAddress(text + [':'] + options) == Dhcp(client, foreground, options)
  {
    var text := client + if foreground then "-f" else "";
    assert text in DHCP_CLIENTS by { DhcpNames(text); }
    assert ':' !in text;
    ClientForm(text, options);
    assert WithoutForeground(text) == client by { StripForeground(client); }
    hide SplitAddress, WithoutForeground;
  }

  lemma StripForeground(client: string)
    requires client == "dhcp" || client == "udhcpc" || client == "dhcpcd" || client == "dhclient"
    ensures WithoutForeground(client) == client && WithoutForeground(client + "-f") == client
  {
    assert (client + "-f")[|client|..] == "-f" && (client + "-f")[..|client|] == client;
    assert client[|client| - 1] != 'f';
  }

  lemma ClientForm(client: string, options: string)
    requires ':' !in client && client in DHCP_CLIENTS
    ensures var plain := WithoutForeground(client);
            && SplitAddress(client) == Dhcp(plain, plain != client, "")
            && SplitAddress(client + [':'] + options) == Dhcp(plain, plain != client, options)
  {
    var text := client + [':'] + options;
    CutAtFirst(client, ':', options);
    CutAbsent(client, ':');
    assert text[|client|] == ':';
    hide DHCP_CLIENTS;
  }

  /** Any other address needs a mask; the gateway is what stands between the first two at signs, if there is
      one behind a slash. */
  lemma OtherAddresses(raw: string)
    requires forall c :: c in DHCP_CLIENTS ==> raw != c && !(c + ":" <= raw)
    ensures '/' !in raw ==> SplitAddress(raw) == Rejected
    ensures var gatewayed := exists i, j :: 0 <= i < j < |raw| && raw[i] == '/' && raw[j] == '@';
            && ('/' in raw && !gatewayed ==> SplitAddress(raw) == Static(raw, ""))
            && (gatewayed ==>
                  && SplitAddress(raw).Static? && UpToAt(raw, SplitAddress(raw).address)
                  && |SplitAddress(raw).address| < |raw|
                  && UpToAt(raw[|SplitAddress(raw).address| + 1..], SplitAddress(raw).gateway))
  {
    if IsDhcp(raw) { DhcpMeans(raw); }
    MaskAndGatewayMeans(raw);
    if HasMaskAndGateway(raw) {
      assert '@' in raw;
      BetweenAts(raw);
    }
    hide IsDhcp, HasMaskAndGateway, DHCP_CLIENTS, UpToAt, Before, After;
  }

  lemma BetweenAts(raw: string)
    requires '@' in raw
    ensures var first := Before(raw, '@');
            && UpToAt(raw, first) && |first| < |raw|
            && UpToAt(raw[|first| + 1..], Before(After(raw, '@'), '@'))
  {}

  lemma DhcpMeans(raw: string)
    requires IsDhcp(raw)
    ensures exists c :: c in DHCP_CLIENTS && (raw == c || c + ":" <= raw)
  {
    hide DHCP_CLIENTS;
    var i := FirstIndex(raw, ':');
    if i < |raw| { assert raw[..i] + ":" == raw[..i + 1]; } else { assert raw[..i] == raw; }
  }

  lemma MaskAndGatewayMeans(raw: string)
    ensures HasMaskAndGateway(raw) <==> exists i, j :: 0 <= i < j < |raw| && raw[i] == '/' && raw[j] == '@'
  {
    var k := FirstIndex(raw, '/');
    if i, j :| 0 <= i < j < |raw| && raw[i] == '/' && raw[j] == '@' {
      assert k <= i;
      assert After(raw, '/')[j - k - 1] == '@';
    }
    if HasMaskAndGateway(raw) {
      var j :| 0 <= j < |After(raw, '/')| && After(raw, '/')[j] == '@';
      assert raw[k] == '/' && raw[k + 1 + j] == '@';
    }
  }

  /** The six names. */
  lemma DhcpNames(c: string)
    ensures c in DHCP_CLIENTS <==>
            c == "dhcp" || c == "udhcpc" || c == "udhcpc-f" || c == "dhcpcd" || c == "dhclient" || c == "dhclient-f"
  {}

  /** Line 454: the address announced to the neighbours. */
  function ArpTarget(address: string): string { Before(address, '/') }

  /** Line 9 of the service template. */
  function UnitAddress(ip: string, mask: string, gateway: string): string
  {
    ip + "/" + mask + "@" + gateway
  }

  /** The template's address is split back into its three parts exactly when no part contains the
      separator behind it and the whole is not taken for a DHCP client. */
  lemma AddressRoundTrip(ip: string, mask: string, gateway: string)
    ensures SplitAddress(UnitAddress(ip, mask, gateway)) == Static(ip + "/" + mask, gateway)
            && ArpTarget(ip + "/" + mask) == ip
            <==>
            '@' !in ip && '@' !in mask && '@' !in gateway && '/' !in ip
            && !IsDhcp(UnitAddress(ip, mask, gateway))
  {
    var raw, net := UnitAddress(ip, mask, gateway), ip + "/" + mask;
    assert raw == net + ['@'] + gateway;
    assert raw[|ip|] == '/' && raw[|net|] == '@';
    if '@' !in ip && '@' !in mask && '@' !in gateway && '/' !in ip {
      UnitAddressSplits(ip, mask, gateway);
    } else {
      assert '@' !in Before(raw, '@') && '@' !in Before(After(raw, '@'), '@');
      assert '@' in ip ==> '@' in net;
      assert forall k :: 0 <= k < |mask| ==> net[|ip| + 1 + k] == mask[k];
      assert '/' !in ArpTarget(net);
    }
  }

  lemma UnitAddressSplits(ip: string, mask: string, gateway: string)
    requires '@' !in ip && '@' !in mask && '@' !in gateway && '/' !in ip
    ensures HasMaskAndGateway(UnitAddress(ip, mask, gateway))
    ensures Before(UnitAddress(ip, mask, gateway), '@') == ip + "/" + mask
    ensures Before(After(UnitAddress(ip, mask, gateway), '@'), '@') == gateway
    ensures ArpTarget(ip + "/" + mask) == ip
  {
    var raw, net, behind := UnitAddress(ip, mask, gateway), ip + "/" + mask, mask + "@" + gateway;
    assert raw == net + ['@'] + gateway && raw == ip + ['/'] + behind && net == ip + ['/'] + mask;
    CutAtFirst(ip, '/', mask);
    CutAtFirst(ip, '/', behind);
    CutAtFirst(net, '@', gateway);
    CutAbsent(gateway, '@');
    assert raw[|ip|] == '/' && behind[|mask|] == '@';
  }

  // ---------- From the service unit to the link table ----------

  /** The configuration a parsed bridge-mode command line stands for. */
  function ConfigOf(p: Parsed, pid: nat, ns: Namespace): Option<Config>
  {
    var (mac, vlan) := SplitMac(p.mac);
    match SplitAddress(p.address)
    case Static(address, _) =>
      Some(Config(p.ifname, if p.container == "" then "eth1" else p.container, p.local, pid, ns,
                  mac, vlan, address))
    case _ => None
  }

  function UnitArguments(interface: string, name: string, ip: string, mask: string, gateway: string): seq<string>
  {
    [interface, name, UnitAddress(ip, mask, gateway)]
  }

  /** What any unambiguous bridge-mode request with a static address configures: each field of the link
      configuration is the one asked for, the interface being `eth1` if none is. */
  lemma RequestConfigures(r: Request, ip: string, mask: string, gateway: string, mac: string, vlan: string,
                          pid: nat, ns: Namespace)
    requires Unambiguous(r) && '@' !in mac && '@' !in vlan
    requires r.rest == [ip + "/" + mask + "@" + gateway]
                       + (if vlan != "" then [mac + "@" + vlan] else if mac != "" then [mac] else [])
    requires '@' !in ip && '@' !in mask && '@' !in gateway && '/' !in ip
    requires !IsDhcp(UnitAddress(ip, mask, gateway))
    ensures ConfigOf(Parse(Render(r)), pid, ns)
            == Some(Config(r.ifname,
                           if r.container.Some? && r.container.value != "" then r.container.value else "eth1",
                           if r.local.Some? then r.local.value else "",
                           pid, ns, mac, vlan, ip + "/" + mask))
  {
    ArgumentsRoundTrip(r);
    AddressRoundTrip(ip, mask, gateway);
    MacRoundTrip(mac, vlan);
    hide Parse, Render, SplitMac, SplitAddress, IsDhcp, Unambiguous, ArpTarget;
    var meaning := Meaning(r);
    assert meaning.address == UnitAddress(ip, mask, gateway);
    assert meaning.mac == if vlan != "" then mac + "@" + vlan else mac;
  }

  /** Starting the service's unit on a bridge attaches the container as the template says: `eth1`
      up with the template's address, its host end up on the bridge. */
  lemma ServiceUnitAttaches(interface: string, name: string, ip: string, mask: string,
                            gateway: string, pid: nat, ns: Namespace, links: Links)
    requires interface != "--wait" && interface != "--direct-phys"
    requires name != "-i" && name != "-l" && name != "-a"
    requires '@' !in ip && '@' !in mask && '@' !in gateway && '/' !in ip
    requires !IsDhcp(UnitAddress(ip, mask, gateway))
    ensures var cfg := ConfigOf(Parse(UnitArguments(interface, name, ip, mask, gateway)), pid, ns);
            cfg.Some? &&
            (WellFormed(links) && FullRun(links, cfg.value).1 == Completed ==>
              var after := FullRun(links, cfg.value).0;
              var local, inside := OnHost(LocalName("eth1", pid)), Key(ns, "eth1");
              && local in after && inside in after
              && after[local] == Link(Veth, true, Some(inside), Some(OnHost(interface)), "", {})
              && after[inside] == Link(Veth, true, Some(local), None, "", {ip + "/" + mask}))
  {
    var r := Request(false, interface, None, None, None, name, [UnitAddress(ip, mask, gateway)]);
    assert Render(r) == UnitArguments(interface, name, ip, mask, gateway);
    RequestConfigures(r, ip, mask, gateway, "", "", pid, ns);
    var cfg := Config(interface, "eth1", "", pid, ns, "", "", ip + "/" + mask);
    assert ConfigOf(Parse(Render(r)), pid, ns) == Some(cfg);
    hide Parse, ConfigOf, Render, UnitArguments, Unambiguous, FullRun, IsDhcp;
    if WellFormed(links) && FullRun(links, cfg).1 == Completed {
      CompletedLeaves(links, cfg);
    }
  }
}
