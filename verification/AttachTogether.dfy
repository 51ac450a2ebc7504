/** Several containers attached at the same time, the statements of their runs interleaved in any way:
    the table at every moment. */
module AttachTogether {
  import opened Text
  import opened Network
  import opened Pipework
  import opened AttachStages
  import opened AttachRuns
  import opened AttachHistory
  import opened AttachProgress
  import opened AttachOrder

  // ---------- One statement ----------

  /** One statement of a run on whatever the table is by then, and where the run stands after it; `None`
      if it ends the run early. The tests are the script's lines 96-115 with 156-158, 282, 301 and 303. */
  function Next(table: Links, cfg: Config, p: Point): Option<(Links, Point)>
  {
    match p
    case TestMode => if Accepted(table, cfg) then Some((table, TestBridge)) else None
    case TestBridge => Some((table, if BridgeKey(cfg) in table then TestLocal else CreateBridge))
    case CreateBridge => Issue(table, AddBridge(cfg.bridge), RaiseBridge)
    case RaiseBridge => Issue(table, Raise(BridgeKey(cfg)), TestLocal)
    case TestLocal => Some((table, if LocalKey(cfg) in table then TestUp else Build(0)))
    case TestUp =>
      if LocalKey(cfg) in table && table[LocalKey(cfg)].up then None else Some((table, ClearLocal))
    case ClearLocal => Issue(table, Delete(LocalOf(cfg)), Build(0))
    case Build(n) => if n == BUILD then Some((table, p)) else Issue(table, BuildSteps(cfg)[n], Build(n + 1))
  }

  function Issue(table: Links, c: Command, p: Point): Option<(Links, Point)>
  {
    if Possible(table, c) then Some((Effect(table, c), p)) else None
  }

  /** The same statement seen beside the other runs, `o` being the table they make on their own: the
      bridge is part of that table once it is created, and another run may have taken away what this
      one found. */
  function NextOn(o: Links, cfg: Config, p: Point): Option<(Links, Point)>
  {
    var k := BridgeKey(cfg);
    match p
    case CreateBridge => if k in o then None else Some((o[k := NEW_BRIDGE.(up := false)], RaiseBridge))
    case RaiseBridge => if k in o then Some((o[k := o[k].(up := true)], TestLocal)) else None
    case ClearLocal => if LocalKey(cfg) in o then Some((Progress(o, cfg, Build(0)), Build(0))) else None
    case _ => Some((Progress(o, cfg, Following(o, cfg, p)), Following(o, cfg, p)))
  }

  /** What comes next for a run nothing fails for. */
  function Following(links: Links, cfg: Config, p: Point): Point
  {
    match p
    case TestMode => TestBridge
    case TestBridge => if BridgeKey(cfg) in links then TestLocal else CreateBridge
    case CreateBridge => RaiseBridge
    case RaiseBridge => TestLocal
    case TestLocal => if LocalKey(cfg) in links then TestUp else Build(0)
    case TestUp => ClearLocal
    case ClearLocal => Build(0)
    case Build(n) => if n == BUILD then p else Build(n + 1)
  }

  lemma NextIs(o: Links, cfg: Config, p: Point)
    requires WellFormed(o) && Able(o, cfg) && (BridgeCreated(p) ==> BridgeKey(cfg) in o)
    ensures Next(Progress(o, cfg, p), cfg, p) == NextOn(o, cfg, p)
  {
    AbleNames(o, cfg);
    if p.Build? {
      if p.n < BUILD { BuildProgresses(o, cfg, p.n); }
    } else {
      hide Buildable, WellFormed, BuildSteps, Stage;
    }
  }

  lemma BuildProgresses(links: Links, cfg: Config, n: Built)
    requires WellFormed(links) && Able(links, cfg) && n < BUILD
    ensures Next(Progress(links, cfg, Build(n)), cfg, Build(n))
            == Some((Progress(links, cfg, Build(n + 1)), Build(n + 1)))
  {
    var base := Base(links, cfg);
    ProgressWellFormed(links, cfg, Build(n));
    BridgedWellFormed(links, cfg);
    BuildableStep(base, cfg, n);
    StageStep(base, cfg, n);
    hide Stage, Effect, Possible, Base, Buildable, WellFormed;
  }

  // ---------- Turns ----------

  /** The table, what each run does next, and the runs that have ended early. */
  datatype World = World(table: Links, at: seq<Point>, failed: set<nat>)

  /** A turn of run `r`; one that does not exist, has failed or is done changes nothing. */
  function TakeTurn(w: World, cfgs: seq<Config>, r: nat): (after: World)
    requires |w.at| == |cfgs|
    ensures |after.at| == |cfgs|
  {
    if r >= |cfgs| || r in w.failed then w
    else
      match Next(w.table, cfgs[r], w.at[r])
      case None => w.(failed := w.failed + {r})
      case Some((table, p)) => World(table, w.at[r := p], w.failed)
  }

  function TakeTurns(w: World, cfgs: seq<Config>, turns: seq<nat>): (after: World)
    requires |w.at| == |cfgs|
    ensures |after.at| == |cfgs|
    decreases |turns|
  {
    if turns == [] then w else TakeTurns(TakeTurn(w, cfgs, turns[0]), cfgs, turns[1..])
  }

  function Start(links: Links, cfgs: seq<Config>): World { World(links, seq(|cfgs|, _ => TestMode), {}) }

  /** The runs' statements, taken in the order of `turns`. */
  function Interleaved(links: Links, cfgs: seq<Config>, turns: seq<nat>): (w: World)
    ensures |w.at| == |cfgs|
  {
    TakeTurns(Start(links, cfgs), cfgs, turns)
  }

  // ---------- All runs in progress ----------

  /** All runs in progress, one after the other. */
  function ProgressAll(links: Links, cfgs: seq<Config>, at: seq<Point>): Links
    requires |at| == |cfgs|
    decreases |cfgs|
  {
    if cfgs == [] then links else ProgressAll(Progress(links, cfgs[0], at[0]), cfgs[1..], at[1..])
  }

  lemma PairAble(links: Links, cfgs: seq<Config>, i: nat, j: nat)
    requires AllAble(links, cfgs) && i < j < |cfgs|
    ensures BothAble(links, cfgs[i], cfgs[j]) && BothAble(links, cfgs[j], cfgs[i])
  {
    hide Able, Ends, WellFormed;
    assert cfgs[i] in cfgs && cfgs[j] in cfgs;
    assert Independent(cfgs[i], cfgs[j]);
  }

  /** The runs about to raise a bridge have it in the table already. */
  ghost predicate RaiseOnly(links: Links, cfgs: seq<Config>, at: seq<Point>)
    requires |at| == |cfgs|
  {
    forall i :: 0 <= i < |cfgs| && at[i].RaiseBridge? ==> BridgeKey(cfgs[i]) in links
  }

  /** A run in progress may as well be taken after all others in progress. */
  lemma {:induction false} FirstGoesLast(links: Links, cfgs: seq<Config>, at: seq<Point>)
    requires cfgs != [] && |at| == |cfgs| && AllAble(links, cfgs) && RaiseOnly(links, cfgs, at)
    ensures ProgressAll(links, cfgs, at) == Progress(ProgressAll(links, cfgs[1..], at[1..]), cfgs[0], at[0])
    decreases |cfgs|
  {
    hide Progress, BothAble, AllAble;
    if |cfgs| > 1 {
      PairAble(links, cfgs, 0, 1);
      SecondFirst(links, cfgs, at);
      ProgressCommutes(links, cfgs[0], at[0], cfgs[1], at[1]);
      FirstGoesLast(Progress(links, cfgs[1], at[1]), [cfgs[0]] + cfgs[2..], [at[0]] + at[2..]);
      TwoFirst(links, cfgs, at);
    }
  }

  lemma SecondFirst(links: Links, cfgs: seq<Config>, at: seq<Point>)
    requires |cfgs| > 1 && |at| == |cfgs| && AllAble(links, cfgs)
    ensures var next := Progress(links, cfgs[1], at[1]);
            && AllAble(next, [cfgs[0]] + cfgs[2..])
            && (RaiseOnly(links, cfgs, at) ==> RaiseOnly(next, [cfgs[0]] + cfgs[2..], [at[0]] + at[2..]))
    ensures RaiseOnly(links, cfgs, at) && (at[0].RaiseBridge? || at[1].RaiseBridge?) ==>
              BridgesApart(links, cfgs[0], cfgs[1])
  {
    hide Progress, BothAble, AllAble;
    Reordered(links, cfgs, 1);
    assert Without(cfgs, 1) == [cfgs[0]] + cfgs[2..];
    AllAbleBeside(links, ToFront(cfgs, 1), at[1]);
    forall i | 0 <= i < |cfgs| && i != 1 && BridgeKey(cfgs[i]) in links
      ensures BridgeKey(cfgs[i]) in Progress(links, cfgs[1], at[1])
    {
      PairAble(links, cfgs, if i < 1 then i else 1, if i < 1 then 1 else i);
      BridgeElsewhere(links, cfgs[1], at[1], cfgs[i]);
    }
  }

  lemma TwoFirst(links: Links, cfgs: seq<Config>, at: seq<Point>)
    requires |cfgs| > 1 && |at| == |cfgs|
    ensures ProgressAll(links, cfgs, at)
            == ProgressAll(Progress(Progress(links, cfgs[0], at[0]), cfgs[1], at[1]), cfgs[2..], at[2..])
    ensures var next := Progress(links, cfgs[1], at[1]);
            && ProgressAll(next, [cfgs[0]] + cfgs[2..], [at[0]] + at[2..])
               == ProgressAll(Progress(next, cfgs[0], at[0]), cfgs[2..], at[2..])
            && ProgressAll(links, cfgs[1..], at[1..]) == ProgressAll(next, cfgs[2..], at[2..])
  {
    hide Progress;
    assert cfgs[1..][1..] == cfgs[2..] && at[1..][1..] == at[2..];
    assert ([cfgs[0]] + cfgs[2..])[1..] == cfgs[2..] && ([at[0]] + at[2..])[1..] == at[2..];
  }

  /** The table of all runs is the one any of them makes of the table of all the others. */
  lemma {:induction false} AnyGoesLast(links: Links, cfgs: seq<Config>, at: seq<Point>, r: nat)
    requires r < |cfgs| == |at| && AllAble(links, cfgs) && RaiseOnly(links, cfgs, at)
    ensures ProgressAll(links, cfgs, at) == Progress(Others(links, cfgs, at, r), cfgs[r], at[r])
    decreases r
  {
    hide Progress, AllAble;
    if r == 0 {
      FirstGoesLast(links, cfgs, at);
      assert at[1..] == Without(at, 0) && cfgs[1..] == Without(cfgs, 0);
    } else {
      RaiseOnlyNext(links, cfgs, at);
      AnyGoesLast(Progress(links, cfgs[0], at[0]), cfgs[1..], at[1..], r - 1);
      WithoutFirst(cfgs, r);
      WithoutFirst(at, r);
    }
  }

  lemma RaiseOnlyNext(links: Links, cfgs: seq<Config>, at: seq<Point>)
    requires cfgs != [] && |at| == |cfgs| && AllAble(links, cfgs) && RaiseOnly(links, cfgs, at)
    ensures var next := Progress(links, cfgs[0], at[0]);
            AllAble(next, cfgs[1..]) && RaiseOnly(next, cfgs[1..], at[1..])
  {
    hide Progress, BothAble, AllAble;
    AllAbleBeside(links, cfgs, at[0]);
    forall i | 0 < i < |cfgs| && BridgeKey(cfgs[i]) in links
      ensures BridgeKey(cfgs[i]) in Progress(links, cfgs[0], at[0])
    {
      PairAble(links, cfgs, 0, i);
      BridgeElsewhere(links, cfgs[0], at[0], cfgs[i]);
    }
  }

  /** The table without run `r`. */
  function Others(links: Links, cfgs: seq<Config>, at: seq<Point>, r: nat): Links
    requires r < |cfgs| == |at|
  {
    ProgressAll(links, Without(cfgs, r), Without(at, r))
  }

  lemma WithoutFirst<T>(s: seq<T>, r: nat)
    requires 0 < r < |s|
    ensures Without(s, r) != [] && Without(s, r)[0] == s[0] && Without(s, r)[1..] == Without(s[1..], r - 1)
  {}

  /** Beside any number of runs in progress a run is as able as before. They never bring about its host
      end, and unless one of them clears it away together with its own they leave it there. */
  lemma {:induction false} BesideAll(links: Links, a: Config, cfgs: seq<Config>, at: seq<Point>)
    requires |at| == |cfgs| && AllAble(links, [a] + cfgs)
    ensures var others := ProgressAll(links, cfgs, at);
            && WellFormed(others) && Able(others, a)
            && (LocalKey(a) in others ==> LocalKey(a) in links)
            && ((forall c :: c in cfgs ==> LeftoversApart(links, a, c)) ==>
                  (LocalKey(a) in others <==> LocalKey(a) in links))
    decreases |cfgs|
  {
    hide Progress, AllAble, BothAble;
    var all := [a] + cfgs;
    AbleAt(links, all, 0);
    if cfgs != [] {
      var b, next := cfgs[0], Progress(links, cfgs[0], at[0]);
      assert all[0] == a && all[1] == b && all[2..] == cfgs[1..];
      SecondFirst(links, all, [TestMode] + at);
      BesideAll(next, a, cfgs[1..], at[1..]);
      PairAble(links, all, 0, 1);
      LeftoverBeside(links, a, b, at[0]);
      if forall c :: c in cfgs ==> LeftoversApart(links, a, c) {
        assert LeftoversApart(links, a, b);
        forall c | c in cfgs[1..] ensures LeftoversApart(next, a, c) {
          assert LeftoversApart(links, a, c);
        }
      }
    }
  }

  lemma LeftoverBeside(links: Links, a: Config, b: Config, p: Point)
    requires BothAble(links, b, a)
    ensures var after := Progress(links, b, p);
            && (LocalKey(a) in after ==> LocalKey(a) in links && after[LocalKey(a)].peer == links[LocalKey(a)].peer)
            && (LeftoversApart(links, a, b) ==> (LocalKey(a) in after <==> LocalKey(a) in links))
  {
    AbleNames(links, b);
    ProgressAt(links, b, p, LocalKey(a));
    if LocalKey(b) in links { assert PeerSound(links, LocalKey(b)); }
    hide Progress, Able;
  }

  lemma AbleAt(links: Links, cfgs: seq<Config>, i: nat)
    requires i < |cfgs| && AllAble(links, cfgs)
    ensures WellFormed(links) && Able(links, cfgs[i])
  {
    assert cfgs[i] in cfgs;
  }

  lemma OthersAt(links: Links, cfgs: seq<Config>, at: seq<Point>, r: nat)
    requires r < |cfgs| == |at| && AllAble(links, cfgs)
    ensures var o, a := Others(links, cfgs, at, r), cfgs[r];
            && WellFormed(o) && Able(o, a) && (LocalKey(a) in o ==> LocalKey(a) in links)
            && ((forall i :: 0 <= i < |cfgs| && i != r ==> LeftoversApart(links, a, cfgs[i])) ==>
                  (LocalKey(a) in o <==> LocalKey(a) in links))
  {
    hide AllAble, LeftoversApart, ProgressAll;
    Reordered(links, cfgs, r);
    var rest := Without(cfgs, r);
    assert ToFront(cfgs, r) == [cfgs[r]] + rest;
    BesideAll(links, cfgs[r], rest, Without(at, r));
    forall c | c in rest && forall i :: 0 <= i < |cfgs| && i != r ==> LeftoversApart(links, cfgs[r], cfgs[i])
      ensures LeftoversApart(links, cfgs[r], c)
    {
      var i :| 0 <= i < |rest| && rest[i] == c;
      assert c == cfgs[if i < r then i else i + 1];
    }
  }

  /** The runs' leftover host ends are not the two ends of one pair. */
  predicate LeftoversApart(links: Links, a: Config, b: Config)
  {
    LocalKey(a) in links ==> links[LocalKey(a)].peer != Some(LocalKey(b))
  }

  // ---------- A bridge coming into being ----------

  /** A bridge that is new or raised in the table at the start is so in the table of a run in progress. */
  lemma BridgeThrough(links: Links, c: Config, p: Point, k: Key, up: bool)
    requires WellFormed(links) && Able(links, c) && k !in Ends(c)
    requires k in links ==> links[k].kind == Bridge
    requires k == BridgeKey(c) && k !in links ==> !BridgeCreated(p)
    ensures var l := NEW_BRIDGE.(up := up);
            && WellFormed(links[k := l]) && Able(links[k := l], c)
            && Progress(links[k := l], c, p) == Progress(links, c, p)[k := l]
            && (k in Progress(links, c, p) <==> k in links)
            && (k in links ==> Progress(links, c, p)[k].kind == Bridge)
  {
    var l := NEW_BRIDGE.(up := up);
    AbleNames(links, c);
    BridgeAddedAble(links, c, k, up);
    AbleNames(links[k := l], c);
    var early, late := Progress(links[k := l], c, p), Progress(links, c, p)[k := l];
    forall x ensures Lookup(early, x) == Lookup(late, x) {
      ProgressAt(links, c, p, x);
      ProgressAt(links[k := l], c, p, x);
    }
    ProgressAt(links, c, p, k);
    hide Progress, Able;
    SameLookups(early, late);
  }

  lemma BridgeAddedAble(links: Links, c: Config, k: Key, up: bool)
    requires WellFormed(links) && Able(links, c) && k !in Ends(c)
    requires k in links ==> links[k].kind == Bridge
    ensures var l := NEW_BRIDGE.(up := up); WellFormed(links[k := l]) && Able(links[k := l], c)
  {
    var next := links[k := NEW_BRIDGE.(up := up)];
    AbleNames(links, c);
    forall x | x in next ensures PeerSound(next, x) && MasterSound(next, x) {
      if x != k { assert PeerSound(links, x) && MasterSound(links, x); }
    }
    BaseKeepsBridge(next, c);
  }

  lemma {:induction false} BridgeThroughAll(links: Links, cfgs: seq<Config>, at: seq<Point>, k: Key, up: bool)
    requires |at| == |cfgs| && AllAble(links, cfgs) && (k in links ==> links[k].kind == Bridge)
    requires forall c :: c in cfgs ==> k !in Ends(c)
    requires forall i :: 0 <= i < |cfgs| && k == BridgeKey(cfgs[i]) && k !in links ==> !BridgeCreated(at[i])
    ensures var l, all := NEW_BRIDGE.(up := up), ProgressAll(links, cfgs, at);
            && AllAble(links[k := l], cfgs) && ProgressAll(links[k := l], cfgs, at) == all[k := l]
            && (k in all <==> k in links)
    decreases |cfgs|
  {
    hide Progress, Ends, Able, WellFormed, Independent;
    var l := NEW_BRIDGE.(up := up);
    BridgeAddedAllAble(links, cfgs, k, up);
    if cfgs != [] {
      AbleAt(links, cfgs, 0);
      BridgeThrough(links, cfgs[0], at[0], k, up);
      AllAbleBeside(links, cfgs, at[0]);
      BridgeThroughAll(Progress(links, cfgs[0], at[0]), cfgs[1..], at[1..], k, up);
    }
  }

  lemma BridgeAddedAllAble(links: Links, cfgs: seq<Config>, k: Key, up: bool)
    requires AllAble(links, cfgs) && (k in links ==> links[k].kind == Bridge)
    requires forall c :: c in cfgs ==> k !in Ends(c)
    ensures AllAble(links[k := NEW_BRIDGE.(up := up)], cfgs)
  {
    hide Able, Independent, Ends;
    var next := links[k := NEW_BRIDGE.(up := up)];
    forall x | x in next ensures PeerSound(next, x) && MasterSound(next, x) {
      if x != k { assert PeerSound(links, x) && MasterSound(links, x); }
    }
    forall c | c in cfgs ensures Able(next, c) {
      BridgeAddedAble(links, c, k, up);
    }
  }

  // ---------- The table at every moment ----------

  /** The bridges the runs have provided. */
  ghost function Provided(cfgs: seq<Config>, at: seq<Point>): set<Key>
    requires |at| == |cfgs|
  {
    set r | 0 <= r < |cfgs| && BridgeCreated(at[r]) :: BridgeKey(cfgs[r])
  }

  ghost predicate Raising(cfgs: seq<Config>, at: seq<Point>, k: Key)
    requires |at| == |cfgs|
  {
    exists r :: 0 <= r < |cfgs| && at[r].RaiseBridge? && BridgeKey(cfgs[r]) == k
  }

  /** The initial table with these bridges, those still to be raised down. */
  ghost function Ground(links: Links, cfgs: seq<Config>, at: seq<Point>): Links
    requires |at| == |cfgs|
  {
    map k | k in links.Keys + Provided(cfgs, at) ::
      if k in links then links[k] else NEW_BRIDGE.(up := !Raising(cfgs, at, k))
  }

  /** What the runs have found is so of the initial table, and no two are to raise the same bridge. */
  ghost predicate Found(links: Links, cfgs: seq<Config>, at: seq<Point>)
    requires |at| == |cfgs|
  {
    && (forall r :: 0 <= r < |cfgs| ==>
          && (at[r].CreateBridge? || at[r].RaiseBridge? ==> BridgeKey(cfgs[r]) !in links)
          && (at[r].TestUp? || at[r].ClearLocal? ==> LocalKey(cfgs[r]) in links))
    && (forall r, s :: 0 <= r < s < |cfgs| && at[r].RaiseBridge? && at[s].RaiseBridge? ==>
          BridgeKey(cfgs[r]) != BridgeKey(cfgs[s]))
  }

  /** The table is that of all runs in progress, on the bridges provided so far. */
  ghost predicate InStep(links: Links, cfgs: seq<Config>, w: World)
  {
    && |w.at| == |cfgs|
    && AllAble(Ground(links, cfgs, w.at), cfgs)
    && w.table == ProgressAll(Ground(links, cfgs, w.at), cfgs, w.at)
    && Found(links, cfgs, w.at)
  }

  lemma GroundRaises(links: Links, cfgs: seq<Config>, at: seq<Point>)
    requires |at| == |cfgs|
    ensures RaiseOnly(Ground(links, cfgs, at), cfgs, at)
    ensures forall r :: 0 <= r < |cfgs| && BridgeCreated(at[r]) ==> BridgeKey(cfgs[r]) in Ground(links, cfgs, at)
  {
    forall r | 0 <= r < |cfgs| && BridgeCreated(at[r]) ensures BridgeKey(cfgs[r]) in Provided(cfgs, at) {}
  }

  /** The bridge of run `r` is in the table of the others exactly if it is in the table they start from,
      and bringing it into being there commutes with them. */
  lemma BridgeOfOthers(ground: Links, cfgs: seq<Config>, at: seq<Point>, r: nat, up: bool)
    requires r < |cfgs| == |at| && AllAble(ground, cfgs)
    requires forall i :: 0 <= i < |cfgs| && BridgeCreated(at[i]) ==> BridgeKey(cfgs[i]) in ground
    ensures var k, l, o := BridgeKey(cfgs[r]), NEW_BRIDGE.(up := up), Others(ground, cfgs, at, r);
            && AllAble(ground[k := l], cfgs) && Others(ground[k := l], cfgs, at, r) == o[k := l]
            && (k in o <==> k in ground)
  {
    hide Ends, Able, WellFormed, Independent, ProgressAll, BridgeCreated, AllAble;
    var k, rest, points := BridgeKey(cfgs[r]), Without(cfgs, r), Without(at, r);
    BridgeIsBridge(ground, cfgs, r);
    BridgeAddedAllAble(ground, cfgs, k, up);
    Reordered(ground, cfgs, r);
    WithoutAble(ground, cfgs, r);
    forall i | 0 <= i < |rest| && k == BridgeKey(rest[i]) && BridgeCreated(points[i]) ensures k in ground {
      var j := if i < r then i else i + 1;
      assert rest[i] == cfgs[j] && points[i] == at[j];
    }
    forall c | c in rest ensures k !in Ends(c) {
      var i :| 0 <= i < |rest| && rest[i] == c;
      assert c == cfgs[if i < r then i else i + 1];
    }
    BridgeThroughAll(ground, rest, points, k, up);
  }

  lemma BridgeIsBridge(links: Links, cfgs: seq<Config>, r: nat)
    requires r < |cfgs| && AllAble(links, cfgs)
    ensures BridgeKey(cfgs[r]) in links ==> links[BridgeKey(cfgs[r])].kind == Bridge
    ensures forall c :: c in cfgs ==> BridgeKey(cfgs[r]) !in Ends(c)
  {
    AbleAt(links, cfgs, r);
    AbleNames(links, cfgs[r]);
    hide AllAble;
    forall c | c in cfgs ensures BridgeKey(cfgs[r]) !in Ends(c) {
      var i :| 0 <= i < |cfgs| && cfgs[i] == c;
      if i != r { PairAble(links, cfgs, if i < r then i else r, if i < r then r else i); }
    }
  }

  lemma WithoutAble(links: Links, cfgs: seq<Config>, r: nat)
    requires r < |cfgs| && AllAble(links, cfgs)
    ensures AllAble(links, Without(cfgs, r))
  {
    hide Able, WellFormed, Independent;
    Reordered(links, cfgs, r);
    var all, rest := ToFront(cfgs, r), Without(cfgs, r);
    forall i | 0 <= i < |rest| ensures rest[i] == all[i + 1] {}
    forall i, j | 0 <= i < j < |rest| ensures Independent(rest[i], rest[j]) {
      assert Independent(all[i + 1], all[j + 1]);
    }
  }

  /** A run's statement, seen beside the others. */
  lemma TurnIs(links: Links, cfgs: seq<Config>, w: World, r: nat)
    requires InStep(links, cfgs, w) && r < |cfgs|
    ensures var ground := Ground(links, cfgs, w.at);
            var o, a := Others(ground, cfgs, w.at, r), cfgs[r];
            && w.table == Progress(o, a, w.at[r]) && WellFormed(o) && Able(o, a)
            && Next(w.table, a, w.at[r]) == NextOn(o, a, w.at[r])
            && (BridgeKey(a) in o <==> BridgeKey(a) in ground)
            && (LocalKey(a) in o ==> LocalKey(a) in links)
  {
    hide Progress, NextOn, Next, ProgressAll, AllAble, Ends, Able, WellFormed, BridgeCreated;
    var ground, a := Ground(links, cfgs, w.at), cfgs[r];
    GroundRaises(links, cfgs, w.at);
    AnyGoesLast(ground, cfgs, w.at, r);
    OthersAt(ground, cfgs, w.at, r);
    BridgeOfOthers(ground, cfgs, w.at, r, true);
    NextIs(Others(ground, cfgs, w.at, r), a, w.at[r]);
    LocalNoBridge(ground, cfgs, r);
  }

  lemma LocalNoBridge(links: Links, cfgs: seq<Config>, r: nat)
    requires r < |cfgs| && AllAble(links, cfgs)
    ensures forall i :: 0 <= i < |cfgs| ==> LocalKey(cfgs[r]) != BridgeKey(cfgs[i])
  {
    forall i | 0 <= i < |cfgs| ensures LocalKey(cfgs[r]) != BridgeKey(cfgs[i]) {
      if i == r { AbleAt(links, cfgs, r); AbleNames(links, cfgs[r]); }
      else { PairAble(links, cfgs, if i < r then i else r, if i < r then r else i); }
    }
  }

  lemma TurnKeepsStep(links: Links, cfgs: seq<Config>, w: World, r: nat)
    requires InStep(links, cfgs, w)
    ensures InStep(links, cfgs, TakeTurn(w, cfgs, r))
  {
    hide Progress, Next, ProgressAll, AllAble, Able, WellFormed, BridgeCreated, Ground, Found, Others;
    if r < |cfgs| && r !in w.failed {
      var p, o := w.at[r], Others(Ground(links, cfgs, w.at), cfgs, w.at, r);
      TurnIs(links, cfgs, w, r);
      if NextOn(o, cfgs[r], p).Some? {
        if p.CreateBridge? {
          CreateKeepsStep(links, cfgs, w, r);
        } else if p.RaiseBridge? {
          RaiseKeepsStep(links, cfgs, w, r);
        } else {
          QuietKeepsStep(links, cfgs, w, r);
        }
      }
    }
  }

  /** One run has moved on to `q`, what it found meanwhile is so, and the bridges make this the ground. */
  lemma MovesInStep(links: Links, cfgs: seq<Config>, w: World, r: nat, q: Point, table: Links)
    requires InStep(links, cfgs, w) && r < |cfgs|
    requires var ground := Ground(links, cfgs, w.at[r := q]);
             AllAble(ground, cfgs) && table == Progress(Others(ground, cfgs, w.at, r), cfgs[r], q)
    requires q.CreateBridge? || q.RaiseBridge? ==> BridgeKey(cfgs[r]) !in links
    requires q.TestUp? || q.ClearLocal? ==> LocalKey(cfgs[r]) in links
    requires q.RaiseBridge? ==> BridgeKey(cfgs[r]) !in Ground(links, cfgs, w.at)
    ensures InStep(links, cfgs, World(table, w.at[r := q], w.failed))
  {
    hide Progress, ProgressAll, AllAble, Ground;
    var next := w.at[r := q];
    GroundRaises(links, cfgs, w.at);
    GroundRaises(links, cfgs, next);
    assert Without(next, r) == Without(w.at, r);
    AnyGoesLast(Ground(links, cfgs, next), cfgs, next, r);
  }

  /** A statement that concerns no bridge. */
  lemma QuietKeepsStep(links: Links, cfgs: seq<Config>, w: World, r: nat)
    requires InStep(links, cfgs, w) && r < |cfgs| && !w.at[r].CreateBridge? && !w.at[r].RaiseBridge?
    requires NextOn(Others(Ground(links, cfgs, w.at), cfgs, w.at, r), cfgs[r], w.at[r]).Some?
    ensures var next := NextOn(Others(Ground(links, cfgs, w.at), cfgs, w.at, r), cfgs[r], w.at[r]).value;
            InStep(links, cfgs, World(next.0, w.at[r := next.1], w.failed))
  {
    hide Progress, ProgressAll, AllAble, Able, WellFormed, Others, Next;
    var ground, p, a := Ground(links, cfgs, w.at), w.at[r], cfgs[r];
    var o := Others(ground, cfgs, w.at, r);
    TurnIs(links, cfgs, w, r);
    GroundRaises(links, cfgs, w.at);
    var q := NextOn(o, a, p).value.1;
    assert BridgeKey(a) in links ==> BridgeKey(a) in ground;
    hide Ground;
    SameGround(links, cfgs, w.at, r, q);
    MovesInStep(links, cfgs, w, r, q, Progress(o, a, q));
  }

  lemma SameGround(links: Links, cfgs: seq<Config>, at: seq<Point>, r: nat, q: Point)
    requires r < |cfgs| == |at| && !at[r].RaiseBridge? && !q.RaiseBridge?
    requires BridgeCreated(at[r]) ==> BridgeCreated(q)
    requires BridgeCreated(q) ==> BridgeKey(cfgs[r]) in Ground(links, cfgs, at)
    ensures Ground(links, cfgs, at[r := q]) == Ground(links, cfgs, at)
  {
    hide BridgeCreated;
    var next := at[r := q];
    forall k ensures Raising(cfgs, next, k) <==> Raising(cfgs, at, k) {
      if Raising(cfgs, at, k) {
        var s :| 0 <= s < |cfgs| && at[s].RaiseBridge? && BridgeKey(cfgs[s]) == k;
        assert next[s].RaiseBridge?;
      }
      if Raising(cfgs, next, k) {
        var s :| 0 <= s < |cfgs| && next[s].RaiseBridge? && BridgeKey(cfgs[s]) == k;
        assert at[s].RaiseBridge?;
      }
    }
    ProvidedNext(cfgs, at, r, q);
  }

  lemma ProvidedNext(cfgs: seq<Config>, at: seq<Point>, r: nat, q: Point)
    requires r < |cfgs| == |at| && (BridgeCreated(at[r]) ==> BridgeCreated(q))
    ensures Provided(cfgs, at[r := q])
            == if BridgeCreated(q) then Provided(cfgs, at) + {BridgeKey(cfgs[r])} else Provided(cfgs, at)
  {
    hide BridgeCreated;
    var next := at[r := q];
    forall k | k in Provided(cfgs, at) ensures k in Provided(cfgs, next) {
      var s :| 0 <= s < |cfgs| && BridgeCreated(at[s]) && BridgeKey(cfgs[s]) == k;
      assert BridgeCreated(next[s]);
    }
    if BridgeCreated(q) { assert next[r] == q; }
  }

  /** Creating a bridge adds it to the table all runs are in progress on. */
  lemma CreateKeepsStep(links: Links, cfgs: seq<Config>, w: World, r: nat)
    requires InStep(links, cfgs, w) && r < |cfgs| && w.at[r].CreateBridge?
    requires BridgeKey(cfgs[r]) !in Others(Ground(links, cfgs, w.at), cfgs, w.at, r)
    ensures var o := Others(Ground(links, cfgs, w.at), cfgs, w.at, r);
            var table := o[BridgeKey(cfgs[r]) := NEW_BRIDGE.(up := false)];
            InStep(links, cfgs, World(table, w.at[r := RaiseBridge], w.failed))
  {
    hide Next, ProgressAll, AllAble, Able, WellFormed, Others, Ground;
    var ground, k := Ground(links, cfgs, w.at), BridgeKey(cfgs[r]);
    TurnIs(links, cfgs, w, r);
    GroundRaises(links, cfgs, w.at);
    BridgeOfOthers(ground, cfgs, w.at, r, false);
    GroundCreates(links, cfgs, w.at, r);
    MovesInStep(links, cfgs, w, r, RaiseBridge, Others(ground, cfgs, w.at, r)[k := NEW_BRIDGE.(up := false)]);
  }

  lemma GroundCreates(links: Links, cfgs: seq<Config>, at: seq<Point>, r: nat)
    requires r < |cfgs| == |at| && at[r].CreateBridge? && BridgeKey(cfgs[r]) !in Ground(links, cfgs, at)
    ensures Ground(links, cfgs, at[r := RaiseBridge])
            == Ground(links, cfgs, at)[BridgeKey(cfgs[r]) := NEW_BRIDGE.(up := false)]
  {
    hide Raising, Provided;
    ProvidedNext(cfgs, at, r, RaiseBridge);
    RaisingNext(cfgs, at, r, RaiseBridge);
  }

  lemma RaisingNext(cfgs: seq<Config>, at: seq<Point>, r: nat, q: Point)
    requires r < |cfgs| == |at|
    ensures forall k :: k != BridgeKey(cfgs[r]) ==> (Raising(cfgs, at[r := q], k) <==> Raising(cfgs, at, k))
    ensures q.RaiseBridge? ==> Raising(cfgs, at[r := q], BridgeKey(cfgs[r]))
  {
    var next := at[r := q];
    forall k | k != BridgeKey(cfgs[r]) ensures Raising(cfgs, next, k) <==> Raising(cfgs, at, k) {
      assert forall s :: 0 <= s < |cfgs| && BridgeKey(cfgs[s]) == k ==> next[s] == at[s];
    }
    assert next[r] == q;
  }

  /** Raising it raises it there. */
  lemma RaiseKeepsStep(links: Links, cfgs: seq<Config>, w: World, r: nat)
    requires InStep(links, cfgs, w) && r < |cfgs| && w.at[r].RaiseBridge?
    ensures var o, k := Others(Ground(links, cfgs, w.at), cfgs, w.at, r), BridgeKey(cfgs[r]);
            k in o && InStep(links, cfgs, World(o[k := o[k].(up := true)], w.at[r := TestLocal], w.failed))
  {
    hide Next, ProgressAll, AllAble, Able, WellFormed, Others, Ground;
    var ground, k := Ground(links, cfgs, w.at), BridgeKey(cfgs[r]);
    var o := Others(ground, cfgs, w.at, r);
    TurnIs(links, cfgs, w, r);
    GroundRaises(links, cfgs, w.at);
    BridgeOfOthers(ground, cfgs, w.at, r, false);
    BridgeOfOthers(ground, cfgs, w.at, r, true);
    GroundRaised(links, cfgs, w.at, r);
    assert o == o[k := NEW_BRIDGE.(up := false)];
    MovesInStep(links, cfgs, w, r, TestLocal, o[k := NEW_BRIDGE]);
  }

  lemma GroundRaised(links: Links, cfgs: seq<Config>, at: seq<Point>, r: nat)
    requires r < |cfgs| == |at| && at[r].RaiseBridge? && Found(links, cfgs, at)
    ensures var ground, k := Ground(links, cfgs, at), BridgeKey(cfgs[r]);
            && ground[k := NEW_BRIDGE.(up := false)] == ground
            && Ground(links, cfgs, at[r := TestLocal]) == ground[k := NEW_BRIDGE]
  {
    RaisedOnce(links, cfgs, at, r);
    ProvidedNext(cfgs, at, r, TestLocal);
    RaisingNext(cfgs, at, r, TestLocal);
    ProvidedBy(cfgs, at, r);
    hide Raising, Provided, Found, BridgeCreated;
  }

  lemma ProvidedBy(cfgs: seq<Config>, at: seq<Point>, r: nat)
    requires r < |cfgs| == |at| && BridgeCreated(at[r])
    ensures BridgeKey(cfgs[r]) in Provided(cfgs, at)
  {}

  lemma RaisedOnce(links: Links, cfgs: seq<Config>, at: seq<Point>, r: nat)
    requires r < |cfgs| == |at| && at[r].RaiseBridge? && Found(links, cfgs, at)
    ensures var k := BridgeKey(cfgs[r]);
            k !in links && Raising(cfgs, at, k) && !Raising(cfgs, at[r := TestLocal], k)
  {
    var next := at[r := TestLocal];
    forall s | 0 <= s < |cfgs| && next[s].RaiseBridge? ensures BridgeKey(cfgs[s]) != BridgeKey(cfgs[r]) {
      assert at[s].RaiseBridge?;
    }
  }

  lemma {:induction false} TurnsKeepStep(links: Links, cfgs: seq<Config>, w: World, turns: seq<nat>)
    requires InStep(links, cfgs, w)
    ensures InStep(links, cfgs, TakeTurns(w, cfgs, turns))
    decreases |turns|
  {
    hide TakeTurn, ProgressAll, AllAble, Ground, Found;
    if turns != [] {
      TurnKeepsStep(links, cfgs, w, turns[0]);
      TurnsKeepStep(links, cfgs, TakeTurn(w, cfgs, turns[0]), turns[1..]);
    }
  }
}
