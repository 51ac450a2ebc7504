/** Several containers attached at the same time: exactly when one of the runs can fail, and what the
    table is once they are done. */
module AttachRaces {
  import opened Text
  import opened Network
  import opened Pipework
  import opened AttachStages
  import opened AttachRuns
  import opened AttachHistory
  import opened AttachProgress
  import opened AttachOrder
  import opened AttachTogether

  // ---------- Every interleaving ----------

  lemma StartInStep(links: Links, cfgs: seq<Config>)
    requires AllAble(links, cfgs)
    ensures InStep(links, cfgs, Start(links, cfgs))
  {
    hide AllAble;
    var at := Start(links, cfgs).at;
    assert Provided(cfgs, at) == {};
    assert Ground(links, cfgs, at) == links;
    StartsWith(links, cfgs, at);
  }

  lemma {:induction false} StartsWith(links: Links, cfgs: seq<Config>, at: seq<Point>)
    requires |at| == |cfgs| && forall p :: p in at ==> p == TestMode
    ensures ProgressAll(links, cfgs, at) == links
    decreases |cfgs|
  {
    if cfgs != [] {
      assert at[0] in at && forall p :: p in at[1..] ==> p in at;
      StartsWith(links, cfgs[1..], at[1..]);
    }
  }

  /** Statements a run still has to execute, at most. */
  function Ahead(p: Point): nat
  {
    match p
    case TestMode => 15
    case TestBridge => 14
    case CreateBridge => 13
    case RaiseBridge => 12
    case TestLocal => 11
    case TestUp => 10
    case ClearLocal => 9
    case Build(n) => BUILD - n
  }

  const MOST := Ahead(TestMode)

  /** Every turn brings its run closer to the end, unless the run has failed. */
  lemma {:induction false} TurnsAdvance(w: World, cfgs: seq<Config>, turns: seq<nat>, r: nat)
    requires r < |cfgs| == |w.at|
    ensures var after := TakeTurns(w, cfgs, turns);
            var left := Ahead(after.at[r]);
            (r in w.failed ==> r in after.failed)
            && (r in after.failed || left == 0 || left + multiset(turns)[r] <= Ahead(w.at[r]))
    decreases |turns|
  {
    hide TakeTurn, Ahead;
    if turns != [] {
      assert turns == [turns[0]] + turns[1..];
      TurnAdvances(w, cfgs, turns[0], r);
      TurnsAdvance(TakeTurn(w, cfgs, turns[0]), cfgs, turns[1..], r);
    }
  }

  lemma TurnAdvances(w: World, cfgs: seq<Config>, turn: nat, r: nat)
    requires r < |cfgs| == |w.at|
    ensures var after := TakeTurn(w, cfgs, turn);
            var left := Ahead(after.at[r]);
            (r in w.failed ==> r in after.failed)
            && (if turn == r then r in after.failed || left == 0 || left < Ahead(w.at[r]) else left == Ahead(w.at[r]))
  {
    hide Possible, Effect, BuildSteps;
  }

  /** Only creating a bridge and clearing away a leftover host end can fail. */
  ghost predicate FailedInRace(w: World)
  {
    forall r :: r in w.failed && r < |w.at| ==> w.at[r].CreateBridge? || w.at[r].ClearLocal?
  }

  lemma {:induction false} TurnsFailInRace(links: Links, cfgs: seq<Config>, w: World, turns: seq<nat>)
    requires InStep(links, cfgs, w) && FailedInRace(w)
    ensures FailedInRace(TakeTurns(w, cfgs, turns))
    decreases |turns|
  {
    hide InStep;
    if turns != [] {
      assert |w.at| == |cfgs| by { StepLength(links, cfgs, w); }
      var r := turns[0];
      if r < |cfgs| { TurnIsRace(links, cfgs, w, r); }
      TurnKeepsStep(links, cfgs, w, r);
      assert FailedInRace(TakeTurn(w, cfgs, r)) by { hide Next; }
      TurnsFailInRace(links, cfgs, TakeTurn(w, cfgs, r), turns[1..]);
    }
  }

  lemma StepLength(links: Links, cfgs: seq<Config>, w: World)
    requires InStep(links, cfgs, w)
    ensures |w.at| == |cfgs|
  {}

  /** When exactly a statement fails: its run is to create a bridge that is there by now, or to clear away
      a host end that is not there any more. */
  lemma TurnIsRace(links: Links, cfgs: seq<Config>, w: World, r: nat)
    requires InStep(links, cfgs, w) && r < |cfgs|
    ensures var ground := Ground(links, cfgs, w.at);
            Next(w.table, cfgs[r], w.at[r]).None? <==>
            || (w.at[r].CreateBridge? && BridgeKey(cfgs[r]) in ground)
            || (w.at[r].ClearLocal? && LocalKey(cfgs[r]) !in Others(ground, cfgs, w.at, r))
  {
    hide Ground, Others, Next, Progress, AllAble, Found;
    TurnIs(links, cfgs, w, r);
    GroundRaises(links, cfgs, w.at);
  }

  lemma {:induction false} AllDone(links: Links, cfgs: seq<Config>, at: seq<Point>)
    requires |at| == |cfgs| && AllAble(links, cfgs) && forall p :: p in at ==> p == DONE
    ensures AttachAll(links, cfgs) == Some(ProgressAll(links, cfgs, at))
    decreases |cfgs|
  {
    hide Progress, FullRun, AllAble;
    if cfgs != [] {
      assert at[0] in at;
      AllAbleNext(links, cfgs);
      assert forall p :: p in at[1..] ==> p in at;
      AllDone(Progress(links, cfgs[0], DONE), cfgs[1..], at[1..]);
    }
  }

  /** Bridges the runs would create may be there from the start. */
  lemma EarlyBridge(links: Links, cfgs: seq<Config>, r: nat)
    requires r < |cfgs| && AllAble(links, cfgs) && BridgeKey(cfgs[r]) !in links
    ensures var early := links[BridgeKey(cfgs[r]) := NEW_BRIDGE];
            AllAble(early, cfgs) && AttachAll(early, cfgs) == AttachAll(links, cfgs)
  {
    hide AllAble, FullRun, AttachAll;
    var k, front := BridgeKey(cfgs[r]), ToFront(cfgs, r);
    var early := links[k := NEW_BRIDGE];
    BridgeIsBridge(links, cfgs, r);
    BridgeAddedAllAble(links, cfgs, k, true);
    MoveToFront(links, cfgs, r);
    MoveToFront(early, cfgs, r);
    AllAbleNext(links, front);
    AllAbleNext(early, front);
    AttachFirst(links, front);
    AttachFirst(early, front);
    assert Bridged(early, cfgs[r]) == Bridged(links, cfgs[r]);
  }

  function WithBridges(links: Links, extra: set<Key>): Links
  {
    map k | k in links.Keys + extra :: if k in links then links[k] else NEW_BRIDGE
  }

  lemma {:induction false} EarlyBridges(links: Links, cfgs: seq<Config>, extra: set<Key>)
    requires AllAble(links, cfgs) && forall k :: k in extra ==> exists r :: 0 <= r < |cfgs| && BridgeKey(cfgs[r]) == k
    ensures AllAble(WithBridges(links, extra), cfgs)
    ensures AttachAll(WithBridges(links, extra), cfgs) == AttachAll(links, cfgs)
    decreases extra
  {
    hide AllAble, AttachAll;
    if extra == {} {
      assert WithBridges(links, extra) == links;
    } else {
      var k :| k in extra;
      var rest := extra - {k};
      if k in links {
        assert WithBridges(links, extra) == WithBridges(links, rest);
        EarlyBridges(links, cfgs, rest);
      } else {
        var r :| 0 <= r < |cfgs| && BridgeKey(cfgs[r]) == k;
        EarlyBridge(links, cfgs, r);
        assert WithBridges(links, extra) == WithBridges(links[k := NEW_BRIDGE], rest);
        EarlyBridges(links[k := NEW_BRIDGE], cfgs, rest);
      }
    }
  }

  /** Once no run is about to raise its bridge, the table is that of all runs in progress on the initial
      table with the bridges up, which makes no difference to what runs one after the other leave. */
  lemma BridgesUp(links: Links, cfgs: seq<Config>, at: seq<Point>)
    requires |at| == |cfgs| && AllAble(links, cfgs)
    ensures var up := WithBridges(links, Provided(cfgs, at));
            && AllAble(up, cfgs) && AttachAll(up, cfgs) == AttachAll(links, cfgs)
            && ((forall p :: p in at ==> !p.RaiseBridge?) ==> Ground(links, cfgs, at) == up)
  {
    hide AllAble, AttachAll;
    EarlyBridges(links, cfgs, Provided(cfgs, at));
    if forall p :: p in at ==> !p.RaiseBridge? {
      forall k ensures !Raising(cfgs, at, k) {}
    }
  }

  /** However the statements of independent runs interleave: a run fails only where another one was
      quicker to create its bridge or to clear away its leftover host end; a run that gets enough turns
      completes or fails; and once all have completed, the table is that of the runs one after the
      other, in any order. */
  lemma InterleavingIsSequential(links: Links, cfgs: seq<Config>, turns: seq<nat>, order: seq<Config>)
    requires AllAble(links, cfgs) && multiset(order) == multiset(cfgs)
    ensures var w := Interleaved(links, cfgs, turns);
            && FailedInRace(w)
            && (forall r :: 0 <= r < |cfgs| && multiset(turns)[r] >= MOST ==> r in w.failed || w.at[r] == DONE)
            && ((forall p :: p in w.at ==> p == DONE) ==> AttachAll(links, order) == Some(w.table))
  {
    hide AllAble, TakeTurns, ProgressAll, AttachAll, Ground, Found;
    var start, w := Start(links, cfgs), Interleaved(links, cfgs, turns);
    StartInStep(links, cfgs);
    TurnsKeepStep(links, cfgs, start, turns);
    TurnsFailInRace(links, cfgs, start, turns);
    forall r | 0 <= r < |cfgs| && multiset(turns)[r] >= MOST ensures r in w.failed || w.at[r] == DONE {
      TurnsAdvance(start, cfgs, turns, r);
    }
    if forall p :: p in w.at ==> p == DONE {
      BridgesUp(links, cfgs, w.at);
      AllDone(Ground(links, cfgs, w.at), cfgs, w.at);
      AnyOrder(links, cfgs, order);
    }
  }

  // ---------- Runs that cannot fail each other ----------

  predicate Compatible(links: Links, a: Config, b: Config)
  {
    BridgesApart(links, a, b) && LeftoversApart(links, a, b)
  }

  ghost predicate AllCompatible(links: Links, cfgs: seq<Config>)
  {
    forall i, j :: 0 <= i < j < |cfgs| ==> Compatible(links, cfgs[i], cfgs[j])
  }

  lemma CompatiblePair(links: Links, cfgs: seq<Config>, i: nat, j: nat)
    requires WellFormed(links) && AllCompatible(links, cfgs) && i < |cfgs| && j < |cfgs| && i != j
    ensures Compatible(links, cfgs[i], cfgs[j])
  {
    if j < i {
      assert Compatible(links, cfgs[j], cfgs[i]);
      if LocalKey(cfgs[i]) in links { assert PeerSound(links, LocalKey(cfgs[i])); }
    }
  }

  lemma TurnNeverFails(links: Links, cfgs: seq<Config>, w: World, r: nat)
    requires AllAble(links, cfgs) && AllCompatible(links, cfgs) && InStep(links, cfgs, w)
    ensures TakeTurn(w, cfgs, r).failed == w.failed
  {
    if r < |cfgs| && r !in w.failed {
      TurnIsRace(links, cfgs, w, r);
      var ground := Ground(links, cfgs, w.at);
      OthersAt(ground, cfgs, w.at, r);
      LocalNoBridge(links, cfgs, r);
      AbleAt(links, cfgs, r);
      hide Next, ProgressAll, AllAble, AllCompatible, Others, WellFormed, Able, BridgeCreated;
      if w.at[r].CreateBridge? && BridgeKey(cfgs[r]) in ground {
        var s :| 0 <= s < |cfgs| && BridgeCreated(w.at[s]) && BridgeKey(cfgs[s]) == BridgeKey(cfgs[r]);
        assert !BridgeCreated(CreateBridge);
        CompatiblePair(links, cfgs, r, s);
      }
      forall i | 0 <= i < |cfgs| && i != r ensures LeftoversApart(ground, cfgs[r], cfgs[i]) {
        CompatiblePair(links, cfgs, r, i);
      }
    }
  }

  lemma {:induction false} TurnsNeverFail(links: Links, cfgs: seq<Config>, w: World, turns: seq<nat>)
    requires AllAble(links, cfgs) && AllCompatible(links, cfgs) && InStep(links, cfgs, w)
    ensures TakeTurns(w, cfgs, turns).failed == w.failed
    decreases |turns|
  {
    hide AllAble, AllCompatible, TakeTurn, ProgressAll, Ground, Found;
    if turns != [] {
      TurnNeverFails(links, cfgs, w, turns[0]);
      TurnKeepsStep(links, cfgs, w, turns[0]);
      TurnsNeverFail(links, cfgs, TakeTurn(w, cfgs, turns[0]), turns[1..]);
    }
  }

  // ---------- Runs that can fail each other ----------

  lemma {:induction false} TurnsThen(w: World, cfgs: seq<Config>, first: seq<nat>, second: seq<nat>)
    requires |w.at| == |cfgs|
    ensures TakeTurns(w, cfgs, first + second) == TakeTurns(TakeTurns(w, cfgs, first), cfgs, second)
    decreases |first|
  {
    hide TakeTurn;
    if first == [] {
      assert first + second == second;
    } else {
      assert (first + second)[1..] == first[1..] + second;
      TurnsThen(TakeTurn(w, cfgs, first[0]), cfgs, first[1..], second);
    }
  }

  lemma OneTurn(w: World, cfgs: seq<Config>, r: nat)
    requires |w.at| == |cfgs|
    ensures TakeTurns(w, cfgs, [r]) == TakeTurn(w, cfgs, r)
  {
    hide TakeTurn;
  }

  /** `n` turns of run `r`. */
  function Times(n: nat, r: nat): seq<nat> { seq(n, _ => r) }

  /** Where a run on its own is after `n` statements. */
  function Path(links: Links, cfg: Config, n: nat): Point
  {
    if n == 0 then TestMode else Following(links, cfg, Path(links, cfg, n - 1))
  }

  /** What a run has found by its tests is so. */
  predicate Consistent(links: Links, cfg: Config, p: Point)
  {
    && (p.CreateBridge? || p.RaiseBridge? ==> BridgeKey(cfg) !in links)
    && (p.TestUp? || p.ClearLocal? ==> LocalKey(cfg) in links)
  }

  lemma AloneProgresses(links: Links, cfg: Config, p: Point)
    requires WellFormed(links) && Able(links, cfg) && Consistent(links, cfg, p)
    ensures var q := Following(links, cfg, p);
            Next(Progress(links, cfg, p), cfg, p) == Some((Progress(links, cfg, q), q)) && Consistent(links, cfg, q)
  {
    AbleNames(links, cfg);
    if p.RaiseBridge? {
      assert HalfBridged(links, cfg)[BridgeKey(cfg) := NEW_BRIDGE] == Bridged(links, cfg);
    } else if BridgeCreated(p) && BridgeKey(cfg) !in links {
      var bridged := Bridged(links, cfg);
      BridgeAddedAble(links, cfg, BridgeKey(cfg), true);
      NextIs(bridged, cfg, p);
    } else {
      NextIs(links, cfg, p);
    }
  }

  /** With all others still, a run that would complete goes its way. */
  lemma {:induction false} AloneReaches(w: World, cfgs: seq<Config>, r: nat, n: nat)
    requires r < |cfgs| == |w.at| && w.at[r] == TestMode && r !in w.failed
    requires WellFormed(w.table) && Able(w.table, cfgs[r])
    ensures var p := Path(w.table, cfgs[r], n);
            && TakeTurns(w, cfgs, Times(n, r)) == World(Progress(w.table, cfgs[r], p), w.at[r := p], w.failed)
            && Consistent(w.table, cfgs[r], p)
    decreases n
  {
    hide Able, WellFormed, Next;
    if n > 0 {
      hide Progress, Following, Consistent;
      AloneReaches(w, cfgs, r, n - 1);
      assert Times(n, r) == Times(n - 1, r) + [r];
      TurnsThen(w, cfgs, Times(n - 1, r), [r]);
      OneTurn(TakeTurns(w, cfgs, Times(n - 1, r)), cfgs, r);
      AloneProgresses(w.table, cfgs[r], Path(w.table, cfgs[r], n - 1));
      var p, q := Path(w.table, cfgs[r], n - 1), Path(w.table, cfgs[r], n);
      assert w.at[r := p][r := q] == w.at[r := q];
    } else {
      assert Times(0, r) == [] && w.at[r := TestMode] == w.at;
    }
  }

  /** Two runs that both find the same bridge missing: the second to create it fails. */
  lemma BridgeClash(links: Links, cfgs: seq<Config>, i: nat, j: nat)
    requires i < |cfgs| && j < |cfgs| && i != j && AllAble(links, cfgs) && !BridgesApart(links, cfgs[i], cfgs[j])
    ensures Interleaved(links, cfgs, Times(2, i) + Times(2, j) + [i] + [j]).failed == {j}
  {
    hide AllAble, TakeTurns;
    var a, b, start := cfgs[i], cfgs[j], Start(links, cfgs);
    AbleAt(links, cfgs, i);
    AbleAt(links, cfgs, j);
    AloneReaches(start, cfgs, i, 2);
    var first := World(links, start.at[i := CreateBridge], {});
    assert TakeTurns(start, cfgs, Times(2, i)) == first by { assert Path(links, a, 1) == TestBridge; }
    AloneReaches(first, cfgs, j, 2);
    var both := World(links, first.at[j := CreateBridge], {});
    assert TakeTurns(first, cfgs, Times(2, j)) == both by { assert Path(links, b, 1) == TestBridge; }
    TurnsThen(start, cfgs, Times(2, i), Times(2, j));
    assert ValidName(a.bridge);
    TwoMoreTurns(start, both, cfgs, Times(2, i) + Times(2, j), i, j);
  }

  lemma TwoMoreTurns(start: World, w: World, cfgs: seq<Config>, turns: seq<nat>, i: nat, j: nat)
    requires |start.at| == |w.at| == |cfgs| && TakeTurns(start, cfgs, turns) == w
    ensures TakeTurns(start, cfgs, turns + [i] + [j]) == TakeTurn(TakeTurn(w, cfgs, i), cfgs, j)
  {
    hide TakeTurn, TakeTurns;
    OneTurn(w, cfgs, i);
    TurnsThen(start, cfgs, turns, [i]);
    OneTurn(TakeTurn(w, cfgs, i), cfgs, j);
    TurnsThen(start, cfgs, turns + [i], [j]);
  }

  /** How many statements bring a run that finds a leftover host end to its deletion. */
  function ToClearing(links: Links, cfg: Config): nat { if BridgeKey(cfg) in links then 4 else 6 }

  lemma PathToClearing(links: Links, cfg: Config)
    requires LocalKey(cfg) in links
    ensures Path(links, cfg, ToClearing(links, cfg)) == ClearLocal
  {
    assert Path(links, cfg, 2) == Following(links, cfg, TestBridge) by { assert Path(links, cfg, 1) == TestBridge; }
    if BridgeKey(cfg) in links {
      assert Path(links, cfg, 3) == TestUp;
    } else {
      assert Path(links, cfg, 3) == RaiseBridge;
      assert Path(links, cfg, 4) == TestLocal;
      assert Path(links, cfg, 5) == TestUp;
    }
  }

  /** Two runs whose leftover host ends are the two ends of one pair: deleting one deletes the other,
      and the second deletion fails. */
  lemma LeftoverClash(links: Links, cfgs: seq<Config>, i: nat, j: nat)
    requires i < j < |cfgs| && AllAble(links, cfgs) && !LeftoversApart(links, cfgs[i], cfgs[j])
    ensures var bridged := Bridged(links, cfgs[i]);
            var turns := Times(ToClearing(links, cfgs[i]), i) + Times(ToClearing(bridged, cfgs[j]), j) + [i] + [j];
            Interleaved(links, cfgs, turns).failed == {j}
  {
    hide AllAble, TakeTurns;
    var a, b, start := cfgs[i], cfgs[j], Start(links, cfgs);
    AbleAt(links, cfgs, i);
    PairAble(links, cfgs, i, j);
    AloneReaches(start, cfgs, i, ToClearing(links, a));
    PathToClearing(links, a);
    var first := World(Bridged(links, a), start.at[i := ClearLocal], {});
    AbleNames(links, a);
    AbleNames(links, b);
    StaysAble(links, a, ClearLocal, b);
    assert PeerSound(links, LocalKey(a));
    AloneReaches(first, cfgs, j, ToClearing(first.table, b));
    PathToClearing(first.table, b);
    var both := World(Bridged(first.table, b), first.at[j := ClearLocal], {});
    TurnsThen(start, cfgs, Times(ToClearing(links, a), i), Times(ToClearing(first.table, b), j));
    TwoMoreTurns(start, both, cfgs, Times(ToClearing(links, a), i) + Times(ToClearing(first.table, b), j), i, j);
  }

  /** Exactly when no interleaving makes one of the runs fail: no two have to create the same bridge, and
      no two have to clear away the two ends of one leftover pair. */
  lemma NeverFailsExactlyWhen(links: Links, cfgs: seq<Config>)
    requires AllAble(links, cfgs)
    ensures (forall turns :: Interleaved(links, cfgs, turns).failed == {}) <==> AllCompatible(links, cfgs)
  {
    if AllCompatible(links, cfgs) {
      hide AllAble, AllCompatible, InStep;
      forall turns ensures Interleaved(links, cfgs, turns).failed == {} {
        StartInStep(links, cfgs);
        TurnsNeverFail(links, cfgs, Start(links, cfgs), turns);
      }
    } else {
      hide AllAble, Interleaved, Times, BridgesApart, LeftoversApart;
      var i, j :| 0 <= i < j < |cfgs| && !Compatible(links, cfgs[i], cfgs[j]);
      if BridgesApart(links, cfgs[i], cfgs[j]) {
        LeftoverClash(links, cfgs, i, j);
      } else {
        BridgeClash(links, cfgs, i, j);
      }
    }
  }

  // ---------- Both failures happen ----------

  const NEIGHBOUR := SAMPLE.(pid := 43, ns := Container(1))

  lemma NamesOfSamples()
    ensures LocalOf(SAMPLE) == "veth1pl42" && GuestOf(SAMPLE) == "veth1pg42"
    ensures LocalOf(NEIGHBOUR) == "veth1pl43" && GuestOf(NEIGHBOUR) == "veth1pg43"
  {
    assert Decimal(42) == "42" && Decimal(43) == "43" by { assert Decimal(4) == "4"; }
  }

  lemma SamplesAble(links: Links)
    requires WellFormed(links) && Able(links, SAMPLE) && Able(links, NEIGHBOUR)
    ensures AllAble(links, [SAMPLE, NEIGHBOUR])
  {
    NamesOfSamples();
    DifferentContainersIndependent(SAMPLE, NEIGHBOUR);
    hide Independent, Able, WellFormed;
  }

  /** Two containers attached to a new bridge at the same time: either run alone completes, but if
      they test for the bridge before one of them creates it, the second to create it fails. */
  lemma NewBridgeRace()
    ensures AllAble(EMPTY, [SAMPLE, NEIGHBOUR])
    ensures Interleaved(EMPTY, [SAMPLE, NEIGHBOUR], [0, 0, 1, 1, 0, 1]).failed == {1}
  {
    NamesOfSamples();
    SamplesAble(EMPTY);
    BridgeClash(EMPTY, [SAMPLE, NEIGHBOUR], 0, 1);
    assert Times(2, 0) + Times(2, 1) + [0] + [1] == [0, 0, 1, 1, 0, 1];
  }

  /** The two host ends are one pair, left over on an existing bridge. */
  const CROSSED: Links := map[
    OnHost("br0") := NEW_BRIDGE,
    OnHost("veth1pl42") := FRESH_VETH.(peer := Some(OnHost("veth1pl43"))),
    OnHost("veth1pl43") := FRESH_VETH.(peer := Some(OnHost("veth1pl42")))]

  lemma CrossedAble()
    ensures AllAble(CROSSED, [SAMPLE, NEIGHBOUR]) && !LeftoversApart(CROSSED, SAMPLE, NEIGHBOUR)
    ensures ToClearing(CROSSED, SAMPLE) == ToClearing(Bridged(CROSSED, SAMPLE), NEIGHBOUR) == 4
  {
    NamesOfSamples();
    SamplesAble(CROSSED);
  }

  /** Either run alone would clear the pair away and complete; both at once may fail. */
  lemma LeftoverRace()
    ensures AllAble(CROSSED, [SAMPLE, NEIGHBOUR])
    ensures Interleaved(CROSSED, [SAMPLE, NEIGHBOUR], [0, 0, 0, 0, 1, 1, 1, 1, 0, 1]).failed == {1}
  {
    CrossedAble();
    hide AllAble, LeftoversApart, ToClearing, Interleaved;
    LeftoverClash(CROSSED, [SAMPLE, NEIGHBOUR], 0, 1);
    assert Times(4, 0) + Times(4, 1) + [0] + [1] == [0, 0, 0, 0, 1, 1, 1, 1, 0, 1];
  }
}
