/** A run that takes its statements one by one, on its own or beside others, and the plan it was specified
    by: they agree on every table, early exits included. Runs for containers that are attached already
    change nothing. */
module AttachAlone {
  import opened Text
  import opened Network
  import opened Pipework
  import opened AttachStages
  import opened AttachRuns
  import opened AttachProgress
  import opened AttachOrder
  import opened AttachTogether
  import opened AttachRaces

  // ---------- On its own ----------

  /** The plan from the test for the host end on. */
  function Tail(table: Links, cfg: Config): seq<Command>
  {
    if LocalKey(cfg) !in table then BuildSteps(cfg)
    else if table[LocalKey(cfg)].up then []
    else [Delete(LocalOf(cfg))] + BuildSteps(cfg)
  }

  /** What a run at `p` still has to issue if nobody else changes the table. */
  function Rest(table: Links, cfg: Config, p: Point): seq<Command>
  {
    match p
    case TestMode | TestBridge | CreateBridge => Steps(table, cfg)
    case RaiseBridge =>
      [Raise(BridgeKey(cfg))] +
      (if BridgeKey(cfg) in table
       then Tail(table[BridgeKey(cfg) := table[BridgeKey(cfg)].(up := true)], cfg) else [])
    case TestLocal => Tail(table, cfg)
    case TestUp => if LocalKey(cfg) in table then Tail(table, cfg) else [Delete(LocalOf(cfg))]
    case ClearLocal => [Delete(LocalOf(cfg))] + BuildSteps(cfg)
    case Build(n) => BuildSteps(cfg)[n..]
  }

  /** It will find its host end up. */
  predicate FindsUp(table: Links, cfg: Config, p: Point)
  {
    match p
    case TestMode | TestBridge | CreateBridge => LocalUp(table, cfg)
    case RaiseBridge => LocalKey(cfg) == BridgeKey(cfg) || (LocalKey(cfg) in table && table[LocalKey(cfg)].up)
    case TestLocal | TestUp => LocalKey(cfg) in table && table[LocalKey(cfg)].up
    case ClearLocal => false
    case Build(n) => false
  }

  predicate OnTheWay(table: Links, cfg: Config, p: Point)
  {
    && (p.CreateBridge? ==> BridgeKey(cfg) !in table)
    && (p.RaiseBridge? ==> BridgeKey(cfg) in table)
    && (p.TestUp? || p.ClearLocal? ==> LocalKey(cfg) in table)
  }

  /** A statement takes the first command off the plan, or tests what the plan was made by. A run ends
      early where the plan is refused, or is empty because the host end is up. */
  lemma StatementIs(table: Links, cfg: Config, p: Point)
    requires OnTheWay(table, cfg, p) && (p.TestMode? ==> Accepted(table, cfg))
    ensures match Next(table, cfg, p)
            case None =>
              ExecAll(table, Rest(table, cfg, p)) == (table, p.TestUp?) && (p.TestUp? ==> FindsUp(table, cfg, p))
            case Some((next, q)) =>
              && OnTheWay(next, cfg, q) && (FindsUp(next, cfg, q) <==> FindsUp(table, cfg, p))
              && ExecAll(next, Rest(next, cfg, q)) == ExecAll(table, Rest(table, cfg, p)) && !q.TestMode?
  {
    if p.Build? {
      if p.n < BUILD { BuildIs(table, cfg, p.n); }
    } else if p.CreateBridge? {
      CreateIs(table, cfg);
    } else {
      hide BuildSteps;
      if p.RaiseBridge? {
        assert Rest(table, cfg, p)[1..] == Tail(Next(table, cfg, p).value.0, cfg);
      } else if p.ClearLocal? {
        assert Rest(table, cfg, p)[1..] == BuildSteps(cfg) == BuildSteps(cfg)[0..];
      } else if p.TestBridge? && BridgeKey(cfg) in table {
        assert Rest(table, cfg, p) == Tail(table, cfg);
      } else if p.TestLocal? && LocalKey(cfg) !in table {
        assert BuildSteps(cfg)[0..] == BuildSteps(cfg);
      }
    }
  }

  lemma CreateIs(table: Links, cfg: Config)
    requires BridgeKey(cfg) !in table
    ensures if Possible(table, AddBridge(cfg.bridge)) then
              var next := Effect(table, AddBridge(cfg.bridge));
              && ExecAll(next, Rest(next, cfg, RaiseBridge)) == ExecAll(table, Steps(table, cfg))
              && (FindsUp(next, cfg, RaiseBridge) <==> LocalUp(table, cfg))
            else ExecAll(table, Steps(table, cfg)) == (table, false)
  {
    hide BuildSteps;
    if !Possible(table, AddBridge(cfg.bridge)) { return; }
    var next := Effect(table, AddBridge(cfg.bridge));
    assert next[BridgeKey(cfg) := NEW_BRIDGE] == Bridged(table, cfg);
    assert Steps(table, cfg)[1..] == Rest(next, cfg, RaiseBridge);
  }

  lemma BuildIs(table: Links, cfg: Config, n: Built)
    requires n < BUILD
    ensures var c := BuildSteps(cfg)[n];
            ExecAll(table, BuildSteps(cfg)[n..])
            == if Possible(table, c) then ExecAll(Effect(table, c), BuildSteps(cfg)[n + 1..]) else (table, false)
  {
    hide Effect, Possible;
    assert BuildSteps(cfg)[n..][1..] == BuildSteps(cfg)[n + 1..];
  }

  /** A run on its own ends where its plan ends. */
  ghost predicate Follows(links: Links, cfg: Config, w: World)
  {
    && |w.at| == 1 && w.failed <= {0}
    && (w.at[0].TestMode? ==> w.table == links && (0 in w.failed ==> !Accepted(links, cfg)))
    && (!w.at[0].TestMode? ==>
          && Accepted(links, cfg) && OnTheWay(w.table, cfg, w.at[0])
          && ExecAll(w.table, Rest(w.table, cfg, w.at[0])) == ExecAll(links, Steps(links, cfg))
          && (FindsUp(w.table, cfg, w.at[0]) <==> LocalUp(links, cfg))
          && (0 in w.failed ==> Next(w.table, cfg, w.at[0]).None?))
  }

  lemma TurnFollows(links: Links, cfg: Config, w: World, r: nat)
    requires Follows(links, cfg, w)
    ensures Follows(links, cfg, TakeTurn(w, [cfg], r))
  {
    var p := w.at[0];
    if r == 0 && 0 !in w.failed && (p.TestMode? ==> Accepted(links, cfg)) {
      StatementIs(w.table, cfg, p);
    }
    hide Rest, FindsUp, OnTheWay, ExecAll, Steps, Accepted, LocalUp;
  }

  lemma {:induction false} TurnsFollow(links: Links, cfg: Config, w: World, turns: seq<nat>)
    requires Follows(links, cfg, w)
    ensures Follows(links, cfg, TakeTurns(w, [cfg], turns))
    decreases |turns|
  {
    if turns != [] {
      TurnFollows(links, cfg, w, turns[0]);
      hide TakeTurn;
      assert |w.at| == 1;
      hide Follows;
      TurnsFollow(links, cfg, TakeTurn(w, [cfg], turns[0]), turns[1..]);
    }
  }

  /** On its own, and given enough turns, a run leaves the table of its plan, whatever table it starts in:
      one that completes does not fail, one that finds its host end up ends there, one that is refused ends
      at its first test, and one that the kernel stops ends at a command. */
  lemma AloneIsRun(links: Links, cfg: Config, turns: seq<nat>)
    requires multiset(turns)[0] >= MOST
    ensures var w, run := Interleaved(links, [cfg], turns), FullRun(links, cfg);
            && w.table == run.0
            && (run.1 == Completed <==> 0 !in w.failed) && (run.1 == Completed <==> w.at[0] == DONE)
            && (run.1 == AlreadyUp <==> w.at[0] == TestUp)
            && (run.1 == Refused <==> w.at[0] == TestMode)
  {
    var start, w := Start(links, [cfg]), Interleaved(links, [cfg], turns);
    TurnsFollow(links, cfg, start, turns);
    TurnsAdvance(start, [cfg], turns, 0);
    if Accepted(links, cfg) {
      assert !(w.at[0].TestMode?);
      StatementIs(w.table, cfg, w.at[0]);
      hide Rest, FindsUp, Steps, Next;
    }
  }

  // ---------- Beside others ----------

  /** The container is attached: its host end is up on an existing bridge, and none of the runs works under
      that end's name or has the end of its pair to clear away. */
  ghost predicate Attached(links: Links, c: Config, cfgs: seq<Config>)
  {
    && Accepted(links, c) && BridgeKey(c) in links && LocalKey(c) in links && links[LocalKey(c)].up
    && forall a :: a in cfgs ==>
         && LocalKey(c) !in Ends(a) && LocalKey(c) != BridgeKey(a) && BridgeKey(c) !in Ends(a)
         && links[LocalKey(c)].peer != Some(LocalKey(a))
  }

  /** This is what a completed run leaves, beside runs that are independent of it. */
  lemma CompletedIsAttached(links: Links, c: Config, cfgs: seq<Config>)
    requires WellFormed(links) && FullRun(links, c).1 == Completed
    requires forall a :: a in cfgs ==> Independent(c, a)
    ensures Attached(FullRun(links, c).0, c, cfgs)
  {
    CompletedLeaves(links, c);
    assert c.vlan == "";
    hide FullRun;
  }

  lemma AttachedBeside(links: Links, c: Config, cfgs: seq<Config>, p: Point)
    requires cfgs != [] && AllAble(links, cfgs) && Attached(links, c, cfgs)
    ensures Attached(Progress(links, cfgs[0], p), c, cfgs[1..])
  {
    var a := cfgs[0];
    assert a in cfgs;
    AbleNames(links, a);
    ProgressAt(links, a, p, LocalKey(c));
    if LocalKey(a) in links { assert PeerSound(links, LocalKey(a)); }
    if BridgeKey(a) == BridgeKey(c) {
      BridgeStays(links, a, p);
    } else {
      ProgressElsewhere(links, a, p, BridgeKey(c));
    }
    hide Progress, Able, AllAble;
  }

  lemma {:induction false} AttachedBesideAll(links: Links, c: Config, cfgs: seq<Config>, at: seq<Point>)
    requires |at| == |cfgs| && AllAble(links, cfgs) && Attached(links, c, cfgs)
    ensures Attached(ProgressAll(links, cfgs, at), c, [])
    decreases |cfgs|
  {
    hide AllAble, Progress;
    if cfgs != [] {
      AttachedBeside(links, c, cfgs, at[0]);
      AllAbleBeside(links, cfgs, at[0]);
      hide Attached;
      AttachedBesideAll(Progress(links, cfgs[0], at[0]), c, cfgs[1..], at[1..]);
    }
  }

  /** The same runs with and without those for attached containers. */
  ghost predicate Beside(cfgs: seq<Config>, idle: seq<Config>, w: World, v: World)
  {
    && |v.at| == |cfgs| && |w.at| == |cfgs + idle| && w.table == v.table && w.at[..|cfgs|] == v.at
    && (forall r :: 0 <= r < |cfgs| ==> (r in w.failed <==> r in v.failed))
    && forall r :: |cfgs| <= r < |w.at| ==>
         && (w.at[r].TestMode? || w.at[r].TestBridge? || w.at[r].TestLocal? || w.at[r].TestUp?)
         && (r in w.failed ==> w.at[r].TestUp?)
  }

  lemma TurnBeside(links: Links, cfgs: seq<Config>, idle: seq<Config>, w: World, v: World, r: nat)
    requires Beside(cfgs, idle, w, v) && InStep(links, cfgs, v)
    requires forall c :: c in idle ==> Attached(links, c, cfgs)
    ensures Beside(cfgs, idle, TakeTurn(w, cfgs + idle, r), TakeTurn(v, cfgs, r))
  {
    hide AllAble, ProgressAll, Attached, Able, WellFormed;
    var n := |cfgs|;
    if n <= r < |w.at| {
      var c := (cfgs + idle)[r];
      assert c == idle[r - n] && c in idle;
      AttachedOnGround(links, c, cfgs, v.at);
      AttachedBesideAll(Ground(links, cfgs, v.at), c, cfgs, v.at);
      AttachedGoesOn(w.table, c, w.at[r]);
      hide Next, Ground, Found;
    } else if r < n {
      hide Next, Ground, Found;
      assert (cfgs + idle)[r] == cfgs[r] && w.at[r] == v.at[r];
    }
  }

  lemma AttachedOnGround(links: Links, c: Config, cfgs: seq<Config>, at: seq<Point>)
    requires |at| == |cfgs| && Attached(links, c, cfgs)
    ensures Attached(Ground(links, cfgs, at), c, cfgs)
  {
    hide Provided, Raising;
  }

  lemma AttachedGoesOn(table: Links, c: Config, p: Point)
    requires Attached(table, c, []) && (p.TestMode? || p.TestBridge? || p.TestLocal? || p.TestUp?)
    ensures Next(table, c, p)
            == match p
               case TestMode => Some((table, TestBridge))
               case TestBridge => Some((table, TestLocal))
               case TestLocal => Some((table, TestUp))
               case _ => None
  {}

  lemma {:induction false} TurnsBeside(links: Links, cfgs: seq<Config>, idle: seq<Config>, w: World, v: World,
                                       turns: seq<nat>)
    requires Beside(cfgs, idle, w, v) && InStep(links, cfgs, v)
    requires forall c :: c in idle ==> Attached(links, c, cfgs)
    ensures |w.at| == |cfgs + idle| && |v.at| == |cfgs|
    ensures Beside(cfgs, idle, TakeTurns(w, cfgs + idle, turns), TakeTurns(v, cfgs, turns))
    decreases |turns|
  {
    assert |w.at| == |cfgs + idle| && |v.at| == |cfgs|;
    hide Beside, InStep, TakeTurn, Attached;
    if turns != [] {
      TurnBeside(links, cfgs, idle, w, v, turns[0]);
      TurnKeepsStep(links, cfgs, v, turns[0]);
      TurnsBeside(links, cfgs, idle, TakeTurn(w, cfgs + idle, turns[0]), TakeTurn(v, cfgs, turns[0]), turns[1..]);
    }
  }

  /** Runs for containers that are attached already, started again while others are attached, change
      nothing: the others stand where they would without them, with the same table and the same failures,
      and each of these ends where it finds its host end up. */
  lemma AttachedChangeNothing(links: Links, cfgs: seq<Config>, idle: seq<Config>, turns: seq<nat>)
    requires AllAble(links, cfgs) && forall c :: c in idle ==> Attached(links, c, cfgs)
    ensures var w, v := Interleaved(links, cfgs + idle, turns), Interleaved(links, cfgs, turns);
            && w.table == v.table && w.at[..|cfgs|] == v.at
            && (forall r :: 0 <= r < |cfgs| ==> (r in w.failed <==> r in v.failed))
            && forall r :: |cfgs| <= r < |cfgs + idle| && multiset(turns)[r] >= MOST ==>
                 r in w.failed && w.at[r] == TestUp
  {
    var all := cfgs + idle;
    StartInStep(links, cfgs);
    assert Start(links, all).at[..|cfgs|] == Start(links, cfgs).at;
    TurnsBeside(links, cfgs, idle, Start(links, all), Start(links, cfgs), turns);
    forall r | |cfgs| <= r < |all| && multiset(turns)[r] >= MOST ensures r in Interleaved(links, all, turns).failed {
      TurnsAdvance(Start(links, all), all, turns, r);
    }
    hide AllAble, Attached, InStep, TakeTurns;
  }
}
