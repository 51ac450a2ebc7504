/** Running pipework again for containers whose runs were interleaved, interrupted or failed: exactly when
    that makes up for everything. */
module AttachRecovery {
  import opened Text
  import opened Network
  import opened Pipework
  import opened AttachStages
  import opened AttachRuns
  import opened AttachHistory
  import opened AttachProgress
  import opened AttachOrder
  import opened AttachTogether
  import opened AttachRaces

  // ---------- One run again ----------

  /** The host end is up although the run is not done. */
  predicate Stuck(p: Point) { p.Build? && 3 <= p.n < BUILD }

  function Again(p: Point): Point { if Stuck(p) then p else DONE }

  /** A run in progress is completed by running it again, unless its host end is up: then nothing happens. */
  lemma RunAgainIs(links: Links, cfg: Config, p: Point)
    requires WellFormed(links) && Able(links, cfg) && (p.RaiseBridge? ==> BridgeKey(cfg) in links)
    ensures FullRun(Progress(links, cfg, p), cfg).0 == Progress(links, cfg, Again(p))
  {
    var mid := Progress(links, cfg, p);
    if p.Build? && p.n >= 3 {
      UpAt(links, cfg, p.n);
      RerunChangesNothing(mid, cfg, |Steps(mid, cfg)|);
    } else {
      BaseAgain(links, cfg, p);
      AbleIsAccepted(mid, cfg);
      ProgressWellFormed(links, cfg, p);
      AbleCompletes(mid, cfg);
      hide FullRun;
    }
  }

  lemma UpAt(links: Links, cfg: Config, n: Built)
    requires WellFormed(links) && Able(links, cfg) && n >= 3
    ensures var mid := Progress(links, cfg, Build(n));
            Accepted(mid, cfg) && BridgeKey(cfg) in mid && LocalKey(cfg) in mid && mid[LocalKey(cfg)].up
  {
    AbleNames(links, cfg);
    BaseKeepsBridge(links, cfg);
    ProgressWellFormed(links, cfg, Build(n));
  }

  lemma BaseAgain(links: Links, cfg: Config, p: Point)
    requires WellFormed(links) && Able(links, cfg) && (p.RaiseBridge? ==> BridgeKey(cfg) in links)
    requires p.Build? ==> p.n < 3
    ensures var mid := Progress(links, cfg, p); Able(mid, cfg) && Base(mid, cfg) == Base(links, cfg)
  {
    AbleNames(links, cfg);
    BaseKeepsBridge(links, cfg);
    ProgressWellFormed(links, cfg, p);
    if HasPair(p) {
      BridgedWellFormed(links, cfg);
      DeleteUndoesPair(Base(links, cfg), cfg, p.n);
    }
  }

  // ---------- All runs again ----------

  /** Full runs, completed or not, in the order of `again`. */
  function RunAgain(table: Links, cfgs: seq<Config>, again: seq<nat>): Links
    requires forall r :: r in again ==> r < |cfgs|
    decreases |again|
  {
    if again == [] then table
    else
      assert again[0] in again && forall r :: r in again[1..] ==> r in again;
      RunAgain(FullRun(table, cfgs[again[0]]).0, cfgs, again[1..])
  }

  function PointsAgain(at: seq<Point>, again: seq<nat>): (points: seq<Point>)
    ensures |points| == |at|
    decreases |again|
  {
    if again == [] then at
    else PointsAgain(if again[0] < |at| then at[again[0] := Again(at[again[0]])] else at, again[1..])
  }

  lemma {:induction false} PointsAgainAt(at: seq<Point>, again: seq<nat>, r: nat)
    requires r < |at|
    ensures PointsAgain(at, again)[r] == if r in again then Again(at[r]) else at[r]
    decreases |again|
  {
    if again != [] {
      assert again == [again[0]] + again[1..];
      PointsAgainAt(if again[0] < |at| then at[again[0] := Again(at[again[0]])] else at, again[1..], r);
    }
  }

  lemma OneAgain(ground: Links, cfgs: seq<Config>, at: seq<Point>, r: nat)
    requires r < |cfgs| == |at| && AllAble(ground, cfgs) && RaiseOnly(ground, cfgs, at)
    ensures var next := at[r := Again(at[r])];
            && RaiseOnly(ground, cfgs, next)
            && FullRun(ProgressAll(ground, cfgs, at), cfgs[r]).0 == ProgressAll(ground, cfgs, next)
  {
    hide AllAble, Able, Progress, ProgressAll, FullRun, WellFormed;
    var next := at[r := Again(at[r])];
    AnyGoesLast(ground, cfgs, at, r);
    AnyGoesLast(ground, cfgs, next, r);
    assert Without(next, r) == Without(at, r);
    OthersAt(ground, cfgs, at, r);
    if at[r].RaiseBridge? { BridgeInOthers(ground, cfgs, at, r); }
    RunAgainIs(Others(ground, cfgs, at, r), cfgs[r], at[r]);
  }

  /** A bridge that is there stays there beside all other runs. */
  lemma BridgeInOthers(ground: Links, cfgs: seq<Config>, at: seq<Point>, r: nat)
    requires r < |cfgs| == |at| && AllAble(ground, cfgs) && BridgeKey(cfgs[r]) in ground
    ensures BridgeKey(cfgs[r]) in Others(ground, cfgs, at, r)
  {
    hide AllAble, Progress, ProgressAll, Ends;
    var k, rest := BridgeKey(cfgs[r]), Without(cfgs, r);
    BridgeIsBridge(ground, cfgs, r);
    WithoutAble(ground, cfgs, r);
    forall c | c in rest ensures k !in Ends(c) {
      var i :| 0 <= i < |rest| && rest[i] == c;
      assert c == cfgs[if i < r then i else i + 1];
    }
    BridgeThroughAll(ground, rest, Without(at, r), k, true);
  }

  lemma {:induction false} AllAgain(ground: Links, cfgs: seq<Config>, at: seq<Point>, again: seq<nat>)
    requires |cfgs| == |at| && AllAble(ground, cfgs) && RaiseOnly(ground, cfgs, at)
    requires forall r :: r in again ==> r < |cfgs|
    ensures RaiseOnly(ground, cfgs, PointsAgain(at, again))
    ensures RunAgain(ProgressAll(ground, cfgs, at), cfgs, again) == ProgressAll(ground, cfgs, PointsAgain(at, again))
    decreases |again|
  {
    hide AllAble, ProgressAll, FullRun, RaiseOnly;
    if again != [] {
      var r := again[0];
      assert r in again && forall s :: s in again[1..] ==> s in again;
      OneAgain(ground, cfgs, at, r);
      AllAgain(ground, cfgs, at[r := Again(at[r])], again[1..]);
    }
  }

  // ---------- What is repaired ----------

  /** The damage that running again leaves: a new bridge that was not raised, a host end that is up. */
  predicate Damaged(p: Point) { p.RaiseBridge? || Stuck(p) }

  lemma StuckShows(ground: Links, up: Links, cfgs: seq<Config>, at: seq<Point>, done: seq<Point>, r: nat)
    requires r < |cfgs| == |at| == |done| && AllAble(ground, cfgs) && AllAble(up, cfgs)
    requires RaiseOnly(ground, cfgs, at) && RaiseOnly(up, cfgs, done)
    requires Stuck(at[r]) && done[r] == DONE
    ensures ProgressAll(ground, cfgs, at) != ProgressAll(up, cfgs, done)
  {
    hide AllAble, ProgressAll;
    AnyGoesLast(ground, cfgs, at, r);
    AnyGoesLast(up, cfgs, done, r);
    OthersAt(ground, cfgs, at, r);
    OthersAt(up, cfgs, done, r);
    InsideUp(Others(ground, cfgs, at, r), cfgs[r], at[r].n);
    InsideUp(Others(up, cfgs, done, r), cfgs[r], BUILD);
  }

  /** Only the last statement leaves the container's end up under its name. */
  lemma InsideUp(links: Links, cfg: Config, n: Built)
    requires WellFormed(links) && Able(links, cfg) && n >= 3
    ensures var mid, inside := Progress(links, cfg, Build(n)), Key(cfg.ns, cfg.container);
            n == BUILD <==> inside in mid && mid[inside].up
  {
    ProgressWellFormed(links, cfg, Build(n));
    NamesDiffer(cfg);
  }

  lemma BridgeShows(ground: Links, up: Links, cfgs: seq<Config>, at: seq<Point>, done: seq<Point>, r: nat)
    requires r < |cfgs| == |at| == |done| && AllAble(ground, cfgs) && AllAble(up, cfgs)
    requires var k := BridgeKey(cfgs[r]); ground[k := NEW_BRIDGE.(up := false)] == ground && up[k := NEW_BRIDGE] == up
    ensures ProgressAll(ground, cfgs, at) != ProgressAll(up, cfgs, done)
  {
    hide AllAble, ProgressAll, Ends;
    var k := BridgeKey(cfgs[r]);
    BridgeIsBridge(ground, cfgs, r);
    BridgeThroughAll(ground, cfgs, at, k, false);
    BridgeThroughAll(up, cfgs, done, k, true);
    var x, y := ProgressAll(ground, cfgs, at), ProgressAll(up, cfgs, done);
    assert x[k] == NEW_BRIDGE.(up := false) && y[k] == NEW_BRIDGE;
  }

  /** However the statements of independent runs interleave, and wherever the runs then stop or fail: running
      all of them again, in any order, leaves the table of undisturbed runs one after the other, exactly
      unless one stopped before raising the bridge it created, or between raising its host end and its
      last statement. */
  lemma RunningAgainRepairsExactlyWhen(links: Links, cfgs: seq<Config>, turns: seq<nat>, again: seq<nat>)
    requires AllAble(links, cfgs) && forall r :: r in again <==> r < |cfgs|
    ensures var w := Interleaved(links, cfgs, turns);
            Some(RunAgain(w.table, cfgs, again)) == AttachAll(links, cfgs) <==> forall p :: p in w.at ==> !Damaged(p)
  {
    hide AllAble, AttachAll, TakeTurns, RunAgain, InStep;
    StartInStep(links, cfgs);
    TurnsKeepStep(links, cfgs, Start(links, cfgs), turns);
    RepairedInStep(links, cfgs, Interleaved(links, cfgs, turns), again);
  }

  lemma RepairedInStep(links: Links, cfgs: seq<Config>, w: World, again: seq<nat>)
    requires AllAble(links, cfgs) && InStep(links, cfgs, w) && forall r :: r in again <==> r < |cfgs|
    ensures Some(RunAgain(w.table, cfgs, again)) == AttachAll(links, cfgs) <==> forall p :: p in w.at ==> !Damaged(p)
  {
    hide AllAble, ProgressAll, AttachAll, RunAgain, Found, Ground, WithBridges, RaiseOnly, Raising, Damaged, Again;
    var ground, up, at := Ground(links, cfgs, w.at), WithBridges(links, Provided(cfgs, w.at)), PointsAgain(w.at, again);
    var done := seq(|cfgs|, _ => DONE);
    GroundRaises(links, cfgs, w.at);
    AllAgain(ground, cfgs, w.at, again);
    BridgesUp(links, cfgs, w.at);
    AllDone(up, cfgs, done);
    forall r | 0 <= r < |cfgs| ensures at[r] == Again(w.at[r]) { PointsAgainAt(w.at, again, r); }
    if p :| p in w.at && Damaged(p) {
      var r :| 0 <= r < |cfgs| && w.at[r] == p;
      DamageShows(links, cfgs, w, at, r);
    } else {
      Undamaged(w.at, at);
      forall r | 0 <= r < |cfgs| ensures at[r] == done[r] { assert at[r] in at; }
      assert at == done;
    }
  }

  lemma Undamaged(before: seq<Point>, after: seq<Point>)
    requires |before| == |after| && forall r :: 0 <= r < |before| ==> after[r] == Again(before[r])
    requires forall p :: p in before ==> !Damaged(p)
    ensures forall p :: p in after ==> p == DONE
    ensures forall p :: p in before ==> !p.RaiseBridge?
  {
    forall r | 0 <= r < |before| ensures after[r] == DONE {
      assert !Damaged(before[r]);
    }
  }

  lemma {:induction false} DamageShows(links: Links, cfgs: seq<Config>, w: World, at: seq<Point>, r: nat)
    requires AllAble(links, cfgs) && InStep(links, cfgs, w) && r < |cfgs| == |at| && Damaged(w.at[r])
    requires at[r] == Again(w.at[r]) && RaiseOnly(Ground(links, cfgs, w.at), cfgs, at)
    ensures var up := WithBridges(links, Provided(cfgs, w.at));
            ProgressAll(Ground(links, cfgs, w.at), cfgs, at) != ProgressAll(up, cfgs, seq(|cfgs|, _ => DONE))
  {
    hide AllAble, ProgressAll, AttachAll, Ground, WithBridges, Provided, Raising;
    var ground, up := Ground(links, cfgs, w.at), WithBridges(links, Provided(cfgs, w.at));
    var done := seq(|cfgs|, _ => DONE);
    BridgesUp(links, cfgs, w.at);
    if w.at[r].RaiseBridge? {
      GroundRaised(links, cfgs, w.at, r);
      RaisedUp(links, cfgs, w.at, r);
      BridgeShows(ground, up, cfgs, at, done, r);
    } else {
      StuckShows(ground, up, cfgs, at, done, r);
    }
  }

  lemma RaisedUp(links: Links, cfgs: seq<Config>, at: seq<Point>, r: nat)
    requires r < |cfgs| == |at| && Found(links, cfgs, at) && at[r].RaiseBridge?
    ensures var up, k := WithBridges(links, Provided(cfgs, at)), BridgeKey(cfgs[r]); up[k := NEW_BRIDGE] == up
  {
    ProvidedBy(cfgs, at, r);
    hide Provided;
  }
}
