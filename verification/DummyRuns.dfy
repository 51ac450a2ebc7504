/** pipework's dummy mode: a link is created for the container on every run, nothing is deleted. */
module DummyRuns {
  import opened Text
  import opened Network
  import opened Pipework

  const DUMMY := 6

  function DummyKey(cfg: Config, i: nat): Key
  {
    if i < 2 then OnHost(DummyOf(cfg))
    else if i < 3 then Key(cfg.ns, DummyOf(cfg))
    else Key(cfg.ns, cfg.container)
  }

  function DummyLink(cfg: Config, i: nat): Link
  {
    Link(Other, i >= 6, None, None, if i >= 4 then cfg.mac else "", if i >= 5 then {cfg.address} else {})
  }

  /** The table after `i` statements. */
  function DummyStage(links: Links, cfg: Config, i: nat): Links
  {
    if i == 0 then links else links[DummyKey(cfg, i) := DummyLink(cfg, i)]
  }

  lemma DummyStep(links: Links, cfg: Config, i: nat)
    requires WellFormed(links) && i < DUMMY && (i > 0 ==> DummyKey(cfg, i) !in links)
    requires Possible(DummyStage(links, cfg, i), DummySteps(cfg)[i])
    ensures Effect(DummyStage(links, cfg, i), DummySteps(cfg)[i]) == DummyStage(links, cfg, i + 1)
    ensures DummyKey(cfg, i + 1) !in links
  {
    assert forall k :: k in links ==> PeerSound(links, k) && MasterSound(links, k);
    var none: set<string> := {};
    assert none + {cfg.address} == {cfg.address};
  }

  lemma {:induction false} DummyFrom(links: Links, cfg: Config, i: nat, limit: nat)
    requires WellFormed(links) && i <= DUMMY && (i > 0 ==> DummyKey(cfg, i) !in links)
    ensures var n := i + Executed(DummyStage(links, cfg, i), DummySteps(cfg)[i..], limit);
            n <= DUMMY && (n > 0 ==> DummyKey(cfg, n) !in links)
            && Exec(DummyStage(links, cfg, i), DummySteps(cfg)[i..], limit)
               == (DummyStage(links, cfg, n), n == DUMMY)
    decreases DUMMY - i
  {
    hide Effect, Possible, DummyStage;
    if i < DUMMY && limit > 0 && Possible(DummyStage(links, cfg, i), DummySteps(cfg)[i]) {
      DummyStep(links, cfg, i);
      ExecNext(DummyStage(links, cfg, i), DummySteps(cfg), i, limit);
      DummyFrom(links, cfg, i + 1, limit - 1);
    }
  }

  function DummyRun(links: Links, cfg: Config, limit: nat): Links { Exec(links, DummySteps(cfg), limit).0 }

  function FullDummyRun(links: Links, cfg: Config): (Links, bool) { ExecAll(links, DummySteps(cfg)) }

  /** Wherever it is interrupted, a run adds at most one link and changes none. */
  lemma DummyRunAdds(links: Links, cfg: Config, limit: nat)
    requires WellFormed(links)
    ensures var n := Executed(links, DummySteps(cfg), limit);
            && DummyRun(links, cfg, limit) == DummyStage(links, cfg, n)
            && WellFormed(DummyRun(links, cfg, limit))
            && (n > 0 ==> DummyKey(cfg, n) !in links)
            && (forall k :: k in links ==>
                  k in DummyRun(links, cfg, limit) && DummyRun(links, cfg, limit)[k] == links[k])
  {
    DummyFrom(links, cfg, 0, limit);
    assert DummySteps(cfg)[0..] == DummySteps(cfg);
    ExecKeepsWellFormed(links, DummySteps(cfg), limit);
  }

  /** How far a run left alone gets: it stops where the name it needs next is taken. */
  lemma FullDummyReaches(links: Links, cfg: Config)
    requires WellFormed(links) && ValidName(DummyOf(cfg)) && ValidName(cfg.container)
    ensures Executed(links, DummySteps(cfg), DUMMY)
            == if OnHost(DummyOf(cfg)) in links then 0
               else if Key(cfg.ns, DummyOf(cfg)) in links then 1
               else if Key(cfg.ns, cfg.container) in links then 2
               else DUMMY
  {
    var plan := DummySteps(cfg);
    assert |DummyOf(cfg)| > |cfg.container|;
    assert plan[0..] == plan;
    if OnHost(DummyOf(cfg)) !in links {
      DummyStep(links, cfg, 0);
      ExecNext(links, plan, 0, DUMMY);
      if Key(cfg.ns, DummyOf(cfg)) !in links {
        DummyStep(links, cfg, 1);
        ExecNext(DummyStage(links, cfg, 1), plan, 1, DUMMY - 1);
        if Key(cfg.ns, cfg.container) !in links {
          DummyStep(links, cfg, 2);
          ExecNext(DummyStage(links, cfg, 2), plan, 2, DUMMY - 2);
          DummyTail(links, cfg, 3);
        }
      }
    }
  }

  lemma {:induction false} DummyTail(links: Links, cfg: Config, i: nat)
    requires WellFormed(links) && 3 <= i <= DUMMY && DummyKey(cfg, i) !in links
    ensures Executed(DummyStage(links, cfg, i), DummySteps(cfg)[i..], DUMMY - i) == DUMMY - i
    decreases DUMMY - i
  {
    if i < DUMMY {
      DummyStep(links, cfg, i);
      ExecNext(DummyStage(links, cfg, i), DummySteps(cfg), i, DUMMY - i);
      DummyTail(links, cfg, i + 1);
    }
  }

  /** `n` further runs. */
  function Repeated(links: Links, cfg: Config, n: nat): Links
  {
    if n == 0 then links else FullDummyRun(Repeated(links, cfg, n - 1), cfg).0
  }

  /** The links left behind by repeating a completed run: the second run strands one inside the
      container, the third one on the host, and from then on nothing changes. In a container that
      shares the host's namespace the two are the same. */
  function Stranded(links: Links, cfg: Config, n: nat): Links
  {
    var one := if n >= 1 then links[Key(cfg.ns, DummyOf(cfg)) := DummyLink(cfg, 0)] else links;
    if n >= 2 then one[OnHost(DummyOf(cfg)) := DummyLink(cfg, 0)] else one
  }

  /** Unlike bridge mode, dummy mode is not safe to repeat: every completed run that is repeated
      strands exactly two links, or one if the container shares the host's namespace, whatever the
      number of repetitions beyond the second. */
  lemma {:induction false} RepeatingStrands(links: Links, cfg: Config, n: nat)
    requires WellFormed(links) && FullDummyRun(links, cfg).1
    ensures var done := FullDummyRun(links, cfg).0;
            && Repeated(done, cfg, n) == Stranded(done, cfg, n) && WellFormed(Repeated(done, cfg, n))
            && Key(cfg.ns, DummyOf(cfg)) !in done && OnHost(DummyOf(cfg)) !in done
  {
    var done := FullDummyRun(links, cfg).0;
    CompletedDummy(links, cfg);
    if n > 0 {
      RepeatingStrands(links, cfg, n - 1);
      var before := Repeated(done, cfg, n - 1);
      FullDummyReaches(before, cfg);
      DummyRunAdds(before, cfg, DUMMY);
    }
  }

  /** A completed run leaves a link in the container that is up and has the MAC address and the address
      asked for, and none of its temporary names. */
  lemma CompletedDummy(links: Links, cfg: Config)
    requires WellFormed(links) && FullDummyRun(links, cfg).1
    ensures var done := FullDummyRun(links, cfg).0;
            && WellFormed(done) && ValidName(DummyOf(cfg)) && ValidName(cfg.container)
            && Key(cfg.ns, cfg.container) in done
            && done[Key(cfg.ns, cfg.container)] == Link(Other, true, None, None, cfg.mac, {cfg.address})
            && Key(cfg.ns, DummyOf(cfg)) !in done && OnHost(DummyOf(cfg)) !in done
  {
    var plan := DummySteps(cfg);
    assert |DummyOf(cfg)| > |cfg.container|;
    DummyRunAdds(links, cfg, DUMMY);
    assert plan[0..] == plan;
    DummyStep(links, cfg, 0);
    ExecNext(links, plan, 0, DUMMY);
    DummyStep(links, cfg, 1);
    ExecNext(DummyStage(links, cfg, 1), plan, 1, DUMMY - 1);
    assert Possible(DummyStage(links, cfg, 2), plan[2]);
  }
}
