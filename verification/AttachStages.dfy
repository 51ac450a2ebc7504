/** The exact link table after every statement of pipework's pair construction. */
module AttachStages {
  import opened Text
  import opened Network
  import opened Pipework

  const BUILD := 8

  /** Where the guest end is after `i` build statements. */
  function GuestKey(cfg: Config, i: nat): Key
  {
    if i < 4 then OnHost(GuestOf(cfg))
    else if i < 5 then Key(cfg.ns, GuestOf(cfg))
    else Key(cfg.ns, cfg.container)
  }

  function LocalEnd(cfg: Config, i: nat): Link
  {
    Link(Veth, i >= 3, Some(GuestKey(cfg, i)), if i >= 2 then Some(BridgeKey(cfg)) else None, "", {})
  }

  function GuestEnd(cfg: Config, i: nat): Link
  {
    Link(Veth, i >= 8, Some(LocalKey(cfg)), None, if i >= 6 then cfg.mac else "",
         if i >= 7 then {cfg.address} else {})
  }

  /** `base` with the two ends as they are after `i` build statements. */
  function Stage(base: Links, cfg: Config, i: nat): Links
  {
    if i == 0 then base
    else base[LocalKey(cfg) := LocalEnd(cfg, i)][GuestKey(cfg, i) := GuestEnd(cfg, i)]
  }

  /** The two ends stand under keys that were free in `base`. */
  ghost predicate Apart(base: Links, cfg: Config, i: nat)
  {
    && (i >= 1 ==>
         LocalKey(cfg) !in base && GuestKey(cfg, i) !in base && GuestKey(cfg, i) != LocalKey(cfg))
    && (i >= 2 ==> BridgeKey(cfg) in base)
  }

  lemma StageStep(base: Links, cfg: Config, i: nat)
    requires WellFormed(base) && i < BUILD && Apart(base, cfg, i)
    requires Possible(Stage(base, cfg, i), BuildSteps(cfg)[i])
    ensures Effect(Stage(base, cfg, i), BuildSteps(cfg)[i]) == Stage(base, cfg, i + 1)
    ensures Apart(base, cfg, i + 1)
  {
    assert forall k :: k in base ==> PeerSound(base, k) && MasterSound(base, k);
    var s, c := Stage(base, cfg, i), BuildSteps(cfg)[i];
    if i == 3 {
      if cfg.ns != Host { StageRekeyed(base, cfg, i); }
    } else if i == 4 {
      if cfg.container != GuestOf(cfg) { StageRekeyed(base, cfg, i); }
    } else {
      var none: set<string> := {};
      assert none + {cfg.address} == {cfg.address};
    }
  }

  /** Moving and renaming the guest end changes its key and its host end's peer, nothing else. */
  lemma StageRekeyed(base: Links, cfg: Config, i: nat)
    requires WellFormed(base) && 3 <= i <= 4 && Apart(base, cfg, i)
    requires GuestKey(cfg, i + 1) !in Stage(base, cfg, i)
    ensures Rekeyed(Stage(base, cfg, i), GuestKey(cfg, i), GuestKey(cfg, i + 1), GuestEnd(cfg, i))
            == Stage(base, cfg, i + 1)
  {
    assert forall k :: k in base ==> PeerSound(base, k) && MasterSound(base, k);
  }

  lemma {:induction false} BuildFrom(base: Links, cfg: Config, i: nat, limit: nat)
    requires WellFormed(base) && i <= BUILD && Apart(base, cfg, i)
    ensures var n := i + Executed(Stage(base, cfg, i), BuildSteps(cfg)[i..], limit);
            n <= BUILD && Apart(base, cfg, n)
            && Exec(Stage(base, cfg, i), BuildSteps(cfg)[i..], limit) == (Stage(base, cfg, n), n == BUILD)
    decreases BUILD - i
  {
    hide Effect, Possible, Stage;
    var s, plan := Stage(base, cfg, i), BuildSteps(cfg);
    if i < BUILD && limit > 0 && Possible(s, plan[i]) {
      StageStep(base, cfg, i);
      ExecNext(s, plan, i, limit);
      BuildFrom(base, cfg, i + 1, limit - 1);
    }
  }

  /** Interrupted anywhere, the construction leaves the stage it had reached. */
  lemma BuildReaches(base: Links, cfg: Config, limit: nat)
    requires WellFormed(base)
    ensures var n := Executed(base, BuildSteps(cfg), limit);
            Apart(base, cfg, n) && Exec(base, BuildSteps(cfg), limit) == (Stage(base, cfg, n), n == BUILD)
  {
    BuildFrom(base, cfg, 0, limit);
    assert BuildSteps(cfg)[0..] == BuildSteps(cfg);
  }

  /** What must hold of the table for the whole construction to be accepted by the kernel. */
  predicate Buildable(base: Links, cfg: Config)
  {
    && ValidName(LocalOf(cfg)) && ValidName(GuestOf(cfg)) && ValidName(cfg.container)
    && LocalOf(cfg) != GuestOf(cfg)
    && LocalKey(cfg) !in base && OnHost(GuestOf(cfg)) !in base
    && BridgeKey(cfg) in base && base[BridgeKey(cfg)].kind == Bridge
    && Key(cfg.ns, GuestOf(cfg)) !in base
    && Key(cfg.ns, cfg.container) !in base && Key(cfg.ns, cfg.container) != LocalKey(cfg)
  }

  lemma BuildCompletes(base: Links, cfg: Config)
    requires WellFormed(base)
    ensures ExecAll(base, BuildSteps(cfg)).1 <==> Buildable(base, cfg)
  {
    var n := Executed(base, BuildSteps(cfg), BUILD);
    BuildReaches(base, cfg, BUILD);
    if Buildable(base, cfg) {
      BuildableFrom(base, cfg, 0);
      assert BuildSteps(cfg)[0..] == BuildSteps(cfg);
    }
    if n == BUILD {
      CompletedWasBuildable(base, cfg);
    }
  }

  lemma BuildableStep(base: Links, cfg: Config, i: nat)
    requires WellFormed(base) && Buildable(base, cfg) && i < BUILD && Apart(base, cfg, i)
    ensures Possible(Stage(base, cfg, i), BuildSteps(cfg)[i])
  {}

  lemma {:induction false} BuildableFrom(base: Links, cfg: Config, i: nat)
    requires WellFormed(base) && Buildable(base, cfg) && i <= BUILD && Apart(base, cfg, i)
    ensures Executed(Stage(base, cfg, i), BuildSteps(cfg)[i..], BUILD - i) == BUILD - i
    decreases BUILD - i
  {
    hide Effect;
    if i < BUILD {
      BuildableStep(base, cfg, i);
      StageStep(base, cfg, i);
      ExecNext(Stage(base, cfg, i), BuildSteps(cfg), i, BUILD - i);
      BuildableFrom(base, cfg, i + 1);
    }
  }

  lemma CompletedWasBuildable(base: Links, cfg: Config)
    requires WellFormed(base) && Executed(base, BuildSteps(cfg), BUILD) == BUILD
    ensures Buildable(base, cfg)
  {
    forall i: nat | i < BUILD
      ensures Apart(base, cfg, i) && Possible(Stage(base, cfg, i), BuildSteps(cfg)[i])
    {
      AcceptedAt(base, cfg, 0, i);
      assert BuildSteps(cfg)[0..] == BuildSteps(cfg);
    }
    assert Possible(Stage(base, cfg, 0), BuildSteps(cfg)[0]);
    assert Possible(Stage(base, cfg, 1), BuildSteps(cfg)[1]);
    assert Possible(Stage(base, cfg, 3), BuildSteps(cfg)[3]);
    assert Possible(Stage(base, cfg, 4), BuildSteps(cfg)[4]);
    NamesDiffer(cfg);
  }

  lemma {:induction false} AcceptedAt(base: Links, cfg: Config, i: nat, j: nat)
    requires WellFormed(base) && i <= j < BUILD && Apart(base, cfg, i)
    requires Executed(Stage(base, cfg, i), BuildSteps(cfg)[i..], BUILD - i) == BUILD - i
    ensures Apart(base, cfg, j) && Possible(Stage(base, cfg, j), BuildSteps(cfg)[j])
    decreases j - i
  {
    hide Effect, Possible, Stage;
    if i < j {
      StageStep(base, cfg, i);
      ExecNext(Stage(base, cfg, i), BuildSteps(cfg), i, BUILD - i);
      AcceptedAt(base, cfg, i + 1, j);
    }
  }

  lemma NamesDiffer(cfg: Config)
    ensures cfg.container != GuestOf(cfg)
  {
    assert |GuestOf(cfg)| > |cfg.container|;
  }
}
