/** A run of pipework in progress, and how independent runs in progress leave each other alone: which
    of them is taken first makes no difference to the table. */
module AttachProgress {
  import opened Text
  import opened LinkNames
  import opened Network
  import opened Pipework
  import opened AttachStages
  import opened AttachRuns
  import opened AttachHistory

  /** The names a run uses for its pair, on the way and at the end. */
  function Ends(cfg: Config): set<Key>
  {
    { LocalKey(cfg), OnHost(GuestOf(cfg)), Key(cfg.ns, GuestOf(cfg)), Key(cfg.ns, cfg.container) }
  }

  /** The runs share at most the bridge. */
  ghost predicate Independent(a: Config, b: Config)
  {
    Ends(a) !! Ends(b) && BridgeKey(a) !in Ends(b) && BridgeKey(b) !in Ends(a)
  }

  /** For containers with namespaces of their own, different pairs and no generated name used as a
      container interface or bridge are enough. */
  lemma DifferentContainersIndependent(a: Config, b: Config)
    requires a.local == "" && b.local == "" && (a.container, a.pid) != (b.container, b.pid)
    requires a.ns != Host && b.ns != Host && a.ns != b.ns
    requires a.bridge != LocalOf(b) && a.bridge != GuestOf(b)
    requires b.bridge != LocalOf(a) && b.bridge != GuestOf(a)
    ensures Independent(a, b)
  {
    LocalNameInjective(a.container, a.pid, b.container, b.pid);
    GuestNameInjective(a.container, a.pid, b.container, b.pid);
    LocalNeverGuest(a.container, a.pid, b.container, b.pid);
    LocalNeverGuest(b.container, b.pid, a.container, a.pid);
  }

  /** A run that starts here completes. */
  ghost predicate Able(links: Links, cfg: Config)
  {
    && Accepted(links, cfg) && !LocalUp(links, cfg)
    && (BridgeKey(cfg) in links || ValidName(cfg.bridge))
    && Buildable(Base(links, cfg), cfg)
  }

  lemma AbleCompletes(links: Links, cfg: Config)
    requires WellFormed(links) && Accepted(links, cfg)
    ensures Able(links, cfg) <==> FullRun(links, cfg).1 == Completed
    ensures Able(links, cfg) ==> FullRun(links, cfg) == (Progress(links, cfg, DONE), Completed)
  {
    FullRunCompletes(links, cfg);
    assert Progress(links, cfg, DONE) == Finished(links, cfg);
    hide FullRun, Finished;
  }

  ghost predicate BothAble(links: Links, a: Config, b: Config)
  {
    WellFormed(links) && Able(links, a) && Able(links, b) && Independent(a, b)
  }

  // ---------- One run in progress ----------

  type Built = n: nat | n <= BUILD

  /** What a run does next. It tests for its bridge and for its host end before it acts on the answers;
      `Build(BUILD)` is the end. */
  datatype Point =
    | TestMode
    | TestBridge
    | CreateBridge
    | RaiseBridge
    | TestLocal
    | TestUp
    | ClearLocal
    | Build(n: Built)

  const DONE := Build(BUILD)

  /** The table of a run that is about to do this. */
  function Progress(links: Links, cfg: Config, p: Point): Links
  {
    match p
    case TestMode | TestBridge | CreateBridge => links
    case RaiseBridge => if BridgeKey(cfg) in links then links else HalfBridged(links, cfg)
    case TestLocal | TestUp | ClearLocal => Bridged(links, cfg)
    case Build(n) => Stage(Base(links, cfg), cfg, n)
  }

  predicate BridgeCreated(p: Point) { !(p.TestMode? || p.TestBridge? || p.CreateBridge?) }

  lemma ProgressWellFormed(links: Links, cfg: Config, p: Point)
    requires WellFormed(links) && Able(links, cfg)
    ensures WellFormed(Progress(links, cfg, p))
    ensures p.Build? ==> Apart(Base(links, cfg), cfg, p.n)
  {
    BridgedWellFormed(links, cfg);
    if p.Build? {
      BuiltWellFormed(links, cfg, p.n);
    } else if p.RaiseBridge? {
      assert forall k :: k in links ==> PeerSound(links, k) && MasterSound(links, k);
    }
  }

  lemma {:induction false} BuiltWellFormed(links: Links, cfg: Config, n: Built)
    requires WellFormed(Base(links, cfg)) && Able(links, cfg)
    ensures WellFormed(Progress(links, cfg, Build(n)))
    ensures Apart(Base(links, cfg), cfg, n)
    decreases n
  {
    if n > 0 {
      BuiltWellFormed(links, cfg, n - 1);
      var base := Base(links, cfg);
      BuildableStep(base, cfg, n - 1);
      StageStep(base, cfg, n - 1);
      CommandKeepsWellFormed(Stage(base, cfg, n - 1), BuildSteps(cfg)[n - 1]);
    }
  }

  /** The links a run deletes before it builds. */
  function Gone(links: Links, cfg: Config): set<Key>
  {
    if LocalKey(cfg) in links then Removed(links, LocalKey(cfg)) else {}
  }

  function GoneBy(links: Links, cfg: Config, p: Point): set<Key>
  {
    if p.Build? then Gone(links, cfg) else {}
  }

  function Lookup(links: Links, k: Key): Option<Link>
  {
    if k in links then Some(links[k]) else None
  }

  predicate HasPair(p: Point) { p.Build? && p.n >= 1 }

  /** A run's own two ends. */
  function OwnLink(cfg: Config, p: Point, k: Key): Option<Link>
  {
    if !HasPair(p) then None
    else if k == GuestKey(cfg, p.n) then Some(GuestEnd(cfg, p.n))
    else if k == LocalKey(cfg) then Some(LocalEnd(cfg, p.n))
    else None
  }

  /** What deletion leaves of the link, if any, under a key. */
  function Left(l: Option<Link>, gone: set<Key>, k: Key): Option<Link>
  {
    if l.Some? && k !in gone then Some(WithoutMaster(l.value, gone)) else None
  }

  function OtherLink(links: Links, gone: set<Key>, k: Key): Option<Link> { Left(Lookup(links, k), gone, k) }

  function NewBridge(links: Links, cfg: Config, p: Point, k: Key): Option<Link>
  {
    if BridgeCreated(p) && k == BridgeKey(cfg) && k !in links then Some(NEW_BRIDGE.(up := !p.RaiseBridge?))
    else None
  }

  function Either(x: Option<Link>, y: Option<Link>): Option<Link> { if x.Some? then x else y }

  lemma BridgeNotGone(links: Links, cfg: Config, k: Key)
    requires WellFormed(links) && LocalKey(cfg) != k && (k in links ==> links[k].kind == Bridge)
    ensures k !in Gone(links, cfg)
  {}

  lemma AbleNames(links: Links, cfg: Config)
    requires WellFormed(links) && Able(links, cfg)
    ensures LocalKey(cfg) != BridgeKey(cfg) && BridgeKey(cfg) !in Gone(links, cfg)
    ensures BridgeKey(cfg) !in Ends(cfg)
  {
    BaseKeepsBridge(links, cfg);
    BridgeNotGone(links, cfg, BridgeKey(cfg));
    assert BridgeKey(cfg) in Base(links, cfg);
  }

  /** The table of a run in progress, name by name. */
  lemma ProgressAt(links: Links, cfg: Config, p: Point, k: Key)
    requires LocalKey(cfg) != BridgeKey(cfg) && BridgeKey(cfg) !in Gone(links, cfg)
    ensures Lookup(Progress(links, cfg, p), k)
            == Either(OwnLink(cfg, p, k),
                      Either(OtherLink(links, GoneBy(links, cfg, p), k), NewBridge(links, cfg, p, k)))
  {
    var b := Bridged(links, cfg);
    assert LocalKey(cfg) in b <==> LocalKey(cfg) in links;
  }

  // ---------- Another run beside it ----------

  /** Away from a run's own names, its table differs only by what it deleted and the ports it freed. */
  lemma ProgressElsewhere(links: Links, a: Config, p: Point, k: Key)
    requires WellFormed(links) && Able(links, a)
    requires k !in Ends(a) && k != BridgeKey(a)
    ensures k in Progress(links, a, p) ==>
              k in links && Progress(links, a, p)[k] in [links[k], links[k].(master := None)]
    ensures k in links && links[k].kind == Bridge ==> k in Progress(links, a, p)
  {
    AbleNames(links, a);
    ProgressAt(links, a, p, k);
    if k in links && links[k].kind == Bridge { BridgeNotGone(links, a, k); }
  }

  lemma BridgeStays(links: Links, a: Config, p: Point)
    requires WellFormed(links) && Able(links, a)
    ensures BridgeKey(a) in links || BridgeCreated(p) ==>
              BridgeKey(a) in Progress(links, a, p) && Progress(links, a, p)[BridgeKey(a)].kind == Bridge
    ensures BridgeKey(a) in Progress(links, a, p) ==> BridgeKey(a) in links || BridgeCreated(p)
  {
    AbleNames(links, a);
    ProgressAt(links, a, p, BridgeKey(a));
  }

  lemma BridgeElsewhere(links: Links, a: Config, p: Point, b: Config)
    requires BothAble(links, a, b)
    ensures Accepted(Progress(links, a, p), b) && LocalKey(b) != BridgeKey(b)
    ensures BridgeKey(b) in Progress(links, a, p) || ValidName(b.bridge)
    ensures BridgeKey(b) in links ==> BridgeKey(b) in Progress(links, a, p)
  {
    AbleNames(links, b);
    if BridgeKey(a) == BridgeKey(b) {
      BridgeStays(links, a, p);
    } else {
      ProgressElsewhere(links, a, p, BridgeKey(b));
    }
  }

  /** A name the other run needs stays as free as it was. */
  lemma NameStaysFree(links: Links, a: Config, p: Point, b: Config, k: Key)
    requires BothAble(links, a, b) && k in Ends(b) && k !in Base(links, b)
    ensures k !in Base(Progress(links, a, p), b)
  {
    var after := Progress(links, a, p);
    AbleNames(links, a);
    AbleNames(links, b);
    ProgressWellFormed(links, a, p);
    BridgeElsewhere(links, a, p, b);
    ProgressElsewhere(links, a, p, k);
    ProgressElsewhere(links, a, p, LocalKey(b));
    hide Progress;
    if k in after && k != LocalKey(b) {
      assert PeerSound(links, k) && PeerSound(after, k);
      assert LocalKey(b) in Bridged(links, b) && k in Removed(Bridged(links, b), LocalKey(b));
      assert PeerSound(links, LocalKey(b));
    }
  }

  /** Beside a run in progress, an independent run is as able to complete as before. */
  lemma StaysAble(links: Links, a: Config, p: Point, b: Config)
    requires BothAble(links, a, b)
    ensures WellFormed(Progress(links, a, p)) && Able(Progress(links, a, p), b)
  {
    var after := Progress(links, a, p);
    AbleNames(links, b);
    ProgressWellFormed(links, a, p);
    BridgeElsewhere(links, a, p, b);
    ProgressElsewhere(links, a, p, LocalKey(b));
    BaseKeepsBridge(after, b);
    forall k | k in Ends(b) ensures k !in Base(after, b) {
      NameStaysFree(links, a, p, b, k);
    }
    hide Progress;
  }

  /** It deletes what it would have deleted, less what is gone already. */
  lemma GoneAgain(links: Links, a: Config, p: Point, b: Config)
    requires BothAble(links, a, b)
    ensures Gone(Progress(links, a, p), b)
            == if LocalKey(b) in GoneBy(links, a, p) then {} else Gone(links, b)
    ensures GoneBy(links, a, p) + Gone(Progress(links, a, p), b) == GoneBy(links, a, p) + Gone(links, b)
  {
    AbleNames(links, a);
    AbleNames(links, b);
    ProgressAt(links, a, p, LocalKey(b));
    hide Progress, Able;
    if LocalKey(a) in links { assert PeerSound(links, LocalKey(a)); }
    if LocalKey(b) in links { assert PeerSound(links, LocalKey(b)); }
  }

  /** It deletes nothing of the other run's pair, nor its bridge. */
  lemma PairNotGone(links: Links, a: Config, p: Point, b: Config)
    requires BothAble(links, a, b)
    ensures HasPair(p) ==> LocalKey(a) !in Gone(Progress(links, a, p), b)
                           && GuestKey(a, p.n) !in Gone(Progress(links, a, p), b)
    ensures BridgeKey(a) !in Gone(Progress(links, a, p), b)
  {
    var after := Progress(links, a, p);
    AbleNames(links, a);
    StaysAble(links, a, p, b);
    BridgeStays(links, a, p);
    if HasPair(p) {
      ProgressAt(links, a, p, LocalKey(a));
      ProgressAt(links, a, p, GuestKey(a, p.n));
      ProgressWellFormed(links, a, p);
    }
    hide Progress, Able;
    BridgeNotGone(after, b, BridgeKey(a));
    if LocalKey(b) in after {
      assert PeerSound(after, LocalKey(b));
      if HasPair(p) { assert PeerSound(after, LocalKey(a)); }
    }
  }

  lemma LeftTwice(l: Option<Link>, first: set<Key>, second: set<Key>, k: Key)
    ensures Left(Left(l, first, k), second, k) == Left(l, first + second, k)
  {}

  lemma LeftOfEither(x: Option<Link>, y: Option<Link>, gone: set<Key>, k: Key)
    ensures Left(Either(x, y), gone, k) == Either(Left(x, gone, k), Left(y, gone, k))
  {}

  /** The other run leaves the first run's own links and bridge as they are. */
  lemma OwnLeft(links: Links, a: Config, p: Point, b: Config, q: Point, k: Key)
    requires BothAble(links, a, b)
    ensures var gone := GoneBy(Progress(links, a, p), b, q);
            Left(OwnLink(a, p, k), gone, k) == OwnLink(a, p, k)
            && Left(NewBridge(links, a, p, k), gone, k) == NewBridge(links, a, p, k)
  {
    PairNotGone(links, a, p, b);
    hide Progress, Able, Gone;
  }

  /** Whichever run comes first creates the bridge. */
  lemma BridgeOnce(links: Links, a: Config, p: Point, b: Config, q: Point, k: Key)
    requires BothAble(links, a, b)
    ensures Either(NewBridge(links, a, p, k), NewBridge(Progress(links, a, p), b, q, k))
            == Either(NewBridge(links, a, p, k), NewBridge(links, b, q, k))
  {
    BridgeElsewhere(links, a, p, b);
    AbleNames(links, a);
    ProgressAt(links, a, p, k);
    hide Progress, Able, Gone;
  }

  lemma AfterAt(links: Links, a: Config, p: Point, b: Config, q: Point, k: Key)
    requires BothAble(links, a, b)
    ensures var both := GoneBy(links, a, p) + GoneBy(links, b, q);
            OtherLink(Progress(links, a, p), GoneBy(Progress(links, a, p), b, q), k)
            == Either(OwnLink(a, p, k), Either(OtherLink(links, both, k), NewBridge(links, a, p, k)))
  {
    hide Progress, Able, Gone, OwnLink, NewBridge, Left, Either, Independent, WellFormed, Accepted;
    var after := Progress(links, a, p);
    var first, gone := GoneBy(links, a, p), GoneBy(after, b, q);
    AbleNames(links, a);
    ProgressAt(links, a, p, k);
    OwnLeft(links, a, p, b, q, k);
    GoneAgain(links, a, p, b);
    LeftTwice(Lookup(links, k), first, gone, k);
    LeftOfEither(OwnLink(a, p, k), Either(OtherLink(links, first, k), NewBridge(links, a, p, k)), gone, k);
    LeftOfEither(OtherLink(links, first, k), NewBridge(links, a, p, k), gone, k);
    assert first + gone == first + GoneBy(links, b, q);
  }

  /** The table of both runs in progress, name by name; it treats them alike. */
  lemma BothAt(links: Links, a: Config, p: Point, b: Config, q: Point, k: Key)
    requires BothAble(links, a, b)
    ensures var gone := GoneBy(links, a, p) + GoneBy(links, b, q);
            Lookup(Progress(Progress(links, a, p), b, q), k)
            == Either(Either(OwnLink(a, p, k), OwnLink(b, q, k)),
                      Either(OtherLink(links, gone, k),
                             Either(NewBridge(links, a, p, k), NewBridge(links, b, q, k))))
  {
    hide Progress, Able, Gone, OwnLink, NewBridge, OtherLink, Independent, WellFormed, Accepted, GoneBy;
    var after := Progress(links, a, p);
    StaysAble(links, a, p, b);
    AbleNames(after, b);
    ProgressAt(after, b, q, k);
    AfterAt(links, a, p, b, q, k);
    BridgeOnce(links, a, p, b, q, k);
    OwnApart(a, p, b, q, k);
  }

  /** The runs do not both have to create the same bridge. */
  predicate BridgesApart(links: Links, a: Config, b: Config)
  {
    BridgeKey(a) != BridgeKey(b) || BridgeKey(a) in links
  }

  /** Two independent runs, each interrupted anywhere, leave the same table in either order, unless one
      of them was about to raise a bridge the other one shares. */
  lemma ProgressCommutes(links: Links, a: Config, p: Point, b: Config, q: Point)
    requires BothAble(links, a, b)
    requires p.RaiseBridge? || q.RaiseBridge? ==> BridgesApart(links, a, b)
    ensures Progress(Progress(links, a, p), b, q) == Progress(Progress(links, b, q), a, p)
  {
    Mirrored(links, a, b);
    hide Progress, Able, Gone, Independent, OwnLink, NewBridge, OtherLink, WellFormed, Accepted, GoneBy;
    var ab, ba := Progress(Progress(links, a, p), b, q), Progress(Progress(links, b, q), a, p);
    forall k ensures Lookup(ab, k) == Lookup(ba, k) {
      BothAt(links, a, p, b, q, k);
      BothAt(links, b, q, a, p, k);
      OwnApart(a, p, b, q, k);
      assert GoneBy(links, a, p) + GoneBy(links, b, q) == GoneBy(links, b, q) + GoneBy(links, a, p);
    }
    SameLookups(ab, ba);
  }

  lemma OwnApart(a: Config, p: Point, b: Config, q: Point, k: Key)
    requires Independent(a, b)
    ensures OwnLink(a, p, k).None? || OwnLink(b, q, k).None?
  {}

  lemma SameLookups(x: Links, y: Links)
    requires forall k :: Lookup(x, k) == Lookup(y, k)
    ensures x == y
  {
    forall k ensures (k in x <==> k in y) && (k in x ==> x[k] == y[k]) {
      assert Lookup(x, k) == Lookup(y, k);
    }
  }

  lemma Mirrored(links: Links, a: Config, b: Config)
    requires BothAble(links, a, b)
    ensures BothAble(links, b, a)
  {}
}
