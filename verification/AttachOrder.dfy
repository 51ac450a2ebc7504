/** Several containers attached one after the other: the order does not matter. */
module AttachOrder {
  import opened Text
  import opened Network
  import opened Pipework
  import opened AttachRuns
  import opened AttachProgress

  /** Attaching two containers commutes: if each run would complete on its own, then in both orders
      both complete, and they leave the same table. */
  lemma AttachingCommutes(links: Links, a: Config, b: Config)
    requires WellFormed(links) && Accepted(links, a) && Accepted(links, b) && Independent(a, b)
    requires FullRun(links, a).1 == Completed && FullRun(links, b).1 == Completed
    ensures FullRun(FullRun(links, a).0, b) == FullRun(FullRun(links, b).0, a)
    ensures FullRun(FullRun(links, a).0, b).1 == Completed
  {
    AbleCompletes(links, a);
    AbleCompletes(links, b);
    StaysAble(links, a, DONE, b);
    StaysAble(links, b, DONE, a);
    AbleCompletes(Progress(links, a, DONE), b);
    AbleCompletes(Progress(links, b, DONE), a);
    ProgressCommutes(links, a, DONE, b, DONE);
  }

  /** Full runs, one after the other, as long as they complete. */
  function AttachAll(links: Links, cfgs: seq<Config>): Option<Links>
    decreases |cfgs|
  {
    if cfgs == [] then Some(links)
    else
      var (after, outcome) := FullRun(links, cfgs[0]);
      if outcome == Completed then AttachAll(after, cfgs[1..]) else None
  }

  /** Each run would complete on its own, and no two share more than a bridge. */
  ghost predicate AllAble(links: Links, cfgs: seq<Config>)
  {
    && WellFormed(links)
    && (forall c :: c in cfgs ==> Able(links, c))
    && (forall i, j :: 0 <= i < j < |cfgs| ==> Independent(cfgs[i], cfgs[j]))
  }

  lemma AllAbleBeside(links: Links, cfgs: seq<Config>, p: Point)
    requires cfgs != [] && AllAble(links, cfgs)
    ensures AllAble(Progress(links, cfgs[0], p), cfgs[1..])
  {
    hide Progress, Able, Independent;
    var a, rest := cfgs[0], cfgs[1..];
    assert a in cfgs;
    ProgressWellFormed(links, a, p);
    forall c | c in rest ensures Able(Progress(links, a, p), c) {
      var i :| 0 <= i < |rest| && rest[i] == c;
      assert c == cfgs[i + 1] && Independent(cfgs[0], cfgs[i + 1]);
      StaysAble(links, a, p, c);
    }
  }

  lemma AllAbleNext(links: Links, cfgs: seq<Config>)
    requires cfgs != [] && AllAble(links, cfgs)
    ensures FullRun(links, cfgs[0]) == (Progress(links, cfgs[0], DONE), Completed)
    ensures AllAble(Progress(links, cfgs[0], DONE), cfgs[1..])
  {
    hide Progress, Able, Independent, FullRun;
    assert cfgs[0] in cfgs;
    AbleIsAccepted(links, cfgs[0]);
    AbleCompletes(links, cfgs[0]);
    AllAbleBeside(links, cfgs, DONE);
  }

  lemma AbleIsAccepted(links: Links, cfg: Config)
    requires Able(links, cfg)
    ensures Accepted(links, cfg)
  {}

  function Without<T>(s: seq<T>, n: nat): seq<T>
    requires n < |s|
  {
    s[..n] + s[n + 1..]
  }

  function ToFront<T>(s: seq<T>, n: nat): (r: seq<T>)
    requires n < |s|
    ensures r != [] && r[0] == s[n] && r[1..] == Without(s, n)
  {
    [s[n]] + Without(s, n)
  }

  /** Any container of the list may as well be attached first. */
  lemma {:induction false} MoveToFront(links: Links, cfgs: seq<Config>, n: nat)
    requires n < |cfgs| && AllAble(links, cfgs)
    ensures AllAble(links, ToFront(cfgs, n))
    ensures AttachAll(links, cfgs) == AttachAll(links, ToFront(cfgs, n))
    decreases n
  {
    hide *;
    Reordered(links, cfgs, n);
    ToFrontOf(cfgs, n);
    if n > 0 {
      AllAbleNext(links, cfgs);
      MoveToFront(FullRun(links, cfgs[0]).0, cfgs[1..], n - 1);
      AttachFirst(links, cfgs);
      FrontSwap(links, cfgs, n, Without(cfgs[1..], n - 1));
    }
  }

  lemma ToFrontOf<T>(s: seq<T>, n: nat)
    requires n < |s|
    ensures n == 0 ==> ToFront(s, n) == s
    ensures n > 0 ==>
              var rest := Without(s[1..], n - 1);
              ToFront(s, n) == [s[n], s[0]] + rest && ToFront(s[1..], n - 1) == [s[n]] + rest
  {}

  /** Taking one element to the front keeps every pair independent. */
  lemma Reordered(links: Links, cfgs: seq<Config>, n: nat)
    requires n < |cfgs| && AllAble(links, cfgs)
    ensures AllAble(links, ToFront(cfgs, n))
  {
    hide Able, WellFormed, Ends;
    var r := ToFront(cfgs, n);
    forall i, j | 0 <= i < j < |r| ensures Independent(r[i], r[j]) {
      var i' := if i == 0 then n else if i <= n then i - 1 else i;
      var j' := if j <= n then j - 1 else j;
      assert r[i] == cfgs[i'] && r[j] == cfgs[j'];
      assert i' < j' ==> Independent(cfgs[i'], cfgs[j']);
      assert j' < i' ==> Independent(cfgs[j'], cfgs[i']);
    }
  }

  lemma AttachFirst(links: Links, cfgs: seq<Config>)
    requires cfgs != [] && FullRun(links, cfgs[0]).1 == Completed
    ensures AttachAll(links, cfgs) == AttachAll(FullRun(links, cfgs[0]).0, cfgs[1..])
  {}

  lemma FrontSwap(links: Links, cfgs: seq<Config>, n: nat, tail: seq<Config>)
    requires 0 < n < |cfgs| && AllAble(links, cfgs)
    ensures AttachAll(FullRun(links, cfgs[0]).0, [cfgs[n]] + tail) == AttachAll(links, [cfgs[n], cfgs[0]] + tail)
  {
    hide Progress, FullRun, AttachAll, Able, Independent, WellFormed;
    var a, b := cfgs[0], cfgs[n];
    assert a in cfgs && b in cfgs && Independent(cfgs[0], cfgs[n]);
    Swappable(links, a, b);
    AttachFirst(links, [b, a] + tail);
    assert ([b, a] + tail)[1..] == [a] + tail;
    AttachFirst(FullRun(links, b).0, [a] + tail);
    assert ([a] + tail)[1..] == tail;
    AttachFirst(FullRun(links, a).0, [b] + tail);
    assert ([b] + tail)[1..] == tail;
  }

  lemma Swappable(links: Links, a: Config, b: Config)
    requires BothAble(links, a, b)
    ensures FullRun(links, a).1 == Completed && FullRun(links, b).1 == Completed
    ensures FullRun(FullRun(links, a).0, b) == FullRun(FullRun(links, b).0, a)
    ensures FullRun(FullRun(links, a).0, b).1 == Completed
  {
    AbleCompletes(links, a);
    AbleCompletes(links, b);
    hide Progress, FullRun;
    AttachingCommutes(links, a, b);
  }

  /** Any number of containers may be attached in any order: all runs complete, and the table at
      the end is the same. */
  lemma {:induction false} AnyOrder(links: Links, xs: seq<Config>, ys: seq<Config>)
    requires AllAble(links, xs) && multiset(xs) == multiset(ys)
    ensures AttachAll(links, xs).Some?
    ensures AttachAll(links, xs) == AttachAll(links, ys)
    decreases |ys|
  {
    hide AllAble, FullRun, Progress;
    if ys == [] {
      assert |xs| == |multiset(xs)| == 0;
    } else {
      assert ys[0] in multiset(xs);
      var n :| 0 <= n < |xs| && xs[n] == ys[0];
      SameRest(xs, n, ys);
      MoveToFront(links, xs, n);
      var front := ToFront(xs, n);
      AllAbleNext(links, front);
      AttachFirst(links, front);
      AttachFirst(links, ys);
      hide AttachAll;
      AnyOrder(Progress(links, ys[0], DONE), Without(xs, n), ys[1..]);
    }
  }

  lemma SameRest<T>(xs: seq<T>, n: nat, ys: seq<T>)
    requires n < |xs| && ys != [] && xs[n] == ys[0] && multiset(xs) == multiset(ys)
    ensures multiset(Without(xs, n)) == multiset(ys[1..])
  {
    assert xs == xs[..n] + [xs[n]] + xs[n + 1..];
    assert ys == [ys[0]] + ys[1..];
    assert multiset(Without(xs, n)) == multiset(xs) - multiset{ys[0]};
  }
}
