/** hadoop-daemon.sh: rotation of a daemon's `.out` file through numbered slots, the start branch
    that decides whether it happens, and what any history of starts leaves. */
module LogRotation {
  import opened Text

  /** `out` is the content of the `.out` file, `slots[i]` that of `.out.i`. */
  datatype Logs<T> = Logs(out: Option<T>, slots: map<int, T>)

  function Get<T>(slots: map<int, T>, i: int): Option<T>
  {
    if i in slots then Some(slots[i]) else None
  }

  /** The log in slot `i` after one rotation: that of the slot below, `.out` for the first slot. The
      top slot `n` keeps its old log when the slot below it is empty. */
  function Slot<T>(before: Logs<T>, n: int, i: int): Option<T>
  {
    if i == 1 then before.out
    else if 1 < i < n || (1 < i == n && i - 1 in before.slots) then Get(before.slots, i - 1)
    else Get(before.slots, i)
  }

  /** One rotation as an exact shift. A limit below one just renames `.out` to that slot. */
  function Rotated<T>(before: Logs<T>, n: int): Logs<T>
  {
    if before.out == None then before
    else if n < 1 then Logs(None, before.slots[n := before.out.value])
    else
      var candidates := before.slots.Keys + {1} + set j | j in before.slots :: j + 1;
      Logs(None, map i | i in candidates && Slot(before, n, i).Some? :: Slot(before, n, i).value)
  }

  lemma RotatedSlot<T>(before: Logs<T>, n: int, i: int)
    requires before.out.Some? && n >= 1
    ensures Get(Rotated(before, n).slots, i) == Slot(before, n, i)
  {}

  /** Where a rotation takes the log of slot `i`. */
  function Target<T>(before: Logs<T>, n: int, i: int): int
  {
    if 1 <= i < n then i + 1 else i
  }

  /** The only old log a rotation overwrites is the top one, and only when one moves up to it. */
  ghost predicate Overwritten<T>(before: Logs<T>, n: int, i: int)
  {
    i == n && i in before.slots && (n == 1 || n - 1 in before.slots)
  }

  /** Nothing else is lost, duplicated or invented: apart from the overwritten one the old logs go
      to distinct slots, `.out` goes to the first, and these are all the logs there are. */
  lemma RotationConserves<T>(before: Logs<T>, n: int)
    requires before.out.Some? && n >= 1
    ensures var after := Rotated(before, n);
            && after.out == None && Get(after.slots, 1) == before.out
            && (forall i :: i in before.slots && !Overwritten(before, n, i) ==>
                  Target(before, n, i) != 1
                  && Get(after.slots, Target(before, n, i)) == Some(before.slots[i]))
            && (forall i, j :: (i in before.slots && j in before.slots && i != j
                                && !Overwritten(before, n, i) && !Overwritten(before, n, j)) ==>
                  Target(before, n, i) != Target(before, n, j))
            && (forall k :: k in after.slots && k != 1 ==>
                  exists i :: i in before.slots && !Overwritten(before, n, i) && Target(before, n, i) == k)
  {
    hide Rotated, Overwritten, Target, Slot;
    RotatedTop(before, n);
    forall i, j | i in before.slots && j in before.slots && i != j
                  && !Overwritten(before, n, i) && !Overwritten(before, n, j)
      ensures Target(before, n, i) != Target(before, n, j)
    {
      Apart(before, n, i, j);
    }
    forall i | i in before.slots && !Overwritten(before, n, i)
      ensures Target(before, n, i) != 1
      ensures Get(Rotated(before, n).slots, Target(before, n, i)) == Some(before.slots[i])
    {
      Moved(before, n, i);
    }
    forall k | k in Rotated(before, n).slots && k != 1
      ensures exists i :: i in before.slots && !Overwritten(before, n, i) && Target(before, n, i) == k
    {
      CameFrom(before, n, k);
    }
  }

  lemma RotatedTop<T>(before: Logs<T>, n: int)
    requires before.out.Some? && n >= 1
    ensures Rotated(before, n).out == None && Get(Rotated(before, n).slots, 1) == before.out
  {}

  lemma Apart<T>(before: Logs<T>, n: int, i: int, j: int)
    requires n >= 1 && i in before.slots && j in before.slots && i != j
    requires !Overwritten(before, n, i) && !Overwritten(before, n, j)
    ensures Target(before, n, i) != Target(before, n, j)
  {}

  lemma Moved<T>(before: Logs<T>, n: int, i: int)
    requires before.out.Some? && n >= 1 && i in before.slots && !Overwritten(before, n, i)
    ensures Target(before, n, i) != 1
    ensures Get(Rotated(before, n).slots, Target(before, n, i)) == Some(before.slots[i])
  {
    hide Rotated;
    RotatedSlot(before, n, Target(before, n, i));
  }

  lemma CameFrom<T>(before: Logs<T>, n: int, k: int)
    requires before.out.Some? && n >= 1 && k in Rotated(before, n).slots && k != 1
    ensures exists i :: i in before.slots && !Overwritten(before, n, i) && Target(before, n, i) == k
  {
    hide Rotated;
    RotatedSlot(before, n, k);
    var i := if 1 < k < n || (1 < k == n && k - 1 in before.slots) then k - 1 else k;
    assert i in before.slots && !Overwritten(before, n, i) && Target(before, n, i) == k;
  }

  // ---------- Starts ----------

  datatype State<T> = State(logs: Logs<T>, pidFile: Option<nat>)

  /** `alive` is the set of processes that answer the start's or stop's signal. */
  datatype Event<T> = Write(log: T) | WritePid(pid: nat) | Start(alive: set<nat>) | Stop(alive: set<nat>)

  predicate Refused<T>(s: State<T>, alive: set<nat>)
  {
    s.pidFile.Some? && s.pidFile.value in alive
  }

  function Next<T>(s: State<T>, e: Event<T>, n: int): State<T>
  {
    match e
    case Write(log) => s.(logs := s.logs.(out := Some(log)))
    case WritePid(pid) => s.(pidFile := Some(pid))
    case Start(alive) => if Refused(s, alive) then s else s.(logs := Rotated(s.logs, n))
    case Stop(_) => s
  }

  const DEFAULT_SLOTS := 5

  class Daemon<T> {
    var logs: Logs<T>
    var pidFile: Option<nat>

    constructor (logs: Logs<T>, pidFile: Option<nat>)
      ensures this.logs == logs && this.pidFile == pidFile
    {
      this.logs, this.pidFile := logs, pidFile;
    }

    /** `hadoop_rotate_log` with its descending loop. */
    method Rotate(limit: int)
      modifies this`logs
      ensures logs == Rotated(old(logs), limit)
    {
      if logs.out.None? { return; }
      ghost var before := logs;
      var num, slots := limit, logs.slots;
      while num > 1
        invariant limit >= 1 ==> 1 <= num <= limit
        invariant limit < 1 ==> num == limit && slots == before.slots
        invariant forall i: int :: limit >= 1 ==>
                    Get(slots, i) == if i > num then Slot(before, limit, i)
                                     else if i == num < limit then None
                                     else Get(before.slots, i)
      {
        var prev := num - 1;
        assert Get(slots, prev) == Get(before.slots, prev);
        if prev in slots {
          slots := (slots - {prev})[num := slots[prev]];
        }
        num := prev;
      }
      logs := Logs(None, slots[num := logs.out.value]);
      if limit >= 1 {
        forall i: int ensures Get(logs.slots, i) == Get(Rotated(before, limit).slots, i) {
          RotatedSlot(before, limit, i);
        }
        SameSlots(logs.slots, Rotated(before, limit).slots);
      }
    }

    /** The start branch: a live process under the recorded id refuses it. */
    method Launch(alive: set<nat>) returns (accepted: bool)
      modifies this`logs
      ensures accepted <==> pidFile == None || pidFile.value !in alive
      ensures !accepted ==> logs == old(logs)
      ensures accepted ==> logs == Rotated(old(logs), 5)
      ensures State(logs, pidFile) == Next(State(old(logs), pidFile), Start(alive), DEFAULT_SLOTS)
    {
      if pidFile.Some? {
        if pidFile.value in alive { return false; }
      }
      Rotate(DEFAULT_SLOTS);
      return true;
    }
  }

  /** A start changes something exactly when there is a log to rotate and no live process is recorded. */
  lemma StartRefusedExactlyWhen<T>(s: State<T>, alive: set<nat>, n: int)
    ensures Next(s, Start(alive), n) == s <==>
            s.logs.out == None || exists pid :: s.pidFile == Some(pid) && pid in alive
    ensures Next(s, Stop(alive), n) == s
  {}

  /** With gaps, only neighbours move up; without, the top log is lost. */
  lemma RotationExamples()
    ensures Rotated(Logs(Some("new"), map[1 := "a", 3 := "c", 5 := "e"]), 5)
            == Logs(None, map[1 := "new", 2 := "a", 4 := "c", 5 := "e"])
    ensures Rotated(Logs(Some("new"), map[1 := "a", 2 := "b", 3 := "c", 4 := "d", 5 := "e"]), 5)
            == Logs(None, map[1 := "new", 2 := "a", 3 := "b", 4 := "c", 5 := "d"])
    ensures Rotated(Logs(Some("new"), map[1 := "a"]), 0) == Logs(None, map[1 := "a", 0 := "new"])
  {
    var gaps := Logs(Some("new"), map[1 := "a", 3 := "c", 5 := "e"]);
    var full := Logs(Some("new"), map[1 := "a", 2 := "b", 3 := "c", 4 := "d", 5 := "e"]);
    forall i: int
      ensures Get(Rotated(gaps, 5).slots, i) == Get(map[1 := "new", 2 := "a", 4 := "c", 5 := "e"], i)
      ensures Get(Rotated(full, 5).slots, i) == Get(map[1 := "new", 2 := "a", 3 := "b", 4 := "c", 5 := "d"], i)
    {
      RotatedSlot(gaps, 5, i);
      RotatedSlot(full, 5, i);
    }
    SameSlots(Rotated(gaps, 5).slots, map[1 := "new", 2 := "a", 4 := "c", 5 := "e"]);
    SameSlots(Rotated(full, 5).slots, map[1 := "new", 2 := "a", 3 := "b", 4 := "c", 5 := "d"]);
  }

  lemma SameSlots<T>(a: map<int, T>, b: map<int, T>)
    requires forall i: int :: Get(a, i) == Get(b, i)
    ensures a == b
  {
    forall i: int ensures i in a <==> i in b { assert Get(a, i) == Get(b, i); }
    forall i | i in a ensures a[i] == b[i] { assert Get(a, i) == Get(b, i); }
  }

  /** The state after a history, the last event being the latest. */
  function Play<T>(s: State<T>, events: seq<Event<T>>, n: int): State<T>
  {
    if events == [] then s
    else Next(Play(s, events[..|events| - 1], n), events[|events| - 1], n)
  }

  /** The logs that accepted starts found in `.out`, oldest first. */
  function Archive<T>(s: State<T>, events: seq<Event<T>>, n: int): seq<T>
  {
    if events == [] then []
    else
      var sofar, e := events[..|events| - 1], events[|events| - 1];
      var now := Play(s, sofar, n);
      Archive(s, sofar, n) +
      if e.Start? && !Refused(now, e.alive) && now.logs.out.Some? then [now.logs.out.value] else []
  }

  function Min(a: int, b: int): int { if a <= b then a else b }

  /** The slots hold the latest logs of an archive, newest first. */
  ghost predicate HoldLatest<T>(slots: map<int, T>, archive: seq<T>, n: int)
  {
    forall i: int :: 1 <= i <= Min(|archive|, n) ==> Get(slots, i) == Some(archive[|archive| - i])
  }

  lemma RotationKeepsLatest<T>(before: Logs<T>, archive: seq<T>, n: int)
    requires n >= 1 && before.out.Some? && HoldLatest(before.slots, archive, n)
    ensures HoldLatest(Rotated(before, n).slots, archive + [before.out.value], n)
  {
    var longer := archive + [before.out.value];
    forall i: int | 1 <= i <= Min(|longer|, n)
      ensures Get(Rotated(before, n).slots, i) == Some(longer[|longer| - i])
    {
      RotatedSlot(before, n, i);
      if i > 1 { assert Get(before.slots, i - 1) == Some(archive[|archive| - (i - 1)]); }
    }
  }

  /** Whatever the slots held at first, gaps included: after any history of writes, accepted and
      refused starts and stops, the slots hold the latest rotated logs, newest first. */
  lemma {:induction false} SlotsHoldLatest<T>(s: State<T>, events: seq<Event<T>>, n: int)
    requires n >= 1
    ensures var archive := Archive(s, events, n);
            forall i: int :: 1 <= i <= Min(|archive|, n) ==>
              Get(Play(s, events, n).logs.slots, i) == Some(archive[|archive| - i])
    decreases |events|
  {
    hide Rotated;
    if events != [] {
      var sofar, e := events[..|events| - 1], events[|events| - 1];
      SlotsHoldLatest(s, sofar, n);
      var now := Play(s, sofar, n);
      if e.Start? && !Refused(now, e.alive) && now.logs.out.Some? {
        RotationKeepsLatest(now.logs, Archive(s, sofar, n), n);
        assert HoldLatest(Play(s, events, n).logs.slots, Archive(s, events, n), n);
      } else if e.Start? && !Refused(now, e.alive) {
        NothingToRotate(now.logs, n);
      }
    }
  }

  lemma NothingToRotate<T>(before: Logs<T>, n: int)
    requires before.out == None
    ensures Rotated(before, n) == before
  {}

  /** Starting from no logs, these are the only ones: slots 1 to min(k, n) hold exactly the last
      min(k, n) of the k rotated logs. */
  lemma {:induction false} SlotsHoldExactlyLatest<T>(events: seq<Event<T>>, pidFile: Option<nat>, n: int)
    requires n >= 1
    ensures var s := State(Logs(None, map[]), pidFile);
            var archive := Archive(s, events, n);
            forall i: int :: Get(Play(s, events, n).logs.slots, i)
              == if 1 <= i <= Min(|archive|, n) then Some(archive[|archive| - i]) else None
    decreases |events|
  {
    var s := State(Logs<T>.Logs(None, map[]), pidFile);
    SlotsHoldLatest(s, events, n);
    var archive := Archive(s, events, n);
    if events != [] {
      var sofar, e := events[..|events| - 1], events[|events| - 1];
      SlotsHoldExactlyLatest(sofar, pidFile, n);
      var now := Play(s, sofar, n);
      forall i: int | !(1 <= i <= Min(|archive|, n))
        ensures Get(Play(s, events, n).logs.slots, i) == None
      {
        assert Get(now.logs.slots, i) == None;
        if e.Start? && !Refused(now, e.alive) && now.logs.out.Some? {
          RotatedSlot(now.logs, n, i);
          assert 1 < i <= n ==> Get(now.logs.slots, i - 1) == None;
        }
      }
    }
  }
}
