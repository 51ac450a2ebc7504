/** The interface names pipework generates from a container interface and a process id, and
    when two of them can be equal. */
module LinkNames {
  import opened Text

  /** Host end of the veth pair. */
  function LocalName(container: string, pid: nat): string { "v" + container + "pl" + Decimal(pid) }

  /** Guest end of the veth pair, before it is moved and renamed. */
  function GuestName(container: string, pid: nat): string { "v" + container + "pg" + Decimal(pid) }

  /** macvlan subinterface of a physical interface. */
  function PhysName(container: string, pid: nat): string { "ph" + Decimal(pid) + container }

  function DummyName(container: string, pid: nat): string { "du" + Decimal(pid) + container }

  /** A numeral after a non-digit can be read back: nothing before it is taken for a digit. */
  lemma TrailingNumeral(a: string, x: char, m: nat, b: string, y: char, n: nat)
    requires !IsDigit(x) && !IsDigit(y)
    requires a + [x] + Decimal(m) == b + [y] + Decimal(n)
    ensures a == b && x == y && m == n
  {
    var s, t := a + [x] + Decimal(m), b + [y] + Decimal(n);
    assert s[|a|] == x && t[|b|] == y;
    assert forall i :: |a| < i < |s| ==> s[i] == Decimal(m)[i - |a| - 1];
    assert forall i :: |b| < i < |t| ==> t[i] == Decimal(n)[i - |b| - 1];
    assert |a| == |b|;
    assert a == s[..|a|] && b == t[..|b|];
    assert Decimal(m) == s[|a| + 1..] && Decimal(n) == t[|b| + 1..];
    DecimalInjective(m, n);
  }

  lemma LocalNameInjective(c: string, p: nat, c': string, p': nat)
    ensures LocalName(c, p) == LocalName(c', p') <==> c == c' && p == p'
  {
    if LocalName(c, p) == LocalName(c', p') {
      var a, b := "v" + c + "p", "v" + c' + "p";
      assert LocalName(c, p) == a + ['l'] + Decimal(p);
      assert LocalName(c', p') == b + ['l'] + Decimal(p');
      TrailingNumeral(a, 'l', p, b, 'l', p');
      assert a[1..|a| - 1] == c && b[1..|b| - 1] == c';
    }
  }

  lemma GuestNameInjective(c: string, p: nat, c': string, p': nat)
    ensures GuestName(c, p) == GuestName(c', p') <==> c == c' && p == p'
  {
    if GuestName(c, p) == GuestName(c', p') {
      var a, b := "v" + c + "p", "v" + c' + "p";
      assert GuestName(c, p) == a + ['g'] + Decimal(p);
      assert GuestName(c', p') == b + ['g'] + Decimal(p');
      TrailingNumeral(a, 'g', p, b, 'g', p');
      assert a[1..|a| - 1] == c && b[1..|b| - 1] == c';
    }
  }

  /** No host end is ever named like a guest end, whatever the two containers. */
  lemma LocalNeverGuest(c: string, p: nat, c': string, p': nat)
    ensures LocalName(c, p) != GuestName(c', p')
  {
    if LocalName(c, p) == GuestName(c', p') {
      var a, b := "v" + c + "p", "v" + c' + "p";
      assert LocalName(c, p) == a + ['l'] + Decimal(p);
      assert GuestName(c', p') == b + ['g'] + Decimal(p');
      TrailingNumeral(a, 'l', p, b, 'g', p');
    }
  }

  /** Some non-empty run of digits belongs to the process id in one reading of a
      pid-before-interface name and to the interface in the other. */
  ghost predicate DigitsShift(c: string, p: nat, c': string, p': nat)
  {
    exists d: string :: d != [] && AllDigits(d) && Decimal(p') == Decimal(p) + d && c == d + c'
  }

  lemma PidFirst(c: string, p: nat, c': string, p': nat)
    ensures Decimal(p) + c == Decimal(p') + c' <==>
            (c == c' && p == p') || DigitsShift(c, p, c', p') || DigitsShift(c', p', c, p)
  {
    if Decimal(p) + c == Decimal(p') + c' {
      var s := Decimal(p) + c;
      var t := Decimal(p') + c';
      if |Decimal(p)| == |Decimal(p')| {
        assert Decimal(p) == s[..|Decimal(p)|] && Decimal(p') == t[..|Decimal(p)|];
        assert c == s[|Decimal(p)|..] && c' == t[|Decimal(p)|..];
        DecimalInjective(p, p');
      } else if |Decimal(p)| < |Decimal(p')| {
        ShiftWitness(c, p, c', p');
      } else {
        ShiftWitness(c', p', c, p);
      }
    }
    if DigitsShift(c, p, c', p') { ShiftCollides(c, p, c', p'); }
    if DigitsShift(c', p', c, p) { ShiftCollides(c', p', c, p); }
  }

  lemma ShiftCollides(c: string, p: nat, c': string, p': nat)
    requires DigitsShift(c, p, c', p')
    ensures Decimal(p) + c == Decimal(p') + c'
  {}

  lemma ShiftWitness(c: string, p: nat, c': string, p': nat)
    requires Decimal(p) + c == Decimal(p') + c' && |Decimal(p)| < |Decimal(p')|
    ensures DigitsShift(c, p, c', p')
  {
    var k, k' := |Decimal(p)|, |Decimal(p')|;
    var s, t := Decimal(p) + c, Decimal(p') + c';
    var d := Decimal(p')[k..];
    assert Decimal(p)[..] == s[..k] == t[..k] == Decimal(p')[..k];
    assert Decimal(p') == Decimal(p) + d;
    assert c == s[k..] == t[k..] == d + c';
  }

  /** Two macvlan (or two dummy) names are equal exactly when the pairs are the same or digits
      of one interface name extend the other process id; the two families never meet. */
  lemma PhysDummyNames(c: string, p: nat, c': string, p': nat)
    ensures PhysName(c, p) == PhysName(c', p') <==> Decimal(p) + c == Decimal(p') + c'
    ensures PhysName(c, p) == PhysName(c', p') <==>
            (c == c' && p == p') || DigitsShift(c, p, c', p') || DigitsShift(c', p', c, p)
    ensures DummyName(c, p) == DummyName(c', p') <==> PhysName(c, p) == PhysName(c', p')
    ensures PhysName(c, p) != DummyName(c', p')
  {
    PidFirst(c, p, c', p');
    var s, s' := Decimal(p) + c, Decimal(p') + c';
    SamePrefix("ph", Decimal(p), c, Decimal(p'), c');
    SamePrefix("du", Decimal(p), c, Decimal(p'), c');
    assert PhysName(c, p)[0] == 'p';
    assert DummyName(c', p')[0] == 'd';
  }

  lemma SamePrefix(x: string, a: string, b: string, a': string, b': string)
    ensures x + a + b == x + a' + b' <==> a + b == a' + b'
  {
    assert x + a + b == x + (a + b) && x + a' + b' == x + (a' + b');
    assert (x + (a + b))[|x|..] == a + b && (x + (a' + b'))[|x|..] == a' + b';
  }

  /** Interface names that do not start with a digit never collide. */
  lemma PhysNameInjective(c: string, p: nat, c': string, p': nat)
    requires c == [] || !IsDigit(c[0])
    requires c' == [] || !IsDigit(c'[0])
    ensures PhysName(c, p) == PhysName(c', p') <==> c == c' && p == p'
    ensures DummyName(c, p) == DummyName(c', p') <==> c == c' && p == p'
  {
    PhysDummyNames(c, p, c', p');
  }

  /** Process 1's interface "5a" and process 15's interface "a" get the same name. */
  lemma DigitNamesClash()
    ensures PhysName("5a", 1) == PhysName("a", 15) == "ph15a"
    ensures DummyName("5a", 1) == DummyName("a", 15) == "du15a"
  {
    assert Decimal(15) == "15" by { assert Decimal(1) == "1"; }
  }

  /** Another container, with an interface name as the script always has one, gets the same name. */
  ghost predicate Collides(c: string, p: nat)
  {
    exists c': string, p': nat :: c' != [] && p' > 0 && p' != p && PhysName(c, p) == PhysName(c', p')
  }

  /** An interface name that starts with a digit collides with another container's exactly when that
      name or the process id has more than one character: a digit then moves across. */
  lemma DigitNameCollides(c: string, p: nat)
    requires c != [] && IsDigit(c[0]) && p > 0
    ensures Collides(c, p) <==> |c| > 1 || p >= 10
  {
    if |c| > 1 {
      var p' := 10 * p + (c[0] as int - '0' as int);
      assert Decimal(p') == Decimal(p) + [c[0]];
      assert Decimal(p) + c == Decimal(p') + c[1..];
      PhysDummyNames(c, p, c[1..], p');
    } else if p >= 10 {
      var c' := [DigitOf(p % 10)] + c;
      assert Decimal(p) == Decimal(p / 10) + [DigitOf(p % 10)];
      assert Decimal(p) + c == Decimal(p / 10) + c';
      PhysDummyNames(c, p, c', p / 10);
    } else if Collides(c, p) {
      var c', p' :| c' != [] && p' > 0 && p' != p && PhysName(c, p) == PhysName(c', p');
      PhysDummyNames(c, p, c', p');
    }
  }
}
