/** Python's order of strings, and the first of several names in it. */
module PyStrings {
  /** Python's `<` on strings: by the first differing code point, a proper prefix first. */
  predicate Before(a: string, b: string) {
    b != [] && (a == [] || a[0] < b[0] || (a[0] == b[0] && Before(a[1..], b[1..])))
  }

  predicate AtMost(a: string, b: string) {
    a == b || Before(a, b)
  }

  lemma {:induction false} BeforeIsTotal(a: string, b: string)
    ensures AtMost(a, b) || Before(b, a)
    ensures !(Before(a, b) && AtMost(b, a))
    decreases |a|
  {
    if a != [] && b != [] && a[0] == b[0] {
      BeforeIsTotal(a[1..], b[1..]);
      assert a == [a[0]] + a[1..] && b == [b[0]] + b[1..];
    }
  }

  lemma {:induction false} BeforeIsTransitive(a: string, b: string, c: string)
    requires AtMost(a, b) && AtMost(b, c)
    ensures AtMost(a, c)
    decreases |a|
  {
    if a != b && b != c && a != [] && a[0] == b[0] == c[0] {
      BeforeIsTransitive(a[1..], b[1..], c[1..]);
      BeforeIsTotal(b[1..], c[1..]);
    }
  }

  /** The texts agree up to some place, where the first ends or has the smaller character. */
  ghost predicate ComesFirst(a: string, b: string) {
    exists k :: 0 <= k <= |a| && k < |b| && a[..k] == b[..k] && (k == |a| || a[k] < b[k])
  }

  lemma {:induction false} BeforeIff(a: string, b: string)
    ensures Before(a, b) <==> ComesFirst(a, b)
    decreases |a|
  {
    if a == [] || b == [] || a[0] != b[0] {
      if b != [] && (a == [] || a[0] < b[0]) {
        assert a[..0] == b[..0];
      }
      if ComesFirst(a, b) {
        var k :| 0 <= k <= |a| && k < |b| && a[..k] == b[..k] && (k == |a| || a[k] < b[k]);
        assert k > 0 ==> a[..k][0] == b[..k][0];
      }
    } else {
      BeforeIff(a[1..], b[1..]);
      if ComesFirst(a[1..], b[1..]) {
        var k :| 0 <= k <= |a[1..]| && k < |b[1..]| && a[1..][..k] == b[1..][..k] && (k == |a[1..]| || a[1..][k] < b[1..][k]);
        assert a[..k + 1] == [a[0]] + a[1..][..k] && b[..k + 1] == [b[0]] + b[1..][..k];
      }
      if ComesFirst(a, b) {
        var k :| 0 <= k <= |a| && k < |b| && a[..k] == b[..k] && (k == |a| || a[k] < b[k]);
        assert k > 0;
        assert a[1..][..k - 1] == a[..k][1..] && b[1..][..k - 1] == b[..k][1..];
      }
    }
  }

  predicate IsLeast(name: string, names: set<string>) {
    name in names && forall other | other in names :: AtMost(name, other)
  }

  lemma {:induction false} LeastExists(names: set<string>)
    requires names != {}
    ensures exists least :: IsLeast(least, names)
    decreases names
  {
    var one :| one in names;
    if names == {one} {
      assert IsLeast(one, names);
    } else {
      LeastExists(names - {one});
      var next :| IsLeast(next, names - {one});
      BeforeIsTotal(one, next);
      if Before(next, one) {
        assert IsLeast(next, names);
      } else {
        forall other | other in names - {one} ensures AtMost(one, other) {
          BeforeIsTransitive(one, next, other);
        }
        assert IsLeast(one, names);
      }
    }
  }

  lemma LeastIsUnique(names: set<string>, a: string, b: string)
    requires IsLeast(a, names) && IsLeast(b, names)
    ensures a == b
  {
    BeforeIsTotal(a, b);
  }

  /** The alphabetically first of some names. */
  function Least(names: set<string>): (least: string)
    requires names != {}
    ensures IsLeast(least, names)
  {
    LeastExists(names);
    assert forall a, b | IsLeast(a, names) && IsLeast(b, names) :: a == b by {
      forall a, b | IsLeast(a, names) && IsLeast(b, names) ensures a == b {
        LeastIsUnique(names, a, b);
      }
    }
    var least :| IsLeast(least, names);
    least
  }
}
