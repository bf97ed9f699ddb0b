/** The order Go's `sort.Strings` uses: strings compared element by element,
    a proper prefix sorting first. Go compares the UTF-8 bytes; for valid
    UTF-8 that order coincides with the order of the code points, which is
    what comparing `char`s gives here. */
module Lexicographic {

  /** `a` sorts at or before `b`. */
  predicate Below(a: string, b: string)
  {
    |a| == 0 || (|b| > 0 && (a[0] < b[0] || (a[0] == b[0] && Below(a[1..], b[1..]))))
  }

  /** `a` sorts strictly before `b`. */
  predicate Less(a: string, b: string)
  {
    Below(a, b) && a != b
  }

  lemma {:induction false} BelowReflexive(a: string)
    ensures Below(a, a)
  {
    if |a| > 0 {
      BelowReflexive(a[1..]);
    }
  }

  lemma {:induction false} BelowAntisymmetric(a: string, b: string)
    requires Below(a, b) && Below(b, a)
    ensures a == b
  {
    if |a| > 0 && |b| > 0 {
      BelowAntisymmetric(a[1..], b[1..]);
      assert a == [a[0]] + a[1..] && b == [b[0]] + b[1..];
    }
  }

  lemma {:induction false} BelowTransitive(a: string, b: string, c: string)
    requires Below(a, b) && Below(b, c)
    ensures Below(a, c)
  {
    if |a| > 0 && |b| > 0 && |c| > 0 && a[0] == b[0] == c[0] {
      BelowTransitive(a[1..], b[1..], c[1..]);
    }
  }

  lemma {:induction false} BelowTotal(a: string, b: string)
    ensures Below(a, b) || Below(b, a)
  {
    if |a| > 0 && |b| > 0 && a[0] == b[0] {
      BelowTotal(a[1..], b[1..]);
    }
  }

  /** Every element sorts at or before every later one. */
  ghost predicate Sorted(s: seq<string>)
  {
    forall i, j :: 0 <= i < j < |s| ==> Below(s[i], s[j])
  }

  /** Every element sorts strictly before every later one; in particular no
      name occurs twice. */
  ghost predicate StrictlySorted(s: seq<string>)
  {
    forall i, j :: 0 <= i < j < |s| ==> Less(s[i], s[j])
  }

  /** The name of a non-empty set that sorts first. */
  ghost function Least(names: set<string>): (m: string)
    requires names != {}
    ensures m in names
    ensures forall x :: x in names ==> Below(m, x)
    decreases names
  {
    var x :| x in names;
    if names == {x} then
      BelowReflexive(x);
      x
    else
      var r := Least(names - {x});
      if Below(x, r) then
        assert forall y :: y in names ==> Below(x, y) by {
          forall y | y in names ensures Below(x, y) {
            if y == x { BelowReflexive(x); } else { BelowTransitive(x, r, y); }
          }
        }
        x
      else
        BelowTotal(x, r);
        r
  }

  /** The names of a set in ascending order, one occurrence each. This is
      the single sequence `sort.Strings` can leave behind for them, whatever
      order they were collected in (see SortedUnique). */
  ghost function SortedNames(names: set<string>): (r: seq<string>)
    ensures StrictlySorted(r)
    ensures multiset(r) == multiset(names)
    decreases names
  {
    if names == {} then []
    else
      var m := Least(names);
      var rest := SortedNames(names - {m});
      PrependLeast(names, rest);
      [m] + rest
  }

  /** Putting the least name in front of an ascending arrangement of the
      others gives an ascending arrangement of them all. */
  lemma {:induction false} PrependLeast(names: set<string>, rest: seq<string>)
    requires names != {}
    requires StrictlySorted(rest) && multiset(rest) == multiset(names - {Least(names)})
    ensures StrictlySorted([Least(names)] + rest)
    ensures multiset([Least(names)] + rest) == multiset(names)
  {
    var m := Least(names);
    forall k | 0 <= k < |rest|
      ensures Less(m, rest[k])
    {
      assert rest[k] in multiset(rest);
    }
    assert multiset(names) == multiset{m} + multiset(names - {m});
  }

  /** Any sorted arrangement of exactly the names of a set is SortedNames
      of that set: the result of sorting does not depend on the order the
      names arrived in. */
  lemma {:induction false} SortedUnique(s: seq<string>, names: set<string>)
    requires Sorted(s)
    requires multiset(s) == multiset(names)
    ensures s == SortedNames(names)
    decreases |s|
  {
    if s == [] {
      assert forall x :: x in names ==> x in multiset(names);
    } else {
      var m := HeadIsLeast(s, names);
      RemoveHead(s, names);
      assert Sorted(s[1..]) by {
        forall i, j | 0 <= i < j < |s| - 1 ensures Below(s[1..][i], s[1..][j]) {
          assert s[1..][i] == s[i + 1] && s[1..][j] == s[j + 1];
        }
      }
      SortedUnique(s[1..], names - {m});
    }
  }

  /** Taking the first name off a sequence takes it off the set of its names. */
  lemma {:induction false} RemoveHead(s: seq<string>, names: set<string>)
    requires s != [] && multiset(s) == multiset(names)
    ensures multiset(s[1..]) == multiset(names - {s[0]})
  {
    var m := s[0];
    assert s == [m] + s[1..];
    assert m in names by {
      assert m in multiset(s);
    }
    assert multiset(names) == multiset{m} + multiset(names - {m});
    assert multiset(s[1..]) == multiset(s) - multiset{m};
  }

  /** The first name of a sorted arrangement of a set is its least name. */
  lemma {:induction false} HeadIsLeast(s: seq<string>, names: set<string>) returns (m: string)
    requires Sorted(s) && s != []
    requires multiset(s) == multiset(names)
    ensures names != {} && m == Least(names) && s[0] == m
  {
    assert s[0] in multiset(names);
    m := Least(names);
    assert m in multiset(s);
    var k :| 0 <= k < |s| && s[k] == m;
    if k > 0 {
      assert Below(s[0], s[k]);
    } else {
      BelowReflexive(s[0]);
    }
    BelowAntisymmetric(s[0], m);
  }
}
