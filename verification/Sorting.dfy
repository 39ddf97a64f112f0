/** Stable sorting by a comparison, and when its result does not depend on the order of its input. */
module Sorting {

  function Insert<T>(le: (T, T) -> bool, x: T, s: seq<T>): (r: seq<T>)
    ensures |r| == |s| + 1
    decreases |s|
  {
    if s == [] || le(x, s[0]) then [x] + s else [s[0]] + Insert(le, x, s[1..])
  }

  function Sort<T>(le: (T, T) -> bool, s: seq<T>): (r: seq<T>)
    ensures |r| == |s|
    decreases |s|
  {
    if s == [] then [] else Insert(le, s[0], Sort(le, s[1..]))
  }

  function Mapped<T, U>(g: T -> U, s: seq<T>): (r: seq<U>)
    ensures |r| == |s| && forall i | 0 <= i < |s| :: r[i] == g(s[i])
  {
    seq(|s|, i requires 0 <= i < |s| => g(s[i]))
  }

  ghost predicate Total<T(!new)>(le: (T, T) -> bool) {
    forall x, y :: le(x, y) || le(y, x)
  }

  ghost predicate Transitive<T(!new)>(le: (T, T) -> bool) {
    forall x, y, z | le(x, y) && le(y, z) :: le(x, z)
  }

  ghost predicate Sorted<T>(le: (T, T) -> bool, s: seq<T>) {
    forall i, j | 0 <= i < j < |s| :: le(s[i], s[j])
  }

  /** Equal keys mean equal elements. */
  ghost predicate Separates<T>(le: (T, T) -> bool, s: seq<T>) {
    forall x, y | x in s && y in s && le(x, y) && le(y, x) :: x == y
  }

  lemma {:induction false} InsertMultiset<T>(le: (T, T) -> bool, x: T, s: seq<T>)
    ensures multiset(Insert(le, x, s)) == multiset{x} + multiset(s)
    decreases |s|
  {
    if s != [] && !le(x, s[0]) {
      InsertMultiset(le, x, s[1..]);
      assert s == [s[0]] + s[1..];
    }
  }

  lemma {:induction false} SortMultiset<T>(le: (T, T) -> bool, s: seq<T>)
    ensures multiset(Sort(le, s)) == multiset(s)
    decreases |s|
  {
    if s != [] {
      SortMultiset(le, s[1..]);
      InsertMultiset(le, s[0], Sort(le, s[1..]));
      assert s == [s[0]] + s[1..];
    }
  }

  lemma MultisetMember<T>(s: seq<T>, x: T)
    ensures x in s <==> x in multiset(s)
  {}

  lemma {:induction false} InsertSorted<T(!new)>(le: (T, T) -> bool, x: T, s: seq<T>)
    requires Total(le) && Transitive(le) && Sorted(le, s)
    ensures Sorted(le, Insert(le, x, s))
    decreases |s|
  {
    if s == [] || le(x, s[0]) {
      forall i | 0 <= i < |s| ensures le(x, s[i]) {
        assert i > 0 ==> le(s[0], s[i]);
      }
    } else {
      var rest := Insert(le, x, s[1..]);
      InsertSorted(le, x, s[1..]);
      InsertMultiset(le, x, s[1..]);
      forall i | 0 <= i < |rest| ensures le(s[0], rest[i]) {
        MultisetMember(rest, rest[i]);
        MultisetMember(s[1..], rest[i]);
        assert rest[i] in rest;
        if rest[i] in s[1..] {
          var j :| 0 <= j < |s[1..]| && s[1..][j] == rest[i];
          assert s[j + 1] == rest[i];
        } else {
          assert rest[i] == x;
        }
      }
    }
  }

  lemma {:induction false} SortSorted<T(!new)>(le: (T, T) -> bool, s: seq<T>)
    requires Total(le) && Transitive(le)
    ensures Sorted(le, Sort(le, s))
    decreases |s|
  {
    if s != [] {
      SortSorted(le, s[1..]);
      InsertSorted(le, s[0], Sort(le, s[1..]));
    }
  }

  lemma FirstMeets<T>(le: (T, T) -> bool, s: seq<T>, t: seq<T>)
    requires Sorted(le, s) && Sorted(le, t) && multiset(s) == multiset(t) && Separates(le, s) && s != []
    ensures t != [] && s[0] == t[0]
  {
    MultisetMember(s, s[0]);
    MultisetMember(t, s[0]);
    MultisetMember(t, t[0]);
    MultisetMember(s, t[0]);
    var i :| 0 <= i < |t| && t[i] == s[0];
    var j :| 0 <= j < |s| && s[j] == t[0];
    if i > 0 && j > 0 {
      assert le(s[0], s[j]) && le(t[0], t[i]);
    }
  }

  lemma RestMultiset<T>(s: seq<T>)
    requires s != []
    ensures multiset(s[1..]) == multiset(s) - multiset{s[0]}
  {
    assert s == [s[0]] + s[1..];
  }

  /** A sorted arrangement of given elements is unique. */
  lemma {:induction false} SortedUnique<T>(le: (T, T) -> bool, s: seq<T>, t: seq<T>)
    requires Sorted(le, s) && Sorted(le, t) && multiset(s) == multiset(t) && Separates(le, s)
    ensures s == t
    decreases |s|
  {
    if s == [] {
      assert |multiset(t)| == 0;
    } else {
      FirstMeets(le, s, t);
      RestMultiset(s);
      RestMultiset(t);
      SortedUnique(le, s[1..], t[1..]);
      assert s == [s[0]] + s[1..] && t == [t[0]] + t[1..];
    }
  }

  /** Sorting forgets the order of its input. */
  lemma SortForgetsOrder<T(!new)>(le: (T, T) -> bool, s: seq<T>, t: seq<T>)
    requires Total(le) && Transitive(le) && multiset(s) == multiset(t) && Separates(le, s)
    ensures Sort(le, s) == Sort(le, t)
  {
    SortMultiset(le, s);
    SortMultiset(le, t);
    SortSorted(le, s);
    SortSorted(le, t);
    forall x | x in Sort(le, s) ensures x in s {
      MultisetMember(Sort(le, s), x);
      MultisetMember(s, x);
    }
    SortedUnique(le, Sort(le, s), Sort(le, t));
  }

  /** Sorting commutes with a map that keeps the comparison. */
  lemma {:induction false} InsertMapped<T, U>(le: (T, T) -> bool, ge: (U, U) -> bool, g: T -> U, x: T, s: seq<T>)
    requires forall i | 0 <= i < |s| :: le(x, s[i]) == ge(g(x), g(s[i]))
    ensures Mapped(g, Insert(le, x, s)) == Insert(ge, g(x), Mapped(g, s))
    decreases |s|
  {
    if s == [] {
      assert Mapped(g, [x]) == [g(x)];
    } else if le(x, s[0]) {
      MappedCons(g, x, s);
    } else {
      InsertMapped(le, ge, g, x, s[1..]);
      assert Mapped(g, s)[1..] == Mapped(g, s[1..]);
      MappedCons(g, s[0], Insert(le, x, s[1..]));
    }
  }

  lemma MappedCons<T, U>(g: T -> U, x: T, s: seq<T>)
    ensures Mapped(g, [x] + s) == [g(x)] + Mapped(g, s)
  {}

  lemma {:induction false} SortMapped<T, U>(le: (T, T) -> bool, ge: (U, U) -> bool, g: T -> U, s: seq<T>)
    requires forall x, y | x in s && y in s :: le(x, y) == ge(g(x), g(y))
    ensures Mapped(g, Sort(le, s)) == Sort(ge, Mapped(g, s))
    decreases |s|
  {
    if s != [] {
      var rest := Sort(le, s[1..]);
      SortMapped(le, ge, g, s[1..]);
      assert Mapped(g, s)[1..] == Mapped(g, s[1..]);
      SortMultiset(le, s[1..]);
      forall i | 0 <= i < |rest| ensures le(s[0], rest[i]) == ge(g(s[0]), g(rest[i])) {
        MultisetMember(rest, rest[i]);
        MultisetMember(s[1..], rest[i]);
        assert rest[i] in rest;
        assert rest[i] in s[1..];
        assert rest[i] in s;
      }
      InsertMapped(le, ge, g, s[0], rest);
    }
  }

  lemma MappedSnoc<T, U>(g: T -> U, s: seq<T>, x: T)
    ensures Mapped(g, s + [x]) == Mapped(g, s) + [g(x)]
  {}

  /** Mapping forgets no more of the order than its input does. */
  lemma {:induction false} MappedMultiset<T, U>(g: T -> U, s: seq<T>, t: seq<T>)
    requires multiset(s) == multiset(t)
    ensures multiset(Mapped(g, s)) == multiset(Mapped(g, t))
    decreases |s|
  {
    hide Mapped;
    SameLength(s, t);
    if s == [] {
      assert s == t;
    } else {
      var i := FindSame(s, t);
      var rest := t[..i] + t[i + 1..];
      MappedMultiset(g, s[1..], rest);
      MappedDrop(g, t, i);
      MappedDrop(g, s, 0);
      assert s[..0] + s[1..] == s[1..];
    }
  }

  lemma SameLength<T>(s: seq<T>, t: seq<T>)
    requires multiset(s) == multiset(t)
    ensures |s| == |t|
  {
    assert |multiset(s)| == |s| && |multiset(t)| == |t|;
  }

  lemma FindSame<T>(s: seq<T>, t: seq<T>) returns (i: nat)
    requires multiset(s) == multiset(t) && s != []
    ensures i < |t| && t[i] == s[0] && multiset(s[1..]) == multiset(t[..i] + t[i + 1..])
  {
    MultisetMember(s, s[0]);
    MultisetMember(t, s[0]);
    i :| 0 <= i < |t| && t[i] == s[0];
    RestMultiset(s);
    DropOne(t, i);
  }

  lemma MappedDrop<T, U>(g: T -> U, t: seq<T>, i: nat)
    requires i < |t|
    ensures multiset(Mapped(g, t)) == multiset(Mapped(g, t[..i] + t[i + 1..])) + multiset{g(t[i])}
  {
    var m := Mapped(g, t);
    assert Mapped(g, t[..i] + t[i + 1..]) == m[..i] + m[i + 1..];
    DropOne(m, i);
    assert m[i] in m;
  }

  lemma DropOne<T>(t: seq<T>, i: nat)
    requires i < |t|
    ensures multiset(t[..i] + t[i + 1..]) == multiset(t) - multiset{t[i]}
  {
    assert t == t[..i] + ([t[i]] + t[i + 1..]);
  }
}
