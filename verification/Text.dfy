// Strings and bytes. A Python `str` is represented by its UTF-8 encoding: that is what the cache
// format stores, and byte-wise lexicographic order on UTF-8 is the code point order `sorted` uses.
module Text {
  type byte = x: int | 0 <= x < 256
  type Bytes = seq<byte>
  type Str = seq<byte>

  datatype Option<+T> = None | Some(value: T)

  /** `a <= b` in Python's string order. */
  predicate StrLe(a: Str, b: Str) {
    |a| == 0 || (|b| > 0 && (a[0] < b[0] || (a[0] == b[0] && StrLe(a[1..], b[1..]))))
  }

  lemma {:induction false} StrLeTotal(a: Str, b: Str)
    ensures StrLe(a, b) || StrLe(b, a)
  {
    if |a| > 0 && |b| > 0 {
      StrLeTotal(a[1..], b[1..]);
    }
  }

  lemma {:induction false} StrLeAntisymmetric(a: Str, b: Str)
    requires StrLe(a, b) && StrLe(b, a)
    ensures a == b
  {
    if |a| > 0 && |b| > 0 {
      StrLeAntisymmetric(a[1..], b[1..]);
      assert a == [a[0]] + a[1..] && b == [b[0]] + b[1..];
    }
  }

  lemma {:induction false} StrLeTransitive(a: Str, b: Str, c: Str)
    requires StrLe(a, b) && StrLe(b, c)
    ensures StrLe(a, c)
  {
    if |a| > 0 && a[0] == b[0] && b[0] == c[0] {
      StrLeTransitive(a[1..], b[1..], c[1..]);
    }
  }

  ghost predicate IsLeast(x: Str, s: set<Str>) {
    x in s && forall y | y in s :: StrLe(x, y)
  }

  lemma {:induction false} LeastExists(s: set<Str>)
    requires s != {}
    ensures exists x :: IsLeast(x, s)
  {
    var y :| y in s;
    StrLeTotal(y, y);
    if s == {y} {
      assert IsLeast(y, s);
    } else {
      LeastExists(s - {y});
      var z :| IsLeast(z, s - {y});
      StrLeTotal(y, z);
      var x := if StrLe(y, z) then y else z;
      forall w | w in s
        ensures StrLe(x, w)
      {
        if w != y && x == y {
          StrLeTransitive(y, z, w);
        }
      }
      assert IsLeast(x, s);
    }
  }

  ghost function Least(s: set<Str>): (x: Str)
    requires s != {}
    ensures IsLeast(x, s)
  {
    LeastExists(s);
    var x :| IsLeast(x, s);
    x
  }

  /** Python's `sorted` applied to a set of strings. */
  ghost function Sorted(s: set<Str>): (r: seq<Str>)
    ensures forall x :: x in r <==> x in s
    ensures |r| == |s|
    decreases s
  {
    if s == {} then []
    else
      var x := Least(s);
      [x] + Sorted(s - {x})
  }

  ghost predicate Ascending(r: seq<Str>) {
    forall i, j | 0 <= i < j < |r| :: r[i] != r[j] && StrLe(r[i], r[j])
  }

  ghost function ToSet<T>(r: seq<T>): set<T> {
    set x | x in r
  }

  lemma {:induction false} SortedOnce(s: set<Str>)
    ensures forall i, j | 0 <= i < j < |Sorted(s)| :: Sorted(s)[i] != Sorted(s)[j]
    decreases s
  {
    if s != {} {
      SortedOnce(s - {Least(s)});
      var rest := Sorted(s - {Least(s)});
      assert forall j | 0 <= j < |rest| :: rest[j] in rest;
    }
  }

  lemma {:induction false} SortedAscending(s: set<Str>)
    ensures Ascending(Sorted(s))
    decreases s
  {
    if s != {} {
      var x := Least(s);
      var rest := Sorted(s - {x});
      SortedAscending(s - {x});
      forall j | 0 <= j < |rest|
        ensures x != rest[j] && StrLe(x, rest[j])
      {
        assert rest[j] in rest;
      }
    }
  }

  /** Any duplicate-free ascending listing of a set is `sorted` of it. */
  lemma {:induction false} SortedUnique(r: seq<Str>, s: set<Str>)
    requires Ascending(r) && ToSet(r) == s
    ensures r == Sorted(s)
    decreases s
  {
    if r == [] {
      assert s == {};
    } else {
      assert r[0] in s;
      var x := Least(s);
      assert x in r;
      var k :| 0 <= k < |r| && r[k] == x;
      if k != 0 {
        StrLeAntisymmetric(r[0], x);
      }
      assert ToSet(r[1..]) == s - {x} by {
        assert r == [x] + r[1..];
        forall y | y in r[1..]
          ensures y in s - {x}
        {
          var j :| 0 <= j < |r[1..]| && r[1..][j] == y;
          assert r[j + 1] == y && r[0] != r[j + 1];
        }
      }
      SortedUnique(r[1..], s - {x});
    }
  }

  function InsertStr(r: seq<Str>, x: Str): seq<Str> {
    if r == [] || StrLe(x, r[0]) then [x] + r else [r[0]] + InsertStr(r[1..], x)
  }

  lemma {:induction false} InsertAscending(r: seq<Str>, x: Str)
    requires Ascending(r) && x !in r
    ensures Ascending(InsertStr(r, x)) && ToSet(InsertStr(r, x)) == ToSet(r) + {x}
  {
    if r == [] {
    } else if StrLe(x, r[0]) {
      forall j | 0 <= j < |r|
        ensures StrLe(x, r[j]) && x != r[j]
      {
        if j > 0 { StrLeTransitive(x, r[0], r[j]); }
      }
    } else {
      var rest := InsertStr(r[1..], x);
      InsertAscending(r[1..], x);
      StrLeTotal(x, r[0]);
      assert r == [r[0]] + r[1..];
      forall y | y in rest
        ensures StrLe(r[0], y) && r[0] != y
      {
        assert y in ToSet(rest);
        if y != x {
          assert y in r[1..];
          var k :| 0 <= k < |r[1..]| && r[1..][k] == y;
          assert r[k + 1] == y;
        }
      }
    }
  }

  /** `sorted` on a set, by insertion. */
  method SortSet(s: set<Str>) returns (r: seq<Str>)
    ensures r == Sorted(s)
  {
    r := [];
    var left := s;
    while left != {}
      invariant left <= s && Ascending(r) && ToSet(r) == s - left
      decreases left
    {
      var x :| x in left;
      assert x !in ToSet(r);
      InsertAscending(r, x);
      r := InsertStr(r, x);
      left := left - {x};
    }
    SortedUnique(r, s);
  }
}
