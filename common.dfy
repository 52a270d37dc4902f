/** Small value types and sequence operations shared by the rest of the model. */
module Common {

  datatype Option<T> = None | Some(value: T) {
    /** The value, or `default` when there is none (Python's `d.get(key, default)`). */
    function GetOr(default: T): T {
      match this
      case Some(v) => v
      case None => default
    }
  }

  /** No element occurs twice. */
  predicate NoDuplicates<T(==)>(s: seq<T>) {
    forall i, j :: 0 <= i < j < |s| ==> s[i] != s[j]
  }

  /** The elements of `s` that satisfy `p`, in their original order. */
  function Filter<T>(s: seq<T>, p: T -> bool): (r: seq<T>)
    ensures |r| <= |s|
  {
    if s == [] then [] else (if p(s[0]) then [s[0]] else []) + Filter(s[1..], p)
  }

  /** The predicate "not in `b`", as a value that can be passed to `Filter`. */
  function Excluding<T(==)>(b: set<T>): T -> bool {
    y => y !in b
  }

  /** Python's `list.remove(x)` when `x` is in the list: drop the first occurrence. */
  function RemoveFirst<T(==)>(s: seq<T>, x: T): seq<T> {
    if s == [] then []
    else if s[0] == x then s[1..]
    else [s[0]] + RemoveFirst(s[1..], x)
  }

  lemma {:induction false} FilterMember<T>(s: seq<T>, p: T -> bool, x: T)
    ensures x in Filter(s, p) <==> x in s && p(x)
  {
    if s != [] {
      FilterMember(s[1..], p, x);
      assert s == [s[0]] + s[1..];
    }
  }

  /** Filtering a sequence extended at the end: how a left-to-right loop builds a filter. */
  lemma {:induction false} FilterSnoc<T>(s: seq<T>, x: T, p: T -> bool)
    ensures Filter(s + [x], p) == Filter(s, p) + (if p(x) then [x] else [])
  {
    if s == [] {
      assert s + [x] == [x];
      assert [x][1..] == [];
    } else {
      var h := if p(s[0]) then [s[0]] else [];
      assert (s + [x])[0] == s[0];
      assert (s + [x])[1..] == s[1..] + [x];
      assert Filter(s + [x], p) == h + Filter(s[1..] + [x], p);
      FilterSnoc(s[1..], x, p);
      assert Filter(s, p) == h + Filter(s[1..], p);
    }
  }

  lemma {:induction false} FilterNoDuplicates<T>(s: seq<T>, p: T -> bool)
    requires NoDuplicates(s)
    ensures NoDuplicates(Filter(s, p))
  {
    if s != [] {
      assert NoDuplicates(s[1..]) by {
        forall i, j | 0 <= i < j < |s[1..]| ensures s[1..][i] != s[1..][j] {
          assert s[1..][i] == s[i + 1] && s[1..][j] == s[j + 1];
        }
      }
      FilterNoDuplicates(s[1..], p);
      FilterMember(s[1..], p, s[0]);
      assert s[0] !in s[1..] by {
        forall k | 0 <= k < |s[1..]| ensures s[1..][k] != s[0] {
          assert s[1..][k] == s[k + 1];
        }
      }
    }
  }

  /** Two predicates that agree on every element of `s` filter it identically. */
  lemma {:induction false} FilterAgree<T>(s: seq<T>, p: T -> bool, q: T -> bool)
    requires forall y :: y in s ==> p(y) == q(y)
    ensures Filter(s, p) == Filter(s, q)
  {
    if s != [] {
      assert s[0] in s;
      forall y | y in s[1..] ensures p(y) == q(y) {
        assert y in s;
      }
      FilterAgree(s[1..], p, q);
    }
  }

  /** A filter that every element passes changes nothing. */
  lemma {:induction false} FilterAll<T>(s: seq<T>, p: T -> bool)
    requires forall y :: y in s ==> p(y)
    ensures Filter(s, p) == s
  {
    if s != [] {
      assert s[0] in s;
      forall y | y in s[1..] ensures p(y) {
        assert y in s;
      }
      FilterAll(s[1..], p);
      assert s == [s[0]] + s[1..];
    }
  }

  /** A filter keeps something exactly when some element passes it. */
  lemma FilterNonEmpty<T>(s: seq<T>, p: T -> bool)
    ensures |Filter(s, p)| > 0 <==> exists y :: y in s && p(y)
  {
    var r := Filter(s, p);
    if |r| > 0 {
      FilterMember(s, p, r[0]);
    }
    forall y | y in s && p(y) ensures |r| > 0 {
      FilterMember(s, p, y);
    }
  }

  /** The elements of a sequence, as a set. */
  function Elements<T>(s: seq<T>): set<T> {
    set y | y in s
  }

  /** The position of the first occurrence of `x` in `s`. */
  function IndexOf<T(==)>(s: seq<T>, x: T): (i: nat)
    requires x in s
    ensures i < |s| && s[i] == x && x !in s[..i]
  {
    if s[0] == x then 0
    else
      assert x in s[1..] by {
        var k :| 0 <= k < |s| && s[k] == x;
        assert s[1..][k - 1] == x;
      }
      var j := IndexOf(s[1..], x);
      assert s[..j + 1] == [s[0]] + s[1..][..j];
      j + 1
  }

  /** What `list.remove` does: the first occurrence of `x` is cut out, everything else keeps its order. */
  lemma {:induction false} RemoveFirstSplits<T>(s: seq<T>, x: T)
    requires x in s
    ensures RemoveFirst(s, x) == s[..IndexOf(s, x)] + s[IndexOf(s, x) + 1..]
  {
    if s[0] == x {
      assert s[..0] == [];
    } else {
      var i := IndexOf(s, x);
      assert x in s[1..] by { assert s[1..][i - 1] == x; }
      RemoveFirstSplits(s[1..], x);
      assert IndexOf(s[1..], x) == i - 1;
      assert s[..i] == [s[0]] + s[1..][..i - 1];
      assert s[i + 1..] == s[1..][i..];
    }
  }

  /** A value not in the list is left alone. */
  lemma {:induction false} RemoveFirstAbsent<T>(s: seq<T>, x: T)
    requires x !in s
    ensures RemoveFirst(s, x) == s
  {
    if s != [] {
      assert x !in s[1..] by {
        forall k | 0 <= k < |s[1..]| ensures s[1..][k] != x { assert s[1..][k] == s[k + 1]; }
      }
      RemoveFirstAbsent(s[1..], x);
    }
  }

  /** Removing `x` from a filtered duplicate-free list is filtering with one more excluded element. */
  lemma {:induction false} RemoveFirstExcluding<T>(s: seq<T>, b: set<T>, x: T)
    requires NoDuplicates(s)
    ensures RemoveFirst(Filter(s, Excluding(b)), x) == Filter(s, Excluding(b + {x}))
  {
    if s != [] {
      assert NoDuplicates(s[1..]) by {
        forall i, j | 0 <= i < j < |s[1..]| ensures s[1..][i] != s[1..][j] {
          assert s[1..][i] == s[i + 1] && s[1..][j] == s[j + 1];
        }
      }
      var y := s[0];
      if y in b {
        RemoveFirstExcluding(s[1..], b, x);
        assert Filter(s, Excluding(b)) == Filter(s[1..], Excluding(b));
        assert Filter(s, Excluding(b + {x})) == Filter(s[1..], Excluding(b + {x}));
      } else if y == x {
        assert Filter(s, Excluding(b)) == [x] + Filter(s[1..], Excluding(b));
        forall z | z in s[1..] ensures Excluding(b)(z) == Excluding(b + {x})(z) {
          var k :| 0 <= k < |s[1..]| && s[1..][k] == z;
          assert s[k + 1] == z;
        }
        FilterAgree(s[1..], Excluding(b), Excluding(b + {x}));
      } else {
        RemoveFirstExcluding(s[1..], b, x);
        assert Filter(s, Excluding(b)) == [y] + Filter(s[1..], Excluding(b));
        assert Filter(s, Excluding(b + {x})) == [y] + Filter(s[1..], Excluding(b + {x}));
      }
    }
  }

  /** Removing an element from a duplicate-free list removes exactly that element and keeps the list duplicate-free. */
  lemma RemoveFirstNoDuplicates<T>(s: seq<T>, x: T)
    requires NoDuplicates(s)
    ensures NoDuplicates(RemoveFirst(s, x))
    ensures x !in RemoveFirst(s, x)
    ensures forall y :: y != x ==> (y in RemoveFirst(s, x) <==> y in s)
  {
    if x in s {
      RemoveFirstSplits(s, x);
      var i := IndexOf(s, x);
      var r := s[..i] + s[i + 1..];
      forall a, b | 0 <= a < b < |r| ensures r[a] != r[b] {
        var a' := if a < i then a else a + 1;
        var b' := if b < i then b else b + 1;
        assert r[a] == s[a'] && r[b] == s[b'];
      }
      forall k | 0 <= k < |r| ensures r[k] != x {
        var k' := if k < i then k else k + 1;
        assert r[k] == s[k'];
      }
      forall y | y != x && y in s ensures y in r {
        var k :| 0 <= k < |s| && s[k] == y;
        assert k != i;
        if k < i { assert r[k] == y; } else { assert r[k - 1] == y; }
      }
      forall y | y in r ensures y in s {
        var k :| 0 <= k < |r| && r[k] == y;
        if k < i { assert s[k] == y; } else { assert s[k + 1] == y; }
      }
    } else {
      RemoveFirstAbsent(s, x);
    }
  }
}
