/**
  Migration versions and the two orders in which the runner walks a set of them:
  ascending for pending files, descending for recorded versions.
 */
module Orders {
  import opened Options

  // A migration version is the creation time in seconds since the epoch: ten digits, no leading zero.
  type Version = v: int | 1_000_000_000 <= v <= 9_999_999_999 witness 1_000_000_000

  ghost predicate Ascending(q: seq<Version>) {
    forall i, j | 0 <= i < j < |q| :: q[i] < q[j]
  }

  ghost predicate Descending(q: seq<Version>) {
    forall i, j | 0 <= i < j < |q| :: q[i] > q[j]
  }

  ghost function Elems<T>(q: seq<T>): set<T> {
    set x | x in q
  }

  lemma {:induction false} FindMax(s: set<Version>) returns (m: Version)
    requires s != {}
    ensures m in s && forall x | x in s :: x <= m
  {
    m :| m in s;
    var rest := s - {m};
    if rest != {} {
      var m' := FindMax(rest);
      if m < m' {
        m := m';
      }
    }
    forall x | x in s ensures x <= m {
      assert x in rest || rest == s - {x};
    }
  }

  lemma MaxExists(s: set<Version>)
    requires s != {}
    ensures exists m :: m in s && forall x | x in s :: x <= m
  {
    var m := FindMax(s);
  }

  ghost function Max(s: set<Version>): (m: Version)
    requires s != {}
    ensures m in s && forall x | x in s :: x <= m
  {
    MaxExists(s);
    var m :| m in s && forall x | x in s :: x <= m;
    m
  }

  /** The newest version of a set; 0, which is below every version, when there is none. */
  ghost function Newest(s: set<Version>): (n: nat)
    ensures forall x | x in s :: x <= n
    ensures n > 0 ==> n in s
  {
    if s == {} then 0 else Max(s)
  }

  ghost function Asc(s: set<Version>): seq<Version> {
    if s == {} then [] else Asc(s - {Max(s)}) + [Max(s)]
  }

  ghost function Desc(s: set<Version>): seq<Version> {
    if s == {} then [] else [Max(s)] + Desc(s - {Max(s)})
  }

  function FirstN<T>(n: Option<nat>, q: seq<T>): seq<T> {
    if n.None? || n.value >= |q| then q else q[..n.value]
  }

  lemma {:induction false} AscElems(s: set<Version>)
    ensures Elems(Asc(s)) == s && |Asc(s)| == |s|
  {
    if s == {} {
    } else {
      var rest := s - {Max(s)};
      AscElems(rest);
      ElemsConcat(Asc(rest), [Max(s)]);
      assert Elems([Max(s)]) == {Max(s)};
      assert rest + {Max(s)} == s;
    }
  }

  lemma {:induction false} AscAscends(s: set<Version>)
    ensures Ascending(Asc(s))
  {
    if s == {} {
    } else {
      var rest := s - {Max(s)};
      AscAscends(rest);
      AscElems(rest);
      var q := Asc(rest);
      forall i | 0 <= i < |q| ensures q[i] < Max(s) {
        assert q[i] in Elems(q) && q[i] in rest;
      }
    }
  }

  lemma AscFacts(s: set<Version>)
    ensures Ascending(Asc(s)) && Elems(Asc(s)) == s && |Asc(s)| == |s|
  {
    AscElems(s);
    AscAscends(s);
  }

  lemma {:induction false} DescElems(s: set<Version>)
    ensures Elems(Desc(s)) == s && |Desc(s)| == |s|
  {
    if s == {} {
    } else {
      var rest := s - {Max(s)};
      DescElems(rest);
      ElemsConcat([Max(s)], Desc(rest));
      assert Elems([Max(s)]) == {Max(s)};
      assert rest + {Max(s)} == s;
    }
  }

  lemma {:induction false} DescDescends(s: set<Version>)
    ensures Descending(Desc(s))
  {
    if s == {} {
    } else {
      var rest := s - {Max(s)};
      DescDescends(rest);
      DescElems(rest);
      var q := Desc(rest);
      forall i | 0 <= i < |q| ensures q[i] < Max(s) {
        assert q[i] in Elems(q) && q[i] in rest;
      }
    }
  }

  lemma DescFacts(s: set<Version>)
    ensures Descending(Desc(s)) && Elems(Desc(s)) == s && |Desc(s)| == |s|
  {
    DescElems(s);
    DescDescends(s);
  }

  lemma ElemsConcat<T>(a: seq<T>, b: seq<T>)
    ensures Elems(a + b) == Elems(a) + Elems(b)
  {
    forall x | x in Elems(a) + Elems(b) ensures x in a + b {
      if x in a {
        var i :| 0 <= i < |a| && a[i] == x;
        assert (a + b)[i] == x;
      } else {
        var i :| 0 <= i < |b| && b[i] == x;
        assert (a + b)[|a| + i] == x;
      }
    }
  }

  /** A set has only one ascending listing. */
  lemma {:induction false} AscUnique(q: seq<Version>, s: set<Version>)
    requires Ascending(q) && Elems(q) == s
    ensures q == Asc(s)
  {
    if q == [] {
    } else {
      var last := q[|q| - 1];
      var front := q[..|q| - 1];
      assert q == front + [last];
      assert last in s;
      assert Max(s) == last by {
        assert Max(s) in q;
      }
      assert Elems(front) == s - {last} by {
        assert Elems(q) == Elems(front) + {last};
        assert last !in front;
      }
      AscUnique(front, s - {last});
    }
  }

  /** A set has only one descending listing. */
  lemma {:induction false} DescUnique(q: seq<Version>, s: set<Version>)
    requires Descending(q) && Elems(q) == s
    ensures q == Desc(s)
  {
    if q == [] {
    } else {
      var head := q[0];
      var tail := q[1..];
      assert q == [head] + tail;
      assert head in s;
      assert Max(s) == head by {
        assert Max(s) in q;
      }
      assert Elems(tail) == s - {head} by {
        assert Elems(q) == {head} + Elems(tail);
        assert head !in tail;
      }
      DescUnique(tail, s - {head});
    }
  }

  /** The versions at the top of a set are the first ones of its descending listing. */
  lemma {:induction false} UpperPartIsPrefix(top: set<Version>, s: set<Version>)
    requires top <= s
    requires forall x, y | x in top && y in s && x <= y :: y in top
    ensures Desc(top) <= Desc(s)
  {
    if top != {} {
      assert Max(top) <= Max(s);
      assert Max(s) in top;
      UpperPartIsPrefix(top - {Max(top)}, s - {Max(s)});
    }
  }

  /** The first versions of a descending listing are the newest ones of the set. */
  lemma {:induction false} PrefixIsTop(p: seq<Version>, s: set<Version>)
    requires p <= Desc(s)
    ensures Elems(p) <= s
    ensures forall x, y | x in s - Elems(p) && y in Elems(p) :: x < y
    decreases |p|
  {
    if p == [] {
      assert Elems(p) == {};
    } else {
      assert p == [p[0]] + p[1..] && p[0] == Max(s);
      assert p[1..] <= Desc(s - {Max(s)});
      PrefixIsTop(p[1..], s - {Max(s)});
      forall y | y in Elems(p) ensures y == Max(s) || y in Elems(p[1..]) {
        assert y in [p[0]] + p[1..];
      }
      forall x, y | x in s - Elems(p) && y in Elems(p) ensures x < y {
        assert p[0] in p;
        forall i | 0 <= i < |p[1..]| ensures p[1..][i] != x {
          assert p[i + 1] in p;
        }
        assert x in (s - {Max(s)}) - Elems(p[1..]);
      }
    }
  }

  /** The versions at the bottom of a set are the first ones of its ascending listing. */
  lemma {:induction false} LowerPartIsPrefix(low: set<Version>, s: set<Version>)
    requires low <= s
    requires forall x, y | x in low && y in s && y <= x :: y in low
    ensures Asc(low) <= Asc(s)
  {
    if s == {} {
    } else if Max(s) in low {
      assert low == s;
    } else {
      LowerPartIsPrefix(low, s - {Max(s)});
    }
  }

  lemma AscSnoc(s: set<Version>, v: Version)
    requires forall x | x in s :: x < v
    ensures Asc(s + {v}) == Asc(s) + [v]
  {
    assert Max(s + {v}) == v;
    assert (s + {v}) - {v} == s;
  }
}
