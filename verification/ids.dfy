/**
 * The order in which the database visits rows when a query has no ORDER BY.
 *
 * The account tables live in MySQL (InnoDB), whose tables are stored in primary-key
 * order; a `findOne` that is not answered by the primary key scans that order and
 * stops at the first match. The keys are lower-case UUID strings, for which the
 * column collation agrees with character-code order, so "first" is modelled as
 * "least key under lexicographic character order".
 */
module Ids {

  /** `a` is lexicographically at most `b`, comparing characters by code. */
  predicate LexLe(a: string, b: string)
    decreases |a|
  {
    |a| == 0 || (|b| > 0 && (a[0] < b[0] || (a[0] == b[0] && LexLe(a[1..], b[1..]))))
  }

  lemma {:induction false} LexLeReflexive(a: string)
    ensures LexLe(a, a)
    decreases |a|
  {
    if |a| > 0 {
      LexLeReflexive(a[1..]);
    }
  }

  lemma {:induction false} LexLeAntisymmetric(a: string, b: string)
    requires LexLe(a, b) && LexLe(b, a)
    ensures a == b
    decreases |a|
  {
    if |a| > 0 {
      LexLeAntisymmetric(a[1..], b[1..]);
      assert a == [a[0]] + a[1..] && b == [b[0]] + b[1..];
    }
  }

  lemma {:induction false} LexLeTransitive(a: string, b: string, c: string)
    requires LexLe(a, b) && LexLe(b, c)
    ensures LexLe(a, c)
    decreases |a|
  {
    if |a| > 0 && a[0] == b[0] && b[0] == c[0] {
      LexLeTransitive(a[1..], b[1..], c[1..]);
    }
  }

  lemma {:induction false} LexLeTotal(a: string, b: string)
    ensures LexLe(a, b) || LexLe(b, a)
    decreases |a|
  {
    if |a| > 0 && |b| > 0 && a[0] == b[0] {
      LexLeTotal(a[1..], b[1..]);
    }
  }

  /** Every non-empty finite set of keys has a least element. */
  lemma {:induction false} LeastExists(s: set<string>)
    requires s != {}
    ensures exists m :: m in s && forall x :: x in s ==> LexLe(m, x)
    decreases |s|
  {
    var y :| y in s;
    if s == {y} {
      LexLeReflexive(y);
      assert forall x :: x in s ==> LexLe(y, x);
    } else {
      var rest := s - {y};
      LeastExists(rest);
      var m :| m in rest && forall x :: x in rest ==> LexLe(m, x);
      LexLeTotal(m, y);
      if LexLe(m, y) {
        assert forall x :: x in s ==> LexLe(m, x);
      } else {
        forall x | x in s
          ensures LexLe(y, x)
        {
          if x == y {
            LexLeReflexive(y);
          } else {
            LexLeTransitive(y, m, x);
          }
        }
      }
    }
  }

  /** The key at which a primary-key scan of `s` starts. */
  function LeastKey(s: set<string>): (m: string)
    requires s != {}
    ensures m in s
    ensures forall x :: x in s ==> LexLe(m, x)
  {
    LeastExists(s);
    LeastIsUnique(s);
    var m :| m in s && forall x :: x in s ==> LexLe(m, x);
    m
  }

  lemma LeastIsUnique(s: set<string>)
    ensures forall m, m' ::
      m in s && m' in s && (forall x :: x in s ==> LexLe(m, x)) && (forall x :: x in s ==> LexLe(m', x)) ==> m == m'
  {
    forall m, m' | m in s && m' in s && (forall x :: x in s ==> LexLe(m, x)) && (forall x :: x in s ==> LexLe(m', x))
      ensures m == m'
    {
      LexLeAntisymmetric(m, m');
    }
  }
}
