/** Python's `sorted` on a set of strings: code-point lexicographic order. */
module StringSorting {

  predicate Below(a: string, b: string) {
    a == "" || (b != "" && (a[0] < b[0] || (a[0] == b[0] && Below(a[1..], b[1..]))))
  }

  lemma {:induction false} Total(a: string, b: string)
    ensures Below(a, b) || Below(b, a)
    ensures Below(a, b) && Below(b, a) ==> a == b
  {
    if a != "" && b != "" && a[0] == b[0] {
      Total(a[1..], b[1..]);
      assert a == [a[0]] + a[1..] && b == [b[0]] + b[1..];
    }
  }

  lemma {:induction false} Transitive(a: string, b: string, c: string)
    requires Below(a, b) && Below(b, c)
    ensures Below(a, c)
  {
    if a != "" && a[0] == b[0] == c[0] {
      Transitive(a[1..], b[1..], c[1..]);
    }
  }

  predicate Least(m: string, keys: set<string>) {
    m in keys && forall x | x in keys :: Below(m, x)
  }

  lemma {:induction false} LeastExists(keys: set<string>)
    requires keys != {}
    ensures exists m :: Least(m, keys)
    ensures forall m, n :: Least(m, keys) && Least(n, keys) ==> m == n
  {
    forall m, n | Least(m, keys) && Least(n, keys) ensures m == n {
      Total(m, n);
    }
    var k :| k in keys;
    if keys == {k} {
      Total(k, k);
      assert Least(k, keys);
    } else {
      assert keys - {k} != {};
      LeastExists(keys - {k});
      var m :| Least(m, keys - {k});
      Total(m, k);
      Total(k, k);
      if Below(m, k) {
        assert Least(m, keys);
      } else {
        forall x | x in keys ensures Below(k, x) {
          if x != k { Transitive(k, m, x); }
        }
        assert Least(k, keys);
      }
    }
  }

  /** `sorted(keys)`. */
  function Sorted(keys: set<string>): (r: seq<string>)
    ensures forall k :: k in r <==> k in keys
    ensures forall i, j | 0 <= i < j < |r| :: Below(r[i], r[j]) && r[i] != r[j]
  {
    if keys == {} then []
    else
      LeastExists(keys);
      var m :| m in keys && Least(m, keys);
      [m] + Sorted(keys - {m})
  }

  /** The order: a prefix comes first, and otherwise the first differing character decides. */
  ghost predicate Precedes(a: string, b: string) {
    a <= b || exists n | 0 <= n < |a| && n < |b| :: a[..n] == b[..n] && a[n] < b[n]
  }

  lemma {:induction false} BelowIsLexicographic(a: string, b: string)
    ensures Below(a, b) <==> Precedes(a, b)
  {
    if a != "" && b != "" && a[0] == b[0] {
      BelowIsLexicographic(a[1..], b[1..]);
      PrecedesBehind(a, b);
    } else if a != "" && b != "" && a[0] < b[0] {
      assert a[..0] == b[..0];
    }
  }

  lemma PrecedesBehind(a: string, b: string)
    requires a != "" && b != "" && a[0] == b[0]
    ensures Precedes(a, b) <==> Precedes(a[1..], b[1..])
  {
    var s, t := a[1..], b[1..];
    assert a == [a[0]] + s && b == [a[0]] + t;
    SharedHead(a[0], s, t);
    forall n | 0 <= n < |a| && n < |b| && a[..n] == b[..n] && a[n] < b[n] ensures Precedes(s, t) {
      assert n > 0;
      TailsDiffer(a, b, n);
    }
    forall n | 0 <= n < |s| && n < |t| && s[..n] == t[..n] && s[n] < t[n] ensures Precedes(a, b) {
      HeadsExtend(a, b, n);
    }
  }

  lemma SharedHead(c: char, s: string, t: string)
    ensures [c] + s <= [c] + t <==> s <= t
  {
    if [c] + s <= [c] + t { assert s == ([c] + t)[..1 + |s|][1..] == t[..|s|]; }
  }

  lemma TailsDiffer(a: string, b: string, n: nat)
    requires 0 < n < |a| && n < |b| && a[..n] == b[..n] && a[n] < b[n]
    ensures Precedes(a[1..], b[1..])
  {
    assert a[1..][..n - 1] == a[..n][1..] == b[1..][..n - 1];
    assert a[1..][n - 1] < b[1..][n - 1];
  }

  lemma HeadsExtend(a: string, b: string, n: nat)
    requires a != "" && b != "" && a[0] == b[0]
    requires n + 1 < |a| && n + 1 < |b| && a[1..][..n] == b[1..][..n] && a[1..][n] < b[1..][n]
    ensures Precedes(a, b)
  {
    assert a[..n + 1] == [a[0]] + a[1..][..n] && b[..n + 1] == [b[0]] + b[1..][..n];
    assert a[n + 1] < b[n + 1];
  }
}
