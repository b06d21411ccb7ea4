/** Strings in byte order, and the keys of a map as a sorted list (`sort.Strings`). */
module Names {

  /** Lexicographic order. */
  predicate LexLeq(a: string, b: string) {
    a == [] || (b != [] && (a[0] < b[0] || (a[0] == b[0] && LexLeq(a[1..], b[1..]))))
  }

  lemma {:induction false} LexTotal(a: string, b: string)
    ensures LexLeq(a, b) || LexLeq(b, a)
  {
    if a != [] && b != [] {
      LexTotal(a[1..], b[1..]);
    }
  }

  lemma {:induction false} LexAntisymmetric(a: string, b: string)
    requires LexLeq(a, b) && LexLeq(b, a)
    ensures a == b
  {
    if a != [] && b != [] {
      LexAntisymmetric(a[1..], b[1..]);
      assert a == [a[0]] + a[1..] && b == [b[0]] + b[1..];
    }
  }

  lemma {:induction false} LexTransitive(a: string, b: string, c: string)
    requires LexLeq(a, b) && LexLeq(b, c)
    ensures LexLeq(a, c)
  {
    if a != [] && b != [] && c != [] && a[0] == b[0] == c[0] {
      LexTransitive(a[1..], b[1..], c[1..]);
    }
  }

  predicate IsLeast(x: string, keys: set<string>) {
    x in keys && forall y :: y in keys ==> LexLeq(x, y)
  }

  lemma {:induction false} LeastExists(keys: set<string>)
    requires keys != {}
    ensures exists x :: IsLeast(x, keys)
  {
    var k :| k in keys;
    var rest := keys - {k};
    LexTotal(k, k);
    if rest == {} {
      assert keys == rest + {k};
      assert IsLeast(k, keys);
    } else {
      LeastExists(rest);
      var x :| IsLeast(x, rest);
      LexTotal(k, x);
      if LexLeq(x, k) {
        assert IsLeast(x, keys);
      } else {
        forall y | y in keys ensures LexLeq(k, y) {
          if y != k {
            LexTransitive(k, x, y);
          }
        }
        assert IsLeast(k, keys);
      }
    }
  }

  lemma LeastUnique()
    ensures forall keys, x, y :: IsLeast(x, keys) && IsLeast(y, keys) ==> x == y
  {
    forall keys, x, y | IsLeast(x, keys) && IsLeast(y, keys) ensures x == y {
      LexAntisymmetric(x, y);
    }
  }

  /** The names in increasing order, each once. */
  function SortedNames(keys: set<string>): (r: seq<string>)
    ensures forall x :: x in keys <==> x in r
    ensures forall i, j :: 0 <= i < j < |r| ==> LexLeq(r[i], r[j]) && r[i] != r[j]
  {
    if keys == {} then []
    else
      LeastExists(keys);
      LeastUnique();
      var x :| IsLeast(x, keys);
      [x] + SortedNames(keys - {x})
  }

  /** One string is not after another if it is a prefix of it or has the smaller character where they first differ. */
  lemma {:induction false} LexFirstDifference(a: string, b: string, k: nat)
    requires k <= |a| && k <= |b| && a[..k] == b[..k]
    ensures k == |a| ==> LexLeq(a, b)
    ensures k < |a| && k == |b| ==> !LexLeq(a, b)
    ensures k < |a| && k < |b| && a[k] < b[k] ==> LexLeq(a, b) && !LexLeq(b, a)
  {
    if k > 0 {
      assert a[0] == a[..k][0] == b[..k][0] == b[0];
      assert a[1..][..k - 1] == a[..k][1..] == b[..k][1..] == b[1..][..k - 1];
      LexFirstDifference(a[1..], b[1..], k - 1);
    }
  }

  ghost predicate StrictlySorted(s: seq<string>) {
    forall i, j :: 0 <= i < j < |s| ==> LexLeq(s[i], s[j]) && s[i] != s[j]
  }

  /** There is one increasing list of given names. */
  lemma {:induction false} SortedUnique(a: seq<string>, b: seq<string>)
    requires StrictlySorted(a) && StrictlySorted(b)
    requires forall x :: x in a <==> x in b
    ensures a == b
  {
    assert a != [] ==> a[0] in a && a[0] in b;
    assert b != [] ==> b[0] in b && b[0] in a;
    if a != [] {
      HeadLeast(a, b[0]);
      HeadLeast(b, a[0]);
      LexAntisymmetric(a[0], b[0]);
      forall x ensures x in a[1..] <==> x in b[1..] {
        InTail(a, x);
        InTail(b, x);
      }
      SortedUnique(a[1..], b[1..]);
      assert a == [a[0]] + a[1..] && b == [b[0]] + b[1..];
    }
  }

  lemma {:induction false} HeadLeast(s: seq<string>, x: string)
    requires StrictlySorted(s) && x in s
    ensures LexLeq(s[0], x)
  {
    var i :| 0 <= i < |s| && s[i] == x;
    LexTotal(x, x);
  }

  lemma InTail(s: seq<string>, x: string)
    requires StrictlySorted(s) && s != []
    ensures x in s[1..] <==> x in s && x != s[0]
  {
    if x in s && x != s[0] {
      var i :| 0 <= i < |s| && s[i] == x;
      assert s[1..][i - 1] == x;
    }
    if x in s[1..] {
      var i :| 0 <= i < |s[1..]| && s[1..][i] == x;
      assert s[i + 1] == x;
    }
  }
}
