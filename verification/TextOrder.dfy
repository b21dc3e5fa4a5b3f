/** Byte-wise text order, as `std::string` compares, and ascending iteration over a set of keys. */
module TextOrder {
  predicate Before(a: string, b: string) {
    b != "" && (a == "" || a[0] < b[0] || (a[0] == b[0] && Before(a[1..], b[1..])))
  }

  /** One text comes before another exactly when it is a proper beginning of it, or has the smaller
      character at the first place where they differ. */
  lemma {:induction false} BeforeIff(a: string, b: string)
    ensures Before(a, b) <==> a < b || exists n :: DiffersAt(a, b, n) && a[n] < b[n]
  {
    if a != "" && b != "" {
      BeforeIff(a[1..], b[1..]);
      assert a == [a[0]] + a[1..] && b == [b[0]] + b[1..];
      forall n | n > 0 && a[0] == b[0]
        ensures DiffersAt(a, b, n) <==> DiffersAt(a[1..], b[1..], n - 1)
      {
        DiffersBehind(a, b, n);
      }
      if a[0] == b[0] {
        var x, y := a[1..], b[1..];
        forall n | DiffersAt(x, y, n) && x[n] < y[n]
          ensures DiffersAt(a, b, n + 1) && a[n + 1] < b[n + 1]
        {
        }
      } else {
        assert DiffersAt(a, b, 0);
      }
    }
  }

  /** The texts agree up to `n` and differ there. */
  predicate DiffersAt(a: string, b: string, n: int) {
    0 <= n < |a| && n < |b| && a[..n] == b[..n] && a[n] != b[n]
  }

  lemma DiffersBehind(a: string, b: string, n: int)
    requires a != "" && b != "" && n > 0 && a[0] == b[0]
    ensures DiffersAt(a, b, n) <==> DiffersAt(a[1..], b[1..], n - 1)
  {
    if n < |a| && n < |b| {
      assert a[..n] == [a[0]] + a[1..][..n - 1] && b[..n] == [b[0]] + b[1..][..n - 1];
      assert a[1..][..n - 1] == a[..n][1..] && b[1..][..n - 1] == b[..n][1..];
    }
  }

  lemma {:induction false} BeforeIsStrict(a: string, b: string)
    ensures !(Before(a, b) && Before(b, a))
    ensures a == b ==> !Before(a, b)
  {
    if a != "" && b != "" && a[0] == b[0] {
      BeforeIsStrict(a[1..], b[1..]);
    }
  }

  lemma {:induction false} BeforeIsTotal(a: string, b: string)
    ensures a == b || Before(a, b) || Before(b, a)
  {
    if a != "" && b != "" && a[0] == b[0] {
      BeforeIsTotal(a[1..], b[1..]);
      assert a == [a[0]] + a[1..] && b == [b[0]] + b[1..];
    }
  }

  lemma {:induction false} BeforeIsTransitive(a: string, b: string, c: string)
    requires Before(a, b) && Before(b, c)
    ensures Before(a, c)
  {
    if a != "" && a[0] == b[0] == c[0] {
      BeforeIsTransitive(a[1..], b[1..], c[1..]);
    }
  }

  predicate IsLeast(k: string, keys: set<string>) {
    k in keys && forall other | other in keys :: !Before(other, k)
  }

  lemma {:induction false} LeastExists(keys: set<string>)
    requires keys != {}
    ensures exists k :: IsLeast(k, keys)
    decreases |keys|
  {
    hide Before;
    var x :| x in keys;
    var rest := keys - {x};
    if rest == {} {
      BeforeIsStrict(x, x);
      assert keys == {x};
      assert IsLeast(x, keys);
    } else {
      LeastExists(rest);
      var k :| IsLeast(k, rest);
      var least := if Before(x, k) then x else k;
      forall other | other in keys
        ensures !Before(other, least)
      {
        BeforeIsStrict(x, x);
        if Before(other, x) && Before(x, k) {
          BeforeIsTransitive(other, x, k);
        }
      }
      assert IsLeast(least, keys);
    }
  }

  lemma LeastIsUnique(j: string, k: string, keys: set<string>)
    requires IsLeast(j, keys) && IsLeast(k, keys)
    ensures j == k
  {
    hide Before;
    BeforeIsTotal(j, k);
  }

  /** The key an ascending iteration visits first. */
  ghost function Least(keys: set<string>): (k: string)
    requires keys != {}
    ensures IsLeast(k, keys)
  {
    LeastExists(keys);
    var k :| IsLeast(k, keys);
    k
  }
}
