/** Types shared by every part of the model. */
module Common {

  datatype Option<+T> = None | Some(value: T)

  datatype Result<+T, +E> = Ok(value: T) | Err(error: E)

  /** The value a map holds for a key, or a default: the source's `get(key) ?? default`. */
  function Get<K, V>(m: map<K, V>, k: K, default: V): V {
    if k in m then m[k] else default
  }

  /** The elements that satisfy a predicate, in order. */
  function Where<T>(s: seq<T>, keep: T -> bool): seq<T> {
    if s == [] then [] else Where(s[..|s| - 1], keep) + (if keep(s[|s| - 1]) then [s[|s| - 1]] else [])
  }

  lemma WhereLast<T>(s: seq<T>, keep: T -> bool)
    ensures Where([], keep) == []
    ensures s != [] ==> Where(s, keep) == Where(s[..|s| - 1], keep) + (if keep(s[|s| - 1]) then [s[|s| - 1]] else [])
  {
  }

  lemma {:induction false} WhereConcat<T>(a: seq<T>, b: seq<T>, keep: T -> bool)
    ensures Where(a + b, keep) == Where(a, keep) + Where(b, keep)
  {
    hide Where;
    WhereLast(b, keep);
    if b == [] {
      assert a + b == a;
      assert Where(a, keep) + [] == Where(a, keep);
    } else {
      var front, last, all := b[..|b| - 1], b[|b| - 1], a + b;
      assert all[..|all| - 1] == a + front && all[|all| - 1] == last;
      WhereConcat(a, front, keep);
      WhereLast(all, keep);
      SameParts(Where(a, keep), Where(front, keep), if keep(last) then [last] else []);
    }
  }

  lemma SameParts<T>(a: seq<T>, b: seq<T>, c: seq<T>)
    ensures a + b + c == a + (b + c)
  {
  }

  function Max(a: int, b: int): int {
    if a > b then a else b
  }

  lemma SubsetSize<T>(a: set<T>, b: set<T>)
    requires a <= b
    ensures |a| <= |b|
  {
    assert b == a + (b - a);
  }

  /** A set of integers that is not empty has a member. */
  lemma SomeMember(s: set<int>)
    ensures s != {} ==> exists x :: x in s
  {
    if forall x: int :: x !in s {
      assert s == {};
    }
  }

  /** There is only one way to divide with remainder. */
  lemma Division(n: nat, k: nat, q: nat, r: nat)
    requires n == k * q + r && r < k
    ensures n % k == r && n / k == q
  {
    var d := n / k - q;
    assert n % k == r - k * d by {
      assert n == k * (n / k) + n % k;
      assert k * (n / k) == k * q + k * d;
    }
    Multiple(k, d);
  }

  lemma Multiple(k: nat, d: int)
    ensures d >= 1 ==> k * d >= k
    ensures d <= -1 ==> k * d <= -(k as int)
  {
    if d >= 1 {
      assert k * (d - 1) >= 0;
    } else if d <= -1 {
      assert k * (-d - 1) >= 0;
    }
  }
}
