/** Facts about sequences and sets that several modules need. */
module Collections {

  lemma Regroup<T>(a: seq<T>, b: seq<T>, c: seq<T>)
    ensures a + (b + c) == a + b + c
  {
  }

  lemma {:induction false} SubsetSize<T(!new)>(a: set<T>, b: set<T>)
    requires a <= b
    ensures |a| <= |b|
  {
    if x :| x in a {
      SubsetSize(a - {x}, b - {x});
    }
  }

  ghost predicate Distinct<T>(s: seq<T>) {
    forall i, j :: 0 <= i < j < |s| ==> s[i] != s[j]
  }

  /** The first occurrences, in order: `list(dict.fromkeys(s))`. */
  function Dedup<T(==, !new)>(s: seq<T>): (r: seq<T>)
    ensures forall x :: x in r <==> x in s
    ensures Distinct(r)
  {
    if s == [] then []
    else
      var r := Dedup(s[..|s| - 1]);
      assert s == s[..|s| - 1] + [s[|s| - 1]];
      if s[|s| - 1] in r then r else r + [s[|s| - 1]]
  }

  /** A finite set has a first element with respect to a relation that is total and transitive on it. */
  lemma {:induction false} FirstExists<T(!new)>(s: set<T>, before: (T, T) -> bool) returns (m: T)
    requires s != {}
    requires forall a, b :: a in s && b in s ==> a == b || before(a, b) || before(b, a)
    requires forall a, b, c :: a in s && b in s && c in s && before(a, b) && before(b, c) ==> a == c || before(a, c)
    ensures m in s && forall k :: k in s ==> k == m || before(m, k)
    decreases |s|
  {
    m :| m in s;
    if s != {m} {
      var n := FirstExists(s - {m}, before);
      if before(n, m) {
        m := n;
      } else {
        forall k | k in s ensures k == m || before(m, k) {
          assert k == m || k in s - {m};
        }
      }
    }
  }

  lemma Around<T>(s: seq<T>, i: nat)
    requires i < |s|
    ensures s == s[..i] + [s[i]] + s[i + 1..]
  {
  }
}
