/** Version keys as the deployment tool compares them (section 11 of Semantic Versioning 2.0.0). */
module Versions {

  /** A dot-separated prerelease identifier: `(0, int)` or `(1, str)`. */
  datatype Ident = Numeric(n: nat) | Alpha(s: string)

  /** An empty `pre` is a release. */
  datatype Key = Key(major: nat, minor: nat, patch: nat, pre: seq<Ident>)

  const V1_3_1 := Key(1, 3, 1, [])
  const V1_3_2 := Key(1, 3, 2, [])

  predicate StringLeq(a: string, b: string) {
    a == [] || (b != [] && (a[0] < b[0] || (a[0] == b[0] && StringLeq(a[1..], b[1..]))))
  }

  predicate IdentLeq(a: Ident, b: Ident) {
    match (a, b)
    case (Numeric(m), Numeric(n)) => m <= n
    case (Numeric(_), Alpha(_)) => true
    case (Alpha(_), Numeric(_)) => false
    case (Alpha(s), Alpha(t)) => StringLeq(s, t)
  }

  predicate PreLeq(a: seq<Ident>, b: seq<Ident>) {
    a == [] || (b != [] && if a[0] == b[0] then PreLeq(a[1..], b[1..]) else IdentLeq(a[0], b[0]))
  }

  /** Tuple comparison of `(major, minor, patch, 0 if pre else 1, pre)`. */
  predicate Leq(a: Key, b: Key) {
    if a.major != b.major then a.major < b.major
    else if a.minor != b.minor then a.minor < b.minor
    else if a.patch != b.patch then a.patch < b.patch
    else if (a.pre == []) != (b.pre == []) then b.pre == []
    else PreLeq(a.pre, b.pre)
  }

  lemma {:induction false} StringOrder(a: string, b: string, c: string)
    ensures StringLeq(a, a)
    ensures StringLeq(a, b) || StringLeq(b, a)
    ensures StringLeq(a, b) && StringLeq(b, a) ==> a == b
    ensures StringLeq(a, b) && StringLeq(b, c) ==> StringLeq(a, c)
    decreases |a|
  {
    if a != [] {
      StringOrder(a[1..], if b == [] then [] else b[1..], if c == [] then [] else c[1..]);
      if b != [] && a[0] == b[0] && a[1..] == b[1..] {
        assert a == [a[0]] + a[1..] && b == [b[0]] + b[1..];
      }
    }
  }

  lemma IdentOrder(a: Ident, b: Ident, c: Ident)
    ensures IdentLeq(a, a)
    ensures IdentLeq(a, b) || IdentLeq(b, a)
    ensures IdentLeq(a, b) && IdentLeq(b, a) ==> a == b
    ensures IdentLeq(a, b) && IdentLeq(b, c) ==> IdentLeq(a, c)
  {
    StringOrder(if a.Alpha? then a.s else "", if b.Alpha? then b.s else "", if c.Alpha? then c.s else "");
  }

  lemma {:induction false} PreOrder(a: seq<Ident>, b: seq<Ident>, c: seq<Ident>)
    ensures PreLeq(a, b) || PreLeq(b, a)
    ensures PreLeq(a, b) && PreLeq(b, a) ==> a == b
    ensures PreLeq(a, b) && PreLeq(b, c) ==> PreLeq(a, c)
    decreases |a|
  {
    if a != [] {
      PreOrder(a[1..], if b == [] then [] else b[1..], if c == [] then [] else c[1..]);
      if b != [] {
        IdentOrder(a[0], b[0], if c == [] then a[0] else c[0]);
        if a[0] == b[0] && a[1..] == b[1..] {
          assert a == [a[0]] + a[1..] && b == [b[0]] + b[1..];
        }
        if c != [] {
          IdentOrder(a[0], c[0], b[0]);
          IdentOrder(b[0], c[0], a[0]);
        }
      }
    }
  }

  /** Version precedence is a total order on keys. */
  lemma KeyOrder(a: Key, b: Key, c: Key)
    ensures Leq(a, b) || Leq(b, a)
    ensures Leq(a, b) && Leq(b, a) ==> a == b
    ensures Leq(a, b) && Leq(b, c) ==> Leq(a, c)
  {
    PreOrder(a.pre, b.pre, c.pre);
  }

  /* ---- Precedence as section 11 puts it ---- */

  /** The first difference decides, or being shorter without one. */
  ghost predicate TextPrecedes(a: string, b: string) {
    exists k :: 0 <= k <= |a| && k < |b| && a[..k] == b[..k] && (k < |a| ==> a[k] < b[k])
  }

  /** Numbers are compared as numbers and precede words, which are compared as text. */
  ghost predicate IdentPrecedes(a: Ident, b: Ident) {
    || (a.Numeric? && b.Numeric? && a.n < b.n)
    || (a.Numeric? && b.Alpha?)
    || (a.Alpha? && b.Alpha? && TextPrecedes(a.s, b.s))
  }

  ghost predicate PrePrecedes(a: seq<Ident>, b: seq<Ident>) {
    exists k :: 0 <= k <= |a| && k < |b| && a[..k] == b[..k] && (k < |a| ==> IdentPrecedes(a[k], b[k]))
  }

  /** `a` is strictly older: by its first differing number, or as a prerelease of what `b` releases, or by prerelease. */
  ghost predicate Precedes(a: Key, b: Key) {
    || a.major < b.major
    || (a.major == b.major && a.minor < b.minor)
    || (a.major == b.major && a.minor == b.minor && a.patch < b.patch)
    || (a.major == b.major && a.minor == b.minor && a.patch == b.patch
        && ((a.pre != [] && b.pre == []) || (a.pre != [] && b.pre != [] && PrePrecedes(a.pre, b.pre))))
  }

  lemma {:induction false} TextLeqIff(a: string, b: string)
    ensures StringLeq(a, b) <==> !TextPrecedes(b, a)
    decreases |a|
  {
    if a != [] && b != [] && a[0] == b[0] {
      TextLeqIff(a[1..], b[1..]);
      if k :| 0 <= k <= |b[1..]| && k < |a[1..]| && b[1..][..k] == a[1..][..k] && (k < |b[1..]| ==> b[1..][k] < a[1..][k]) {
        assert b[..k + 1] == [b[0]] + b[1..][..k] && a[..k + 1] == [a[0]] + a[1..][..k];
        assert TextPrecedes(b, a);
      }
      if k :| 0 <= k <= |b| && k < |a| && b[..k] == a[..k] && (k < |b| ==> b[k] < a[k]) {
        assert k > 0;
        assert b[1..][..k - 1] == b[..k][1..] && a[1..][..k - 1] == a[..k][1..];
        assert TextPrecedes(b[1..], a[1..]);
      }
    } else if a != [] {
      assert b[..0] == a[..0];
    }
  }

  lemma IdentLeqIff(a: Ident, b: Ident)
    ensures IdentLeq(a, b) <==> !IdentPrecedes(b, a)
  {
    if a.Alpha? && b.Alpha? {
      TextLeqIff(a.s, b.s);
    }
  }

  lemma {:induction false} PreLeqIff(a: seq<Ident>, b: seq<Ident>)
    ensures PreLeq(a, b) <==> !PrePrecedes(b, a)
    decreases |a|
  {
    if a != [] && b != [] && a[0] == b[0] {
      PreLeqIff(a[1..], b[1..]);
      if k :| 0 <= k <= |b[1..]| && k < |a[1..]| && b[1..][..k] == a[1..][..k]
              && (k < |b[1..]| ==> IdentPrecedes(b[1..][k], a[1..][k])) {
        assert b[..k + 1] == [b[0]] + b[1..][..k] && a[..k + 1] == [a[0]] + a[1..][..k];
        assert PrePrecedes(b, a);
      }
      IdentOrder(a[0], b[0], a[0]);
      IdentLeqIff(a[0], b[0]);
      if k :| 0 <= k <= |b| && k < |a| && b[..k] == a[..k] && (k < |b| ==> IdentPrecedes(b[k], a[k])) {
        assert k > 0;
        assert b[1..][..k - 1] == b[..k][1..] && a[1..][..k - 1] == a[..k][1..];
        assert PrePrecedes(b[1..], a[1..]);
      }
    } else if a != [] {
      assert b[..0] == a[..0];
      if b != [] {
        IdentLeqIff(a[0], b[0]);
      }
    }
  }

  /** The comparison of keys is the precedence of Semantic Versioning. */
  lemma LeqIsPrecedence(a: Key, b: Key)
    ensures Leq(a, b) <==> !Precedes(b, a)
  {
    PreLeqIff(a.pre, b.pre);
  }

  /** The migration guard cannot hold between a version and itself. */
  lemma NoSelfMigration(v: Key)
    ensures !(Leq(v, V1_3_1) && Leq(V1_3_2, v))
  {
    KeyOrder(V1_3_2, v, V1_3_1);
  }
}
