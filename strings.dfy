/**
 * The two pieces of Java's String API that namespace handling rests on:
 * `startsWith` and `replace(target, "")`, the latter with its left-to-right,
 * non-overlapping scan.
 */
module Strings {

  predicate StartsWith(s: string, prefix: string)
  {
    |prefix| <= |s| && s[..|prefix|] == prefix
  }

  /** `t` occurs in `s` starting at index `i`. */
  predicate OccursAt(s: string, t: string, i: int)
  {
    0 <= i && i + |t| <= |s| && s[i..i + |t|] == t
  }

  /** `t` occurs somewhere in `s`. */
  predicate Occurs(t: string, s: string)
  {
    exists i | 0 <= i <= |s| - |t| :: OccursAt(s, t, i)
  }

  /**
   * `s.replace(target, "")`: every occurrence of `target` found by scanning `s`
   * from the left is removed, and the scan resumes after the removed text.
   */
  function RemoveAll(s: string, target: string): (r: string)
    requires target != []
    ensures |r| <= |s|
    ensures |r| == |s| ==> r == s
    decreases |s|
  {
    if |s| < |target| then s
    else if s[..|target|] == target then RemoveAll(s[|target|..], target)
    else [s[0]] + RemoveAll(s[1..], target)
  }

  /** Removing a target that does not occur leaves the string as it was. */
  lemma {:induction false} RemoveAllAbsent(s: string, target: string)
    requires target != []
    requires !Occurs(target, s)
    ensures RemoveAll(s, target) == s
  {
    if |s| >= |target| {
      assert !OccursAt(s, target, 0);
      if Occurs(target, s[1..]) {
        var i :| 0 <= i <= |s| - 1 - |target| && OccursAt(s[1..], target, i);
        assert s[i + 1..i + 1 + |target|] == s[1..][i..i + |target|];
        assert OccursAt(s, target, i + 1);
      }
      RemoveAllAbsent(s[1..], target);
    }
  }

  /** An occurrence at the very start is removed and the scan goes on behind it. */
  lemma RemoveAllLeading(s: string, target: string)
    requires target != []
    ensures RemoveAll(target + s, target) == RemoveAll(s, target)
  {
    assert (target + s)[..|target|] == target;
    assert (target + s)[|target|..] == s;
  }

  /** A prefix in which no occurrence of the target starts is kept as it is, and the scan goes on behind it. */
  lemma {:induction false} RemoveAllFront(p: string, s: string, target: string)
    requires target != []
    requires forall i :: 0 <= i < |p| ==> !OccursAt(p + s, target, i)
    ensures RemoveAll(p + s, target) == p + RemoveAll(s, target)
  {
    if p != [] {
      var ps := p + s;
      assert !OccursAt(ps, target, 0);
      assert ps[1..] == p[1..] + s;
      forall i | 0 <= i < |p[1..]| ensures !OccursAt(p[1..] + s, target, i) {
        assert !OccursAt(ps, target, i + 1);
        if i + |target| <= |p[1..] + s| {
          assert (p[1..] + s)[i..i + |target|] == ps[i + 1..i + 1 + |target|];
        }
      }
      RemoveAllFront(p[1..], s, target);
      if |ps| < |target| {
        assert RemoveAll(s, target) == s;
        assert ps == p + s;
      } else {
        assert ps[..|target|] != target;
        assert RemoveAll(ps, target) == [ps[0]] + RemoveAll(p[1..] + s, target);
        assert [ps[0]] + (p[1..] + RemoveAll(s, target)) == p + RemoveAll(s, target);
      }
    } else {
      assert p + s == s;
    }
  }

  /** A string holding a colon never occurs in a string without one. */
  lemma NoColonNoOccurrence(t: string, s: string)
    requires ':' in t && ':' !in s
    ensures !Occurs(t, s)
  {
    var j :| 0 <= j < |t| && t[j] == ':';
    forall i | 0 <= i <= |s| - |t| ensures !OccursAt(s, t, i) {
      assert s[i + j] in s;
      assert s[i..i + |t|][j] != t[j];
    }
  }

  /**
   * Putting `ns + ":"` in front of a string creates no new occurrence of
   * `n + ":"`, as long as `n` is not a suffix of `ns` and neither holds a colon:
   * an occurrence would have to cross the separator.
   */
  lemma PrefixAddsNoOccurrence(ns: string, n: string, local: string)
    requires ':' !in ns && ':' !in n
    requires !(|n| <= |ns| && ns[|ns| - |n|..] == n)
    requires !Occurs(n + ":", local)
    ensures !Occurs(n + ":", ns + ":" + local)
  {
    var s, t, p := ns + ":" + local, n + ":", |ns| + 1;
    forall i | 0 <= i <= |s| - |t| ensures !OccursAt(s, t, i) {
      if i >= p {
        assert s[i..i + |t|] == local[i - p..i - p + |t|];
        assert !OccursAt(local, t, i - p);
      } else if i + |n| < |ns| {
        // the separator of the occurrence would fall inside `ns`
        assert ns[i + |n|] in ns;
        assert s[i..i + |t|][|n|] != t[|n|];
      } else if i + |n| == |ns| {
        // the occurrence would end exactly at the separator: `n` a suffix of `ns`
        assert s[i..i + |t|][..|n|] == ns[|ns| - |n|..] != n == t[..|n|];
      } else {
        // the separator of `s` would fall inside `n`
        var k := |ns| - i;
        assert n[k] in n;
        assert s[i..i + |t|][k] != t[k];
      }
    }
  }

  /** Two prefixes `a + ":"` and `b + ":"` together create no occurrence of `n + ":"` either. */
  lemma PrefixesAddNoOccurrence(a: string, b: string, n: string, local: string)
    requires ':' !in a && ':' !in b && ':' !in n
    requires !(|n| <= |a| && a[|a| - |n|..] == n)
    requires !(|n| <= |b| && b[|b| - |n|..] == n)
    requires !Occurs(n + ":", local)
    ensures !Occurs(n + ":", a + ":" + (b + ":" + local))
  {
    PrefixAddsNoOccurrence(b, n, local);
    PrefixAddsNoOccurrence(a, n, b + ":" + local);
  }

  /**
   * Removing `n + ":"` from `a + n + ":" + b + ":" + local` splices `a` and `b`
   * together, when no occurrence can start in `a`, cross a separator or sit in
   * `local`.
   */
  lemma RemoveAllSplice(a: string, n: string, b: string, local: string)
    requires n != [] && n[0] !in a
    requires ':' !in n && ':' !in b
    requires !(|n| <= |b| && b[|b| - |n|..] == n)
    requires !Occurs(n + ":", local)
    ensures RemoveAll(a + (n + ":") + (b + ":" + local), n + ":") == a + (b + ":" + local)
  {
    var t, tail := n + ":", b + ":" + local;
    var s := a + (t + tail);
    assert a + t + tail == s;
    forall i | 0 <= i < |a| ensures !OccursAt(s, t, i) {
      assert a[i] in a;
      if i + |t| <= |s| {
        assert s[i..i + |t|][0] == a[i] != t[0];
      }
    }
    RemoveAllFront(a, t + tail, t);
    RemoveAllLeading(tail, t);
    PrefixAddsNoOccurrence(b, n, local);
    RemoveAllAbsent(tail, t);
  }

  /** An id starts with `ns + ":"` only if it agrees with it at the first character. */
  lemma StartsWithFirst(s: string, ns: string)
    requires ns != [] && StartsWith(s, ns + ":")
    ensures s != [] && s[0] == ns[0]
  {
    assert s[..|ns + ":"|][0] == (ns + ":")[0];
  }

  /** An id `ns + ":" + local` starts with `ns + ":"`. */
  lemma StartsWithOwnPrefix(ns: string, local: string)
    ensures StartsWith(ns + ":" + local, ns + ":")
  {
    assert (ns + ":" + local)[..|ns + ":"|] == ns + ":";
  }
}
