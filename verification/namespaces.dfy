/**
  Namespace paths and the positional list helpers of code-generator.js
  (`getNamespaces`, `intersect`, `isEqual`, `diff`).
 */
module Namespaces {
  import opened Model
  import opened Text

  /**
    `getNamespaces`: the names of the packages directly enclosing an element,
    outermost first. The walk up the owner chain stops at the first owner that
    is not a plain package (the model root, a class, ...).
   */
  function NamespacePath(owners: seq<Owner>): (path: seq<string>)
    ensures |path| <= |owners|
    ensures forall i :: 0 <= i < |path| ==> owners[|owners| - |path| + i] == PackageOwner(path[i])
    ensures |path| < |owners| ==> !owners[|owners| - |path| - 1].PackageOwner?
  {
    if |owners| == 0 then []
    else match owners[|owners| - 1]
      case PackageOwner(n) => NamespacePath(owners[..|owners| - 1]) + [n]
      case _ => []
  }

  /**
    `getNamespaces` as written: `_parent + _namespace` applies JavaScript's `+`
    to two arrays, which converts both to strings and concatenates them, so
    the segments run together without any separator.
   */
  function NamespacePathAsWritten(owners: seq<Owner>): (r: string)
    ensures r == Join(NamespacePath(owners), "")
  {
    if |owners| == 0 then ""
    else match owners[|owners| - 1]
      case PackageOwner(n) =>
        JoinAppend(NamespacePath(owners[..|owners| - 1]), n, "");
        NamespacePathAsWritten(owners[..|owners| - 1]) + n
      case _ => ""
  }

  /** The rest of a list after its head; empty stays empty (indices past the end read `undefined`). */
  function Tail(s: seq<string>): seq<string>
  {
    if |s| == 0 then [] else s[1..]
  }

  /** `intersect(a, b)`: the entries of `a` that equal the entry of `b` at the same index. */
  function Intersect(a: seq<string>, b: seq<string>): (r: seq<string>)
    ensures |r| <= |a|
  {
    if |a| == 0 then []
    else (if |b| > 0 && a[0] == b[0] then [b[0]] else []) + Intersect(a[1..], Tail(b))
  }

  /** `isEqual(a, b)`: same length and equal entry by entry. */
  function IsEqual(a: seq<string>, b: seq<string>): (r: bool)
    ensures r <==> a == b
  {
    |a| == |b| && forall i :: 0 <= i < |a| ==> a[i] == b[i]
  }

  /** `diff(a, b)`: the entries of `a` that differ from the entry of `b` at the same index. */
  function Diff(a: seq<string>, b: seq<string>): (r: seq<string>)
    ensures |r| <= |a|
  {
    if |a| == 0 then []
    else (if |b| == 0 || a[0] != b[0] then [a[0]] else []) + Diff(a[1..], Tail(b))
  }

  /** `g` is an entry-by-entry prefix of `p`. */
  predicate IsPrefix(g: seq<string>, p: seq<string>)
  {
    |g| <= |p| && g == p[..|g|]
  }

  /** The intersection keeps every entry of `a` exactly when `a` is a prefix of `b`, and then equals `a`. */
  lemma {:induction false} IntersectFull(a: seq<string>, b: seq<string>)
    ensures |Intersect(a, b)| == |a| <==> IsPrefix(a, b)
    ensures IsPrefix(a, b) ==> Intersect(a, b) == a
  {
    if |a| > 0 {
      IntersectFull(a[1..], Tail(b));
      if |b| > 0 && a[0] == b[0] {
        assert IsPrefix(a, b) <==> IsPrefix(a[1..], b[1..]);
      } else {
        assert !IsPrefix(a, b);
        assert |Intersect(a, b)| == |Intersect(a[1..], Tail(b))|;
      }
    }
  }

  /**
    The test `getTypeHint` applies: `isEqual(g, intersect(g, p))` holds
    exactly when `g` is a prefix of `p`.
   */
  lemma IsEqualIntersectIffPrefix(g: seq<string>, p: seq<string>)
    ensures IsEqual(g, Intersect(g, p)) <==> IsPrefix(g, p)
  {
    IntersectFull(g, p);
  }

  /** When `g` is a prefix of `p`, `diff(p, g)` is what follows it in `p`. */
  lemma {:induction false} DiffAfterPrefix(g: seq<string>, p: seq<string>)
    requires IsPrefix(g, p)
    ensures Diff(p, g) == p[|g|..]
  {
    if |p| > 0 {
      if |g| > 0 {
        assert IsPrefix(g[1..], p[1..]);
        DiffAfterPrefix(g[1..], p[1..]);
      } else {
        DiffAfterPrefix([], p[1..]);
      }
    }
  }
}
