/**
  Modifier keywords of code-generator.js: `getVisibility`,
  `getModifiersClass`, `getModifiers` and `mergeArrayMerge`.
 */
module Modifiers {
  import opened Model

  /** `getVisibility`: the PHP keyword; package visibility and unknown values have none. */
  function VisibilityKeyword(v: Visibility): (r: string)
    ensures r == "" <==> v == PackageVisibility || v == NoVisibility
    ensures r == "public" <==> v == PublicVisibility
    ensures r == "protected" <==> v == ProtectedVisibility
    ensures r == "private" <==> v == PrivateVisibility
  {
    match v
    case PackageVisibility => ""
    case PublicVisibility => "public"
    case ProtectedVisibility => "protected"
    case PrivateVisibility => "private"
    case NoVisibility => ""
  }

  /** Position of a keyword in the fixed order static, abstract, final. */
  function Rank(m: string): nat
  {
    if m == "static" then 0 else if m == "abstract" then 1 else 2
  }

  /** `getModifiersClass`. */
  function ModifiersClass(f: Flags): seq<string>
  {
    (if f.isStatic then ["static"] else [])
    + (if f.isAbstract then ["abstract"] else [])
    + (if f.isFinalSpecification || f.isLeaf then ["final"] else [])
  }

  /**
    The class-level modifiers are static, abstract and final, each present
    iff flagged (final for isLeaf or isFinalSpecification), in that order.
   */
  lemma ModifiersClassShape(f: Flags)
    ensures var r := ModifiersClass(f);
      && ("static" in r <==> f.isStatic)
      && ("abstract" in r <==> f.isAbstract)
      && ("final" in r <==> f.isLeaf || f.isFinalSpecification)
      && (forall i :: 0 <= i < |r| ==> r[i] in {"static", "abstract", "final"})
      && (forall i, j :: 0 <= i < j < |r| ==> Rank(r[i]) < Rank(r[j]))
  {
  }

  /** Index of the first occurrence of `v` in `s`. */
  function FirstIndex(s: seq<string>, v: string): (i: nat)
    requires v in s
    ensures i < |s| && s[i] == v && v !in s[..i]
  {
    if s[0] == v then 0
    else
      var k := FirstIndex(s[1..], v);
      assert s[..k + 1] == [s[0]] + s[1..][..k];
      k + 1
  }

  /** `array.splice(array.indexOf(v), 1)` when `v` occurs, `array` unchanged otherwise. */
  function RemoveFirst(s: seq<string>, v: string): seq<string>
  {
    if s == [] then []
    else if s[0] == v then s[1..]
    else [s[0]] + RemoveFirst(s[1..], v)
  }

  /**
    Removing `v` drops exactly its first occurrence, so one copy of `v` leaves
    the multiset of entries; without an occurrence nothing changes.
   */
  lemma {:induction false} RemoveFirstShape(s: seq<string>, v: string)
    ensures v !in s ==> RemoveFirst(s, v) == s
    ensures v in s ==> RemoveFirst(s, v) == s[..FirstIndex(s, v)] + s[FirstIndex(s, v) + 1..]
    ensures multiset(RemoveFirst(s, v)) == multiset(s) - multiset{v}
  {
    if v in s {
      RemovePresent(s, v);
    } else {
      RemoveAbsent(s, v);
    }
  }

  lemma RemovePresent(s: seq<string>, v: string)
    requires v in s
    ensures var i := FirstIndex(s, v);
      && RemoveFirst(s, v) == s[..i] + s[i + 1..]
      && multiset(RemoveFirst(s, v)) == multiset(s) - multiset{v}
  {
    var i := FirstIndex(s, v);
    var a, b := s[..i], s[i + 1..];
    RemoveFirstAt(s, v);
    SplitAround(s, i);
    DropOne(a, v, b);
    assert multiset(RemoveFirst(s, v)) == multiset(a + b);
  }

  /** A sequence is its part before index `i`, its entry at `i`, and its part after. */
  lemma SplitAround(s: seq<string>, i: nat)
    requires i < |s|
    ensures s == s[..i] + [s[i]] + s[i + 1..]
  {
  }

  lemma RemoveAbsent(s: seq<string>, v: string)
    requires v !in s
    ensures RemoveFirst(s, v) == s
    ensures multiset(RemoveFirst(s, v)) == multiset(s) - multiset{v}
  {
    RemoveFirstAbsent(s, v);
    assert multiset(s)[v] == 0;
    assert multiset(s) - multiset{v} == multiset(s);
  }

  /** Leaving out one entry removes one copy of it from the multiset. */
  lemma DropOne(a: seq<string>, v: string, b: seq<string>)
    ensures multiset(a + b) == multiset(a + [v] + b) - multiset{v}
  {
    assert multiset(a + [v] + b) == multiset(a) + multiset{v} + multiset(b);
    assert multiset(a + b) == multiset(a) + multiset(b);
  }

  lemma {:induction false} RemoveFirstAbsent(s: seq<string>, v: string)
    requires v !in s
    ensures RemoveFirst(s, v) == s
  {
    if s != [] {
      assert s[0] != v;
      RemoveFirstAbsent(s[1..], v);
      assert s == [s[0]] + s[1..];
    }
  }

  lemma {:induction false} RemoveFirstAt(s: seq<string>, v: string)
    requires v in s
    ensures RemoveFirst(s, v) == s[..FirstIndex(s, v)] + s[FirstIndex(s, v) + 1..]
  {
    if s[0] != v {
      var t := s[1..];
      InTail(s, v);
      RemoveFirstAt(t, v);
      var k := FirstIndex(t, v);
      assert FirstIndex(s, v) == k + 1;
      assert RemoveFirst(s, v) == [s[0]] + (t[..k] + t[k + 1..]);
      ConsSplit(s[0], t, k);
      assert [s[0]] + t == s;
    }
  }

  /** An entry that is not the head lies in the tail. */
  lemma InTail(s: seq<string>, v: string)
    requires v in s && s[0] != v
    ensures v in s[1..]
  {
    var j :| 0 <= j < |s| && s[j] == v;
    assert s[1..][j - 1] == v;
  }

  /** Dropping entry `k` of the tail is dropping entry `k + 1` of the whole list. */
  lemma ConsSplit(x: string, t: seq<string>, k: nat)
    requires k < |t|
    ensures [x] + (t[..k] + t[k + 1..]) == ([x] + t)[..k + 1] + ([x] + t)[k + 2..]
  {
    assert ([x] + t)[..k + 1] == [x] + t[..k];
    assert ([x] + t)[k + 2..] == t[k + 1..];
  }

  /** The non-empty entries of `s`, in order. */
  function NonEmpty(s: seq<string>): (r: seq<string>)
    ensures forall x :: x in r <==> x in s && x != ""
  {
    if s == [] then [] else (if s[0] != "" then [s[0]] else []) + NonEmpty(s[1..])
  }

  /** `array2` after the removals `mergeArrayMerge` makes for each entry of `array1`. */
  function RemoveEach(a2: seq<string>, a1: seq<string>): seq<string>
    decreases |a1|
  {
    if a1 == [] then a2
    else RemoveEach(if a1[0] != "" then RemoveFirst(a2, a1[0]) else a2, a1[1..])
  }

  /** Each non-empty entry of `array1` removes one occurrence of itself from `array2`, if it has one. */
  lemma {:induction false} RemoveEachMultiset(a2: seq<string>, a1: seq<string>)
    ensures multiset(RemoveEach(a2, a1)) == multiset(a2) - multiset(NonEmpty(a1))
    decreases |a1|
  {
    if a1 != [] {
      var v := a1[0];
      var removed: multiset<string> := if v != "" then multiset{v} else multiset{};
      var step := if v != "" then RemoveFirst(a2, v) else a2;
      RemoveEachMultiset(step, a1[1..]);
      if v != "" { RemoveFirstShape(a2, v); }
      assert multiset(step) == multiset(a2) - removed;
      assert NonEmpty(a1) == (if v != "" then [v] else []) + NonEmpty(a1[1..]);
      assert multiset(NonEmpty(a1)) == removed + multiset(NonEmpty(a1[1..]));
      SubtractTwice(multiset(a2), removed, multiset(NonEmpty(a1[1..])));
    }
  }

  lemma SubtractTwice(a: multiset<string>, b: multiset<string>, c: multiset<string>)
    ensures (a - b) - c == a - (b + c)
  {
    assert forall x :: ((a - b) - c)[x] == (a - (b + c))[x];
  }

  /** `mergeArrayMerge(array1, array2)`. */
  function MergeArrayMerge(a1: seq<string>, a2: seq<string>): (r: seq<string>)
    ensures |r| >= |a1| && r[..|a1|] == a1
  {
    a1 + RemoveEach(a2, a1)
  }

  /**
    The merge keeps `array1` unchanged as a prefix and follows it with
    `array2` from which one occurrence of each non-empty entry of `array1` has
    been removed.
   */
  lemma MergeKeepsAndRemoves(a1: seq<string>, a2: seq<string>)
    ensures MergeArrayMerge(a1, a2)[..|a1|] == a1
    ensures multiset(MergeArrayMerge(a1, a2)[|a1|..]) == multiset(a2) - multiset(NonEmpty(a1))
  {
    assert MergeArrayMerge(a1, a2)[|a1|..] == RemoveEach(a2, a1);
    RemoveEachMultiset(a2, a1);
  }

  /** The merge drops nothing from `array2` that `array1` does not mention. */
  lemma MergeDisjoint(a1: seq<string>, a2: seq<string>)
    requires forall x :: x in a1 ==> x !in a2
    ensures MergeArrayMerge(a1, a2) == a1 + a2
  {
    RemoveEachDisjoint(a2, a1);
  }

  lemma {:induction false} RemoveEachDisjoint(a2: seq<string>, a1: seq<string>)
    requires forall x :: x in a1 ==> x !in a2
    ensures RemoveEach(a2, a1) == a2
  {
    if a1 != [] {
      assert a1[0] !in a2;
      RemoveFirstShape(a2, a1[0]);
      assert RemoveEach(a2, a1) == RemoveEach(a2, a1[1..]);
      RemoveEachDisjoint(a2, a1[1..]);
    }
  }

  /** `getModifiers`: the visibility keyword, if any, merged with the class-level modifiers. */
  function ModifiersOf(f: Flags): seq<string>
  {
    MergeArrayMerge(VisibilityPart(f), ModifiersClass(f))
  }

  /** The visibility part of `getModifiers`. */
  function VisibilityPart(f: Flags): (r: seq<string>)
    ensures forall x :: x in r ==> x in {"public", "protected", "private"}
  {
    var vis := VisibilityKeyword(f.visibility);
    if vis != "" then [vis] else []
  }

  /**
    `getModifiers` yields the visibility keyword (none for package or unknown
    visibility) followed by static, abstract and final, each present iff
    flagged, in that fixed order; final comes from isLeaf or
    isFinalSpecification.
   */
  lemma ModifiersLayout(f: Flags)
    ensures ModifiersOf(f) == VisibilityPart(f) + ModifiersClass(f)
  {
    var head := VisibilityPart(f);
    var tail := ModifiersClass(f);
    ModifiersClassShape(f);
    assert forall x :: x in head ==> x !in tail;
    MergeDisjoint(head, tail);
  }

  /** A keyword among static, abstract and final is in `getModifiers` iff its flag is set. */
  lemma ModifiersMembership(f: Flags)
    ensures "static" in ModifiersOf(f) <==> f.isStatic
    ensures "abstract" in ModifiersOf(f) <==> f.isAbstract
    ensures "final" in ModifiersOf(f) <==> f.isLeaf || f.isFinalSpecification
  {
    ModifiersLayout(f);
    var head := VisibilityPart(f);
    var tail := ModifiersClass(f);
    ModifiersClassShape(f);
    assert forall x :: x in head + tail <==> x in head || x in tail;
  }

  /**
    Merging `[public]` with `[abstract, static]` keeps the explicit list first;
    swapping the arguments keeps the other list's order first instead.
   */
  lemma MergeExamples()
    ensures MergeArrayMerge(["public"], ["abstract", "static"]) == ["public", "abstract", "static"]
    ensures MergeArrayMerge(["abstract", "static"], ["public"]) == ["abstract", "static", "public"]
  {
    MergeDisjoint(["public"], ["abstract", "static"]);
    MergeDisjoint(["abstract", "static"], ["public"]);
  }

  /** `NonEmpty` keeps every occurrence of a non-empty entry. */
  lemma {:induction false} NonEmptyCount(s: seq<string>, v: string)
    requires v != ""
    ensures multiset(NonEmpty(s))[v] == multiset(s)[v]
    decreases |s|
  {
    if s != [] {
      NonEmptyCount(s[1..], v);
      assert s == [s[0]] + s[1..];
      assert NonEmpty(s) == (if s[0] != "" then [s[0]] else []) + NonEmpty(s[1..]);
    }
  }

  /**
    A non-empty keyword that `array2` holds no more often than `array1`
    appears in the merge only in `array1`'s places: exactly as often as in
    `array1`, and not at all after it. In particular a keyword once in each
    list appears once, at its place in `array1`.
   */
  lemma MergeOverlap(a1: seq<string>, a2: seq<string>, v: string)
    requires v != "" && multiset(a2)[v] <= multiset(a1)[v]
    ensures v !in MergeArrayMerge(a1, a2)[|a1|..]
    ensures multiset(MergeArrayMerge(a1, a2))[v] == multiset(a1)[v]
  {
    var m := MergeArrayMerge(a1, a2);
    MergeKeepsAndRemoves(a1, a2);
    NonEmptyCount(a1, v);
    assert multiset(m[|a1|..])[v] == 0;
    assert m == m[..|a1|] + m[|a1|..];
  }

  /** Merging `[public, static]` with `[static, final]` keeps one `static`, in the first list's place. */
  lemma MergeOverlapExample()
    ensures MergeArrayMerge(["public", "static"], ["static", "final"]) == ["public", "static", "final"]
  {
    var s := ["static", "final"];
    assert "public" !in s;
    RemoveFirstShape(s, "public");
    assert RemoveFirst(s, "static") == ["final"];
    assert RemoveEach(["final"], []) == ["final"];
    assert RemoveEach(["final"], ["static"]) == RemoveEach(["final"], []) by {
      assert "static" !in ["final"];
      RemoveFirstShape(["final"], "static");
      assert ["static"][1..] == [];
    }
    assert RemoveEach(s, ["static"]) == RemoveEach(["final"], ["static"][1..]);
    assert RemoveEach(s, ["public", "static"]) == RemoveEach(s, ["static"]) by {
      assert ["public", "static"][1..] == ["static"];
    }
  }
}
