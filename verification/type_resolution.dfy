/**
  Type expressions of code-generator.js: `getDocumentType` (the form used in
  doc comments), `getType` (the form that decides default return values and
  whether a type hint is allowed) and `getTypeHint` (the form written into
  parameter lists, relative to the current unit's namespace).
 */
module TypeResolution {
  import opened Wrappers
  import opened Model
  import opened Text
  import opened Namespaces

  /** PHP's namespace separator, a single backslash. */
  const Separator: string := "\\"

  /** Multiplicities that mark a collection. */
  const CollectionMultiplicities: set<string> := {"0..*", "1..*", "*"}

  /** `isAllowedTypeHint`: every type except "void". */
  predicate IsAllowedTypeHint(t: string)
  {
    t != "void"
  }

  /**
    The model element a feature's type refers to, when it is one with a
    non-empty name: for an association end its `reference`, otherwise its `type`.
   */
  function ReferencedElement(f: Feature): Option<(string, seq<Owner>)>
  {
    match f.typeRef
    case ElementType(_, n, o) => if |n| > 0 then Some((n, o)) else None
    case _ => None
  }

  /** A non-empty free-form type string; association ends never have one. */
  function TypeText(f: Feature): Option<string>
  {
    if !f.isEnd && f.typeRef.TypeName? && |f.typeRef.text| > 0 then Some(f.typeRef.text) else None
  }

  /** An element's fully qualified name: its package path and name, each led by a separator. */
  function QualifiedName(owners: seq<Owner>, name: string): (r: string)
    ensures |r| > |name| && r[0] == '\\'
    ensures r[|r| - |name| - 1..] == Separator + name
    ensures NamespacePath(owners) == [] ==> r == Separator + name
  {
    var ns := Join(NamespacePath(owners), Separator);
    (if ns != "" then Separator + ns else "") + Separator + name
  }

  /**
    The qualified name spells out the package path: when the package names
    are non-empty and neither they nor the element's name contain a
    backslash, splitting what follows the leading backslash at each
    backslash gives the packages, outermost first, and then the name.
   */
  lemma QualifiedNameParts(owners: seq<Owner>, name: string)
    requires forall i :: 0 <= i < |NamespacePath(owners)| ==>
      NamespacePath(owners)[i] != "" && '\\' !in NamespacePath(owners)[i]
    requires '\\' !in name
    ensures Split(QualifiedName(owners, name)[1..], '\\') == NamespacePath(owners) + [name]
  {
    var path := NamespacePath(owners);
    var parts := path + [name];
    JoinAppend(path, name, Separator);
    if path != [] {
      JoinNonEmpty(path, Separator);
      assert QualifiedName(owners, name)[1..] == Join(parts, Separator);
    } else {
      assert QualifiedName(owners, name)[1..] == Join(parts, Separator);
    }
    assert forall i :: 0 <= i < |parts| ==> '\\' !in parts[i] by {
      forall i | 0 <= i < |parts|
        ensures '\\' !in parts[i]
      {
        if i < |path| { assert parts[i] == path[i]; }
      }
    }
    SplitJoin(parts, '\\');
  }

  /** The type name before any collection marker. */
  function BaseDocumentType(f: Feature): (r: string)
    ensures ReferencedElement(f).Some? ==> r == QualifiedName(ReferencedElement(f).value.1, ReferencedElement(f).value.0)
    ensures ReferencedElement(f).None? && TypeText(f).Some? ==> r == TypeText(f).value
    ensures ReferencedElement(f).None? && TypeText(f).None? ==> r == "void"
  {
    match ReferencedElement(f)
    case Some((n, o)) => QualifiedName(o, n)
    case None =>
      match TypeText(f)
      case Some(t) => t
      case None => "void"
  }

  /** The multiplicity marks a collection and the type is not "void". */
  predicate IsCollection(f: Feature, base: string)
  {
    f.multiplicity != "" && IsAllowedTypeHint(base) && Trim(f.multiplicity) in CollectionMultiplicities
  }

  /** `getDocumentType`; `None` stands for a `null` element. */
  function DocumentType(e: Option<Feature>): string
  {
    match e
    case None => "void"
    case Some(f) =>
      var base := BaseDocumentType(f);
      if IsCollection(f, base) then base + "[]" else base
  }

  /**
    `getDocumentType` as written: `getNamespaces` returns a string (the
    package names run together, `""` at top level, see
    NamespacePathAsWritten), and a string has no `map` method, so every
    feature whose type is a model element throws a `TypeError`. The other
    features get the same type as in DocumentType.
   */
  function DocumentTypeAsWritten(e: Option<Feature>): (r: Result<string, string>)
    ensures r.Failure? <==> e.Some? && ReferencedElement(e.value).Some?
    ensures r.Success? ==> r.value == DocumentType(e)
  {
    match e
    case None => Success("void")
    case Some(f) =>
      if ReferencedElement(f).Some? then Failure("TypeError: map is not a function")
      else Success(DocumentType(e))
  }

  /**
    An attribute typed by a top-level class `User` already throws as
    written, while the corrected type is `\User`.
   */
  lemma DocumentTypeAsWrittenThrows()
    ensures var f := Feature("owner", false, ElementType(1, "User", [ModelOwner]), "", "", "",
                             Flags(PublicVisibility, false, false, false, false), true);
      && DocumentTypeAsWritten(Some(f)).Failure?
      && DocumentType(Some(f)) == "\\User"
  {
    var f := Feature("owner", false, ElementType(1, "User", [ModelOwner]), "", "", "",
                     Flags(PublicVisibility, false, false, false, false), true);
    var owners := [ModelOwner];
    assert owners[..0] == [];
    assert NamespacePath(owners) == [];
    assert BaseDocumentType(f) == "\\User";
  }

  lemma {:induction false} ContainsSuffix(s: string, t: string)
    ensures Contains(s + t, t)
  {
    if |s| > 0 {
      ContainsSuffix(s[1..], t);
      assert (s + t)[1..] == s[1..] + t;
    } else {
      assert (s + t)[..|t|] == t;
    }
  }

  /**
    `getDocumentType` resolves a null element to "void", a free-form type
    string to itself and a model element or association-end reference to its
    qualified name (backslash-led, ending in `\name`), and appends "[]"
    exactly when the trimmed multiplicity is a collection one and the type is
    not "void".
   */
  lemma DocumentTypeCases(e: Option<Feature>)
    ensures e.None? ==> DocumentType(e) == "void"
    ensures e.Some? ==>
      var f := e.value;
      var marker := if Trim(f.multiplicity) in CollectionMultiplicities then "[]" else "";
      && (ReferencedElement(f).None? && TypeText(f).None? ==> DocumentType(e) == "void")
      && (ReferencedElement(f).None? && TypeText(f) == Some("void") ==> DocumentType(e) == "void")
      && (ReferencedElement(f).None? && TypeText(f).Some? && TypeText(f).value != "void" ==>
            DocumentType(e) == TypeText(f).value + marker)
      && (ReferencedElement(f).Some? ==>
            DocumentType(e) == QualifiedName(ReferencedElement(f).value.1, ReferencedElement(f).value.0) + marker)
  {
    if e.Some? {
      var f := e.value;
      if Trim(f.multiplicity) in CollectionMultiplicities {
        assert f.multiplicity != "";
      }
    }
  }

  /** A string that contains `t` contains `t`'s first character. */
  lemma {:induction false} ContainsHead(s: string, t: string)
    requires |t| > 0 && Contains(s, t)
    ensures t[0] in s
  {
    if s[..|t|] == t {
      assert s[0] == t[0];
    } else {
      ContainsHead(s[1..], t);
    }
  }

  lemma VoidHasNoMarker()
    ensures !Contains("void", "[]")
  {
    if Contains("void", "[]") {
      ContainsHead("void", "[]");
    }
  }

  /** `getType`: the document type, or "array" when that carries a collection marker. */
  function TypeOf(e: Option<Feature>): (r: string)
    ensures e.None? ==> r == "void"
    ensures r == "array" || r == DocumentType(e)
    ensures e.Some? && e.value.multiplicity != "" && Contains(DocumentType(e), "[]") ==> r == "array"
    ensures r == "array" && DocumentType(e) != "array" ==>
      e.Some? && e.value.multiplicity != "" && Contains(DocumentType(e), "[]")
  {
    match e
    case None => "void"
    case Some(f) =>
      var t := DocumentType(e);
      VoidHasNoMarker();
      if f.multiplicity != "" && IsAllowedTypeHint(t) && Contains(t, "[]") then "array" else t
  }

  /** A resolved type with a collection multiplicity is hinted as "array". */
  lemma CollectionIsArray(f: Feature)
    requires IsCollection(f, BaseDocumentType(f))
    ensures TypeOf(Some(f)) == "array"
  {
    ContainsSuffix(BaseDocumentType(f), "[]");
  }

  lemma RelativePath(current: seq<string>, path: seq<string>)
    ensures IsEqual(current, Intersect(current, path)) <==> IsPrefix(current, path)
    ensures IsPrefix(current, path) ==> Diff(path, current) == path[|current|..]
  {
    IsEqualIntersectIffPrefix(current, path);
    if IsPrefix(current, path) {
      DiffAfterPrefix(current, path);
    }
  }

  /**
    `getTypeHint` relative to the namespace `current` of the unit being
    written. A model element is written relatively (the path segments after
    `current`, then its name) when `current` is a prefix of its path, and
    absolutely (a leading separator, the whole path, then its name) otherwise;
    a free-form string is kept and anything else is "void". No collection
    marker is added.
   */
  function TypeHint(e: Option<Feature>, current: seq<string>): (r: string)
    ensures e.None? ==> r == "void"
    ensures e.Some? && ReferencedElement(e.value).Some? ==>
      var name := ReferencedElement(e.value).value.0;
      var path := NamespacePath(ReferencedElement(e.value).value.1);
      && (IsPrefix(current, path) ==>
            var rel := Join(path[|current|..], Separator);
            r == if rel == "" then name else rel + Separator + name)
      && (!IsPrefix(current, path) ==> r == Separator + Join(path, Separator) + Separator + name)
    ensures e.Some? && ReferencedElement(e.value).None? ==>
      r == (if TypeText(e.value).Some? then TypeText(e.value).value else "void")
  {
    match e
    case None => "void"
    case Some(f) =>
      match ReferencedElement(f)
      case Some((n, o)) =>
        var path := NamespacePath(o);
        RelativePath(current, path);
        var ns := if IsEqual(current, Intersect(current, path))
                  then Join(Diff(path, current), Separator)
                  else Separator + Join(path, Separator);
        if |ns| > 0 then ns + Separator + n else n
      case None =>
        match TypeText(f)
        case Some(t) => t
        case None => "void"
  }

  /** When the unit's namespace is the element's whole path, the hint is the bare name. */
  lemma TypeHintSameNamespace(f: Feature, current: seq<string>)
    requires ReferencedElement(f).Some?
    requires NamespacePath(ReferencedElement(f).value.1) == current
    ensures TypeHint(Some(f), current) == ReferencedElement(f).value.0
  {
    assert current[|current|..] == [];
  }
}
