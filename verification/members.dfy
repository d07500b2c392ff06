/**
  Member synthesis of code-generator.js: doc comments, method bodies, the
  package declaration, the implicit constructor, fields, methods and the
  overrides a class writes for its superclass and interfaces.
 */
module Members {
  import opened Wrappers
  import opened Text
  import opened Model
  import opened CodeWriter
  import opened Namespaces
  import opened TypeResolution
  import opened Modifiers

  /** The indentation stack, the sections and the indentation unit are as before. */
  predicate SameFrame(w: Writer, r: Writer)
  {
    r.indentations == w.indentations && r.sections == w.sections && r.indentString == w.indentString
  }

  /** `r` extends `w` by lines at the end and leaves everything else alone. */
  predicate Appended(w: Writer, r: Writer)
  {
    |r.lines| >= |w.lines| && r.lines[..|w.lines|] == w.lines && SameFrame(w, r)
  }

  /** The last line is the empty line. */
  predicate LastBlank(w: Writer)
  {
    |w.lines| > 0 && w.lines[|w.lines| - 1] == ""
  }

  /**
    `r` extends `w` and, unless it wrote nothing, ends in an empty line: the
    shape of every member loop, which follows each member by `writeLine()`.
   */
  predicate Grows(w: Writer, r: Writer)
  {
    Appended(w, r) && (r.lines == w.lines || LastBlank(r))
  }

  lemma GrowsTrans(a: Writer, b: Writer, c: Writer)
    requires Grows(a, b) && Grows(b, c)
    ensures Grows(a, c)
  {
    AppendedTrans(a, b, c);
  }

  /** Any extension followed by `writeLine()` grows. */
  lemma BlankAfter(w: Writer, r: Writer)
    requires Appended(w, r)
    ensures Grows(w, WriteLine(r, ""))
  {
    AppendedBy(r, WriteLine(r, ""), [""]);
    AppendedTrans(w, r, WriteLine(r, ""));
  }

  lemma AppendedBy(w: Writer, r: Writer, extra: seq<string>)
    requires r.lines == w.lines + extra && SameFrame(w, r)
    ensures Appended(w, r)
  {
    assert r.lines[..|w.lines|] == w.lines;
  }

  /** Lines written in two parts after `w` keep `w`'s lines in front. */
  lemma AppendedBy2(w: Writer, r: Writer, a: seq<string>, b: seq<string>)
    requires r.lines == w.lines + a + b && SameFrame(w, r)
    ensures Appended(w, r)
  {
    assert r.lines[..|w.lines|] == (w.lines + a)[..|w.lines|];
  }

  /** Lines written in three parts after `w` keep `w`'s lines in front. */
  lemma AppendedBy3(w: Writer, r: Writer, a: seq<string>, b: seq<string>, c: seq<string>)
    requires r.lines == w.lines + a + b + c && SameFrame(w, r)
    ensures Appended(w, r)
  {
    assert r.lines[..|w.lines|] == (w.lines + a + b)[..|w.lines|];
    assert (w.lines + a + b)[..|w.lines|] == (w.lines + a)[..|w.lines|];
  }

  lemma AppendedTrans(a: Writer, b: Writer, c: Writer)
    requires Appended(a, b) && Appended(b, c)
    ensures Appended(a, c)
  {
    assert c.lines[..|a.lines|] == c.lines[..|b.lines|][..|a.lines|];
  }

  /** `getIndentString`: one tab, or as many spaces as `indentSpaces` says (none if it is not positive). */
  function IndentString(opts: Options): (r: string)
    ensures opts.useTab ==> r == "\t"
    ensures !opts.useTab ==> |r| == (if opts.indentSpaces > 0 then opts.indentSpaces else 0)
    ensures !opts.useTab ==> forall i :: 0 <= i < |r| ==> r[i] == ' '
  {
    if opts.useTab then "\t" else Spaces(if opts.indentSpaces > 0 then opts.indentSpaces else 0)
  }

  /**
    An indentation of zero spaces is an empty string, which the writer's
    constructor replaces by its four-space default.
   */
  lemma ZeroSpacesIndentFour(opts: Options)
    requires !opts.useTab && opts.indentSpaces <= 0
    ensures New(IndentString(opts)).indentString == "    "
  {
  }

  /** One body line of a doc comment. */
  function DocLine(line: string): (r: string)
    ensures |r| >= 2 && r[..2] == " *"
  {
    if line != "" then " * " + Trim(line) else " *"
  }

  /** The body lines of a doc comment, one per line of the text. */
  function DocBody(ls: seq<string>): (r: seq<string>)
    ensures |r| == |ls| && forall i :: 0 <= i < |ls| ==> r[i] == DocLine(ls[i])
  {
    seq(|ls|, i requires 0 <= i < |ls| => DocLine(ls[i]))
  }

  /**
    The lines `writeDoc` writes: nothing unless doc comments are enabled;
    otherwise an opening `/**`, one ` *` line per line of the trimmed text and
    a closing ` */`.
   */
  function DocLines(text: string, phpDoc: bool): (r: seq<string>)
    ensures !phpDoc ==> r == []
    ensures phpDoc ==> |r| == |Split(Trim(text), '\n')| + 2
    ensures phpDoc ==> r[0] == "/**" && r[|r| - 1] == " */"
    ensures phpDoc ==> forall i :: 0 < i < |r| - 1 ==> |r[i]| >= 2 && r[i][..2] == " *"
    ensures phpDoc ==> forall i :: 0 <= i < |Split(Trim(text), '\n')| ==> r[i + 1] == DocLine(Split(Trim(text), '\n')[i])
  {
    if !phpDoc then []
    else
      var ls := Split(Trim(text), '\n');
      var body := DocBody(ls);
      assert forall i :: 0 <= i < |ls| ==> (["/**"] + body + [" */"])[i + 1] == body[i];
      ["/**"] + body + [" */"]
  }

  /** The text a doc-comment body line carries: what follows ` * `, or nothing for a bare ` *`. */
  function DocText(line: string): string
  {
    if |line| >= 3 && line[..3] == " * " then line[3..] else ""
  }

  /** The texts of the body lines of a doc comment, between `/**` and ` */`. */
  function BodyTexts(r: seq<string>): (t: seq<string>)
    requires |r| >= 2
    ensures |t| == |r| - 2 && forall i :: 0 <= i < |t| ==> t[i] == DocText(r[i + 1])
  {
    seq(|r| - 2, i requires 0 <= i < |r| - 2 => DocText(r[i + 1]))
  }

  /**
    A doc comment gives back its text: when no line of the trimmed text has
    surrounding blanks, the texts of the body lines, joined by line feeds,
    are the trimmed text.
   */
  lemma DocRoundTrip(text: string)
    requires forall line :: line in Split(Trim(text), '\n') ==> Trim(line) == line
    ensures Join(BodyTexts(DocLines(text, true)), "\n") == Trim(text)
  {
    var ls := Split(Trim(text), '\n');
    var texts := BodyTexts(DocLines(text, true));
    forall i | 0 <= i < |ls|
      ensures texts[i] == ls[i]
    {
      DocTextAt(text, i);
    }
    assert texts == ls;
    JoinSplit(Trim(text), '\n');
  }

  lemma DocTextAt(text: string, i: nat)
    requires forall line :: line in Split(Trim(text), '\n') ==> Trim(line) == line
    requires i < |Split(Trim(text), '\n')|
    ensures DocText(DocLines(text, true)[i + 1]) == Split(Trim(text), '\n')[i]
  {
    var ls := Split(Trim(text), '\n');
    assert ls[i] in ls;
    DocTextOfLine(ls[i]);
  }

  /** The text of a doc-comment line is the line it was made from, when that has no surrounding blanks. */
  lemma DocTextOfLine(line: string)
    requires Trim(line) == line
    ensures DocText(DocLine(line)) == line
  {
    if line != "" {
      assert (" * " + line)[3..] == line;
    }
  }

  /** `writeDoc`. */
  function WriteDoc(w: Writer, text: string, opts: Options): (r: Writer)
    ensures r.lines == w.lines + Indented(Prefix(w), DocLines(text, opts.phpDoc))
    ensures SameFrame(w, r)
  {
    WriteLines(w, DocLines(text, opts.phpDoc))
  }

  /**
    `writeSpec`: the trimmed specification, one written line per line of it;
    the written texts contain no line feed and join back to the trimmed text.
   */
  function WriteSpec(w: Writer, text: string): (r: Writer)
    ensures r.lines == w.lines + Indented(Prefix(w), Split(Trim(text), '\n'))
    ensures Join(Split(Trim(text), '\n'), "\n") == Trim(text)
    ensures SameFrame(w, r)
  {
    JoinSplit(Trim(text), '\n');
    WriteLines(w, Split(Trim(text), '\n'))
  }

  /**
    `writePackageDeclaration`: a `namespace` line naming the unit's path with
    backslashes, when the path is non-empty and does not join to "".
   */
  function WritePackageDeclaration(w: Writer, path: seq<string>): (r: Writer)
    ensures |path| > 0 && Join(path, Separator) != "" ==>
      r.lines == w.lines + [Prefix(w) + "namespace " + Join(path, Separator)]
    ensures !(|path| > 0 && Join(path, Separator) != "") ==> r == w
    ensures SameFrame(w, r)
  {
    if |path| > 0 && Join(path, Separator) != "" then
      var text := "namespace " + Join(path, Separator);
      assert Render(Prefix(w), text) == Prefix(w) + "namespace " + Join(path, Separator);
      WriteLine(w, text)
    else w
  }

  /** A path whose first package is named always yields a declaration (an empty path never does). */
  lemma PackageDeclarationWritten(w: Writer, path: seq<string>)
    requires |path| > 0 && path[0] != ""
    ensures WritePackageDeclaration(w, path).lines == w.lines + [Prefix(w) + "namespace " + Join(path, Separator)]
  {
    JoinNonEmpty(path, Separator);
  }

  /** Some operation's name contains `__construct`. */
  predicate HasConstructor(ops: seq<Operation>)
  {
    exists i :: 0 <= i < |ops| && Contains(ops[i].name, "__construct")
  }

  /** The constructor is synthesized: named class, no superclass, no constructor-like operation. */
  predicate NeedsConstructor(c: Node)
    requires c.Classifier?
  {
    |c.name| > 0 && |c.superclasses| == 0 && !HasConstructor(c.operations)
  }

  /**
    `writeConstructor`: after the class's doc comment, exactly the lines
    `[visibility ]function __construct()`, `{` and `}` when the constructor is
    synthesized, and nothing otherwise.
   */
  function WriteConstructor(w: Writer, c: Node, opts: Options): (r: Writer)
    requires c.Classifier?
    ensures !NeedsConstructor(c) ==> r == w
    ensures NeedsConstructor(c) ==>
      var vis := VisibilityKeyword(c.flags.visibility);
      r.lines == w.lines + Indented(Prefix(w), DocLines(c.documentation, opts.phpDoc))
                 + [Prefix(w) + (if vis != "" then vis + " " else "") + "function __construct()",
                    Prefix(w) + "{", Prefix(w) + "}"]
    ensures SameFrame(w, r)
  {
    if NeedsConstructor(c) then
      var w1 := WriteDoc(w, c.documentation, opts);
      var vis := VisibilityKeyword(c.flags.visibility);
      var signature := Join((if vis != "" then [vis] else []) + ["function __construct()"], " ");
      ConstructorSignature(vis);
      ThreeLines(w1, signature, "{", "}");
      assert Prefix(w1) == Prefix(w);
      Assoc(Prefix(w), if vis != "" then vis + " " else "", "function __construct()");
      WriteLine(WriteLine(WriteLine(w1, signature), "{"), "}")
    else w
  }

  /** The constructor's signature: the visibility keyword, if any, a space, then `function __construct()`. */
  lemma ConstructorSignature(vis: string)
    ensures Join((if vis != "" then [vis] else []) + ["function __construct()"], " ")
            == (if vis != "" then vis + " " else "") + "function __construct()"
  {
    var lead := if vis != "" then [vis] else [];
    JoinTerms(lead, "function __construct()", [], " ");
    assert lead + ["function __construct()"] == lead + ["function __construct()"] + [];
  }

  /** Three non-empty lines written in a row, each under the unchanged prefix. */
  lemma ThreeLines(w: Writer, a: string, b: string, c: string)
    requires a != "" && b != "" && c != ""
    ensures WriteLine(WriteLine(WriteLine(w, a), b), c).lines == w.lines + [Prefix(w) + a, Prefix(w) + b, Prefix(w) + c]
    ensures SameFrame(w, WriteLine(WriteLine(WriteLine(w, a), b), c))
  {
  }

  /** The default-value part of a field declaration. */
  function DefaultPart(f: Feature): string
  {
    if |f.defaultValue| > 0 then " = " + f.defaultValue else ""
  }

  predicate IsConstant(f: Feature)
  {
    f.flags.isFinalSpecification || f.flags.isLeaf
  }

  /** The declaration line `writeMemberVariable` writes, assembled from its terms as the source does. */
  function FieldDeclaration(f: Feature): string
  {
    var mods := ModifiersOf(f.flags);
    var terms := if IsConstant(f) then ["const " + ToUpper(f.name)]
                 else (if |mods| > 0 then [Join(mods, " ")] else []) + ["$" + f.name];
    Join(terms + (if |f.defaultValue| > 0 then ["= " + f.defaultValue] else []), " ") + ";"
  }

  /** The separator and default value that follow the declared name. */
  lemma {:induction false} DefaultTail(f: Feature)
    ensures var dflt := if |f.defaultValue| > 0 then ["= " + f.defaultValue] else [];
      (if dflt == [] then "" else " " + dflt[0]) == DefaultPart(f)
  {
    if |f.defaultValue| > 0 {
      assert " " + ("= " + f.defaultValue) == " = " + f.defaultValue;
    }
  }

  /**
    A final or leaf field becomes `const NAME` with the name upper-cased and
    neither `$` nor modifiers, followed by ` = default` when there is a
    default, and ends in `;`.
   */
  lemma {:induction false} ConstantDeclarationShape(f: Feature)
    requires IsConstant(f)
    ensures FieldDeclaration(f) == "const " + ToUpper(f.name) + DefaultPart(f) + ";"
  {
    var dflt := if |f.defaultValue| > 0 then ["= " + f.defaultValue] else [];
    var x := "const " + ToUpper(f.name);
    JoinTerms([], x, dflt, " ");
    DefaultTail(f);
    assert [] + [x] + dflt == [x] + dflt;
  }

  /**
    Any other field is its modifiers, if any, and `$name`, followed by
    ` = default` when there is a default, and ends in `;`.
   */
  lemma {:induction false} VariableDeclarationShape(f: Feature)
    requires !IsConstant(f)
    ensures var mods := ModifiersOf(f.flags);
      FieldDeclaration(f) == (if |mods| > 0 then Join(mods, " ") + " " else "") + ("$" + f.name) + DefaultPart(f) + ";"
  {
    var mods := ModifiersOf(f.flags);
    var lead := if |mods| > 0 then [Join(mods, " ")] else [];
    var x := "$" + f.name;
    var dflt := if |f.defaultValue| > 0 then ["= " + f.defaultValue] else [];
    assert FieldDeclaration(f) == Join(lead + [x] + dflt, " ") + ";";
    DeclarationTerms(lead, x, f);
    assert (if lead == [] then "" else lead[0] + " ") == (if |mods| > 0 then Join(mods, " ") + " " else "");
  }

  /** A declaration assembled from an optional lead term, one term and an optional default. */
  lemma {:induction false} DeclarationTerms(lead: seq<string>, x: string, f: Feature)
    requires |lead| <= 1
    ensures Join(lead + [x] + (if |f.defaultValue| > 0 then ["= " + f.defaultValue] else []), " ") + ";"
            == (if lead == [] then "" else lead[0] + " ") + x + DefaultPart(f) + ";"
  {
    JoinTerms(lead, x, if |f.defaultValue| > 0 then ["= " + f.defaultValue] else [], " ");
    DefaultTail(f);
  }

  /**
    `writeMemberVariable`: nothing for an unnamed field; otherwise its doc
    comment and exactly one declaration line.
   */
  function WriteMemberVariable(w: Writer, f: Feature, opts: Options): (r: Writer)
    ensures f.name == "" ==> r == w
    ensures f.name != "" ==>
      r.lines == w.lines
        + Indented(Prefix(w), DocLines("@var " + DocumentType(Some(f)) + " " + Trim(f.documentation), opts.phpDoc))
        + [Prefix(w) + FieldDeclaration(f)]
    ensures SameFrame(w, r)
  {
    if f.name == "" then w
    else
      var doc := "@var " + DocumentType(Some(f)) + " " + Trim(f.documentation);
      WriteLine(WriteDoc(w, doc, opts), FieldDeclaration(f))
  }

  /** The typed reference names the node with identity `id`. */
  predicate RefersTo(t: TypeRef, id: nat)
  {
    t.ElementType? && t.id == id
  }

  /**
    The field an association contributes to the node `id`: the second end
    when the first refers to the node and the second is navigable, else the
    first end under the mirrored test, else none.
   */
  function AssociationField(a: Association, id: nat): (r: Option<Feature>)
    ensures r.Some? <==>
      (RefersTo(a.end1.typeRef, id) && a.end2.navigable) || (RefersTo(a.end2.typeRef, id) && a.end1.navigable)
    ensures r.Some? ==> r.value == a.end1 || r.value == a.end2
    ensures RefersTo(a.end1.typeRef, id) && a.end2.navigable ==> r == Some(a.end2)
  {
    if RefersTo(a.end1.typeRef, id) && a.end2.navigable then Some(a.end2)
    else if RefersTo(a.end2.typeRef, id) && a.end1.navigable then Some(a.end1)
    else None
  }

  /** The default return statement for a return type. */
  function ReturnStatement(t: string): (r: string)
    ensures r == "return false" <==> t == "boolean" || t == "bool"
    ensures r == "return 0" <==> t in {"int", "long", "short", "byte"}
    ensures r == "return 0.0" <==> t in {"float", "double"}
    ensures r == "return '0'" <==> t == "char"
    ensures r == "return \"\"" <==> t == "string"
    ensures r == "return array()" <==> t == "array"
    ensures r == "return null" <==>
      t !in {"boolean", "bool", "int", "long", "short", "byte", "float", "double", "char", "string", "array"}
  {
    if t == "boolean" || t == "bool" then "return false"
    else if t == "int" || t == "long" || t == "short" || t == "byte" then "return 0"
    else if t == "float" || t == "double" then "return 0.0"
    else if t == "char" then "return '0'"
    else if t == "string" then "return \"\""
    else if t == "array" then "return array()"
    else "return null"
  }

  /**
    The lines inside a method's braces: the trimmed specification line by
    line when there is one; otherwise the TODO marker and, only when a return
    parameter exists, the default return statement for its type.
   */
  function BodyLines(op: Operation): (r: seq<string>)
    ensures |op.specification| > 0 ==> r == Split(Trim(op.specification), '\n')
    ensures |op.specification| == 0 ==> |r| == (if op.returnParameter.Some? then 2 else 1)
    ensures |op.specification| == 0 ==> r[0] == "// TODO: implement here"
    ensures |op.specification| == 0 && op.returnParameter.Some? ==>
      r[1] == ReturnStatement(TypeOf(op.returnParameter))
  {
    if |op.specification| > 0 then Split(Trim(op.specification), '\n')
    else ["// TODO: implement here"]
         + (if op.returnParameter.Some? then [ReturnStatement(TypeOf(op.returnParameter))] else [])
  }

  /** The `@param` lines of a method's doc text. */
  function ParamDocs(params: seq<Feature>): string
  {
    if params == [] then ""
    else "\n@param " + DocumentType(Some(params[0])) + " $" + params[0].name + " " + params[0].documentation
         + ParamDocs(params[1..])
  }

  /** The doc text `writeMethod` passes to `writeDoc`. */
  function MethodDoc(op: Operation): string
  {
    Trim(op.documentation) + ParamDocs(op.parameters)
    + (match op.returnParameter
       case Some(rp) => "\n@return " + DocumentType(Some(rp)) + " " + rp.documentation
       case None => "")
  }

  /**
    One parameter: `$name`, led by its type hint under strict mode when its
    type is not "void", followed by ` = default` when it has a default.
   */
  function ParamTerm(p: Feature, opts: Options, current: seq<string>): string
  {
    var s := "$" + p.name;
    var hinted := if opts.phpStrictMode && IsAllowedTypeHint(TypeOf(Some(p))) then TypeHint(Some(p), current) + " " + s else s;
    if |p.defaultValue| > 0 then hinted + " = " + p.defaultValue else hinted
  }

  function ParamTerms(params: seq<Feature>, opts: Options, current: seq<string>): (r: seq<string>)
    ensures |r| == |params|
  {
    seq(|params|, i requires 0 <= i < |params| => ParamTerm(params[i], opts, current))
  }

  /**
    The signature line: modifiers, `function`, the name and the parameter
    list. With `phpReturnType` the source builds `name(...):type` but
    discards it, so the return type never appears.
   */
  function Signature(op: Operation, opts: Options, current: seq<string>, skipParams: bool): string
  {
    var mods := ModifiersOf(op.flags);
    var paramTerms := if skipParams then [] else ParamTerms(op.parameters, opts, current);
    var functionName := op.name + "(" + Join(paramTerms, ", ") + ")";
    Join((if |mods| > 0 then [Join(mods, " ")] else []) + ["function", functionName], " ")
  }

  /** The method gets no body: the caller asks so, or it is abstract. */
  predicate SignatureOnly(op: Operation, skipBody: bool)
  {
    skipBody || "abstract" in ModifiersOf(op.flags)
  }

  /** The braces of a method and its body lines, one level deeper than the braces. */
  function WriteBlock(w: Writer, op: Operation): (r: Writer)
    ensures r.lines == w.lines + [Prefix(w) + "{"] + Indented(Prefix(w) + w.indentString, BodyLines(op))
                       + [Prefix(w) + "}"]
    ensures SameFrame(w, r)
  {
    var w1 := WriteLine(w, "{");
    var w2 := Indent(w1);
    var w3 := if |op.specification| > 0 then WriteSpec(w2, op.specification)
              else WriteLines(w2, BodyLines(op));
    assert w3.lines == w2.lines + Indented(Prefix(w) + w.indentString, BodyLines(op));
    var w4 := Outdent(w3);
    IndentOutdent(w1);
    WriteLine(w4, "}")
  }

  lemma WriteBlockAppends(w: Writer, op: Operation)
    ensures Appended(w, WriteBlock(w, op))
  {
    AppendedBy3(w, WriteBlock(w, op), [Prefix(w) + "{"], Indented(Prefix(w) + w.indentString, BodyLines(op)),
                [Prefix(w) + "}"]);
  }

  /** The doc comment and the signature line of a method. */
  function WriteHead(w: Writer, op: Operation, opts: Options, current: seq<string>, skipParams: bool): (r: Writer)
    ensures r.lines == w.lines + Indented(Prefix(w), DocLines(MethodDoc(op), opts.phpDoc))
                       + [Prefix(w) + Signature(op, opts, current, skipParams)]
    ensures SameFrame(w, r)
  {
    SignatureNonEmpty(op, opts, current, skipParams);
    WriteLine(WriteDoc(w, MethodDoc(op), opts), Signature(op, opts, current, skipParams))
  }

  lemma WriteHeadAppends(w: Writer, op: Operation, opts: Options, current: seq<string>, skipParams: bool)
    ensures Appended(w, WriteHead(w, op, opts, current, skipParams))
  {
    AppendedBy2(w, WriteHead(w, op, opts, current, skipParams), Indented(Prefix(w), DocLines(MethodDoc(op), opts.phpDoc)),
                [Prefix(w) + Signature(op, opts, current, skipParams)]);
  }

  /**
    `writeMethod`: nothing and `false` for an unnamed operation; otherwise
    `true` and lines appended at the end (their text is stated by
    WriteMethodLines).
   */
  function WriteMethod(w: Writer, op: Operation, opts: Options, current: seq<string>,
                       skipBody: bool, skipParams: bool): (r: (Writer, bool))
    ensures r.1 <==> op.name != ""
    ensures !r.1 ==> r.0 == w
    ensures Appended(w, r.0)
  {
    if op.name == "" then (w, false)
    else
      var w1 := WriteHead(w, op, opts, current, skipParams);
      WriteHeadAppends(w, op, opts, current, skipParams);
      var w2 := WriteBody(w1, op, skipBody);
      AppendedTrans(w, w1, w2);
      (w2, true)
  }

  /** Nothing for a signature-only method, else its braces and body. */
  function WriteBody(w: Writer, op: Operation, skipBody: bool): (r: Writer)
    ensures SignatureOnly(op, skipBody) ==> r == w
    ensures !SignatureOnly(op, skipBody) ==> r == WriteBlock(w, op)
    ensures Appended(w, r)
  {
    if SignatureOnly(op, skipBody) then w
    else
      WriteBlockAppends(w, op);
      WriteBlock(w, op)
  }

  /**
    A named operation is rendered as its doc comment and signature line,
    then, unless the method is signature-only, `{`, the body lines one level
    deeper, and `}`.
   */
  lemma WriteMethodLines(w: Writer, op: Operation, opts: Options, current: seq<string>,
                         skipBody: bool, skipParams: bool)
    requires op.name != ""
    ensures var r := WriteMethod(w, op, opts, current, skipBody, skipParams).0;
      var head := w.lines + Indented(Prefix(w), DocLines(MethodDoc(op), opts.phpDoc))
                  + [Prefix(w) + Signature(op, opts, current, skipParams)];
      && (SignatureOnly(op, skipBody) ==> r.lines == head)
      && (!SignatureOnly(op, skipBody) ==>
            r.lines == head + [Prefix(w) + "{"] + Indented(Prefix(w) + w.indentString, BodyLines(op))
                       + [Prefix(w) + "}"])
  {
  }

  /** A signature always contains the `function` keyword, so it is never empty. */
  lemma SignatureNonEmpty(op: Operation, opts: Options, current: seq<string>, skipParams: bool)
    ensures Signature(op, opts, current, skipParams) != ""
  {
    var mods := ModifiersOf(op.flags);
    var paramTerms := if skipParams then [] else ParamTerms(op.parameters, opts, current);
    var functionName := op.name + "(" + Join(paramTerms, ", ") + ")";
    var lead := if |mods| > 0 then [Join(mods, " ")] else [];
    JoinTerms(lead, "function", [functionName], " ");
    assert lead + ["function", functionName] == lead + ["function"] + [functionName];
    var head := if lead == [] then "" else lead[0] + " ";
    assert Signature(op, opts, current, skipParams) == head + "function" + (" " + functionName);
    assert |Signature(op, opts, current, skipParams)| >= |"function"|;
  }

  /** The names of a list of operations. */
  function Names(ops: seq<Operation>): (r: seq<string>)
    ensures |r| == |ops|
  {
    if ops == [] then [] else [ops[0].name] + Names(ops[1..])
  }

  /** The names of the named abstract operations, in order. */
  function AbstractNames(ops: seq<Operation>): seq<string>
  {
    if ops == [] then []
    else (if ops[0].flags.isAbstract && ops[0].name != "" then [ops[0].name] else []) + AbstractNames(ops[1..])
  }

  /**
    The operation as it is rendered when inherited: its documentation
    replaced by `@inheritDoc` and, for an abstract parent, its abstract flag
    cleared.
   */
  function Override(op: Operation, onlyAbstract: bool): (r: Operation)
    ensures r.name == op.name && r.parameters == op.parameters && r.returnParameter == op.returnParameter
    ensures r.specification == op.specification && r.documentation == "@inheritDoc"
    ensures r.flags.isAbstract == (op.flags.isAbstract && !onlyAbstract)
  {
    op.(documentation := "@inheritDoc",
        flags := if onlyAbstract then op.flags.(isAbstract := false) else op.flags)
  }

  /** Whether `writeSuperMethods` renders `op`, given the names implemented so far. */
  predicate Selected(op: Operation, methods: seq<string>, onlyAbstract: bool)
  {
    (!onlyAbstract && op.name !in methods) || op.flags.isAbstract
  }

  /**
    The inherited operations `writeSuperMethods` renders, in order, as
    overrides: an operation is taken when it is selected given the names
    implemented so far and is named (an unnamed one makes `writeMethod`
    return false, so its name is not recorded).
   */
  function Overrides(ops: seq<Operation>, methods: seq<string>, onlyAbstract: bool): (r: seq<Operation>)
    ensures |r| <= |ops|
    ensures forall e :: e in r ==> e.name != "" && e.documentation == "@inheritDoc"
    decreases |ops|
  {
    if ops == [] then []
    else if Selected(ops[0], methods, onlyAbstract) && ops[0].name != "" then
      [Override(ops[0], onlyAbstract)] + Overrides(ops[1..], methods + [ops[0].name], onlyAbstract)
    else Overrides(ops[1..], methods, onlyAbstract)
  }

  /** Each override rendered as a method followed by a blank line. */
  function WriteOverrides(w: Writer, copies: seq<Operation>, opts: Options, current: seq<string>): (r: Writer)
    ensures Grows(w, r)
    ensures copies == [] ==> r == w
    ensures copies != [] ==> LastBlank(r)
    decreases |copies|
  {
    if copies == [] then w
    else
      var w1 := WriteMethod(w, copies[0], opts, current, false, false).0;
      var w2 := WriteLine(w1, "");
      BlankAfter(w, w1);
      var r := WriteOverrides(w2, copies[1..], opts, current);
      GrowsTrans(w, w2, r);
      r
  }

  /**
    The lines `writeMethod` writes for a named operation with its body and
    parameters, under the line prefix `p` and the indentation unit `unit`.
   */
  function MethodText(p: string, unit: string, op: Operation, opts: Options, current: seq<string>): seq<string>
  {
    Indented(p, DocLines(MethodDoc(op), opts.phpDoc)) + [p + Signature(op, opts, current, false)]
    + (if SignatureOnly(op, false) then [] else [p + "{"] + Indented(p + unit, BodyLines(op)) + [p + "}"])
  }

  /** Each copy's method text followed by an empty line, in order. */
  function OverrideText(p: string, unit: string, copies: seq<Operation>, opts: Options, current: seq<string>): seq<string>
    decreases |copies|
  {
    if copies == [] then [] else MethodText(p, unit, copies[0], opts, current) + [""] + OverrideText(p, unit, copies[1..], opts, current)
  }

  /** A named operation written with its body and parameters appends its method text. */
  lemma MethodTextWritten(w: Writer, op: Operation, opts: Options, current: seq<string>)
    requires op.name != ""
    ensures WriteMethod(w, op, opts, current, false, false).0.lines
            == w.lines + MethodText(Prefix(w), w.indentString, op, opts, current)
  {
    var p := Prefix(w);
    var head := Indented(p, DocLines(MethodDoc(op), opts.phpDoc)) + [p + Signature(op, opts, current, false)];
    var block := [p + "{"] + Indented(p + w.indentString, BodyLines(op)) + [p + "}"];
    MethodLinesSplit(w, op, opts, current);
    if SignatureOnly(op, false) {
      assert MethodText(p, w.indentString, op, opts, current) == head + [];
    } else {
      assert MethodText(p, w.indentString, op, opts, current) == head + block;
    }
  }

  lemma MethodLinesSplit(w: Writer, op: Operation, opts: Options, current: seq<string>)
    requires op.name != ""
    ensures var r := WriteMethod(w, op, opts, current, false, false).0;
      var head := Indented(Prefix(w), DocLines(MethodDoc(op), opts.phpDoc))
                  + [Prefix(w) + Signature(op, opts, current, false)];
      var block := [Prefix(w) + "{"] + Indented(Prefix(w) + w.indentString, BodyLines(op)) + [Prefix(w) + "}"];
      && (SignatureOnly(op, false) ==> r.lines == w.lines + (head + []))
      && (!SignatureOnly(op, false) ==> r.lines == w.lines + (head + block))
  {
    WriteMethodLines(w, op, opts, current, false, false);
    var p := Prefix(w);
    var head := Indented(p, DocLines(MethodDoc(op), opts.phpDoc)) + [p + Signature(op, opts, current, false)];
    var body := Indented(p + w.indentString, BodyLines(op));
    assert head + [] == head;
    Assoc(w.lines, Indented(p, DocLines(MethodDoc(op), opts.phpDoc)), [p + Signature(op, opts, current, false)]);
    Assoc4(w.lines + head, [p + "{"], body, [p + "}"]);
    Assoc(w.lines, head, [p + "{"] + body + [p + "}"]);
  }

  lemma Assoc<T>(a: seq<T>, b: seq<T>, c: seq<T>)
    ensures a + b + c == a + (b + c)
  {
  }

  lemma Assoc4<T>(a: seq<T>, b: seq<T>, c: seq<T>, d: seq<T>)
    ensures a + b + c + d == a + (b + c + d)
  {
  }

  /** Rendering named overrides appends exactly their method texts, each followed by an empty line. */
  lemma {:induction false} WriteOverridesText(w: Writer, copies: seq<Operation>, opts: Options, current: seq<string>)
    requires forall e :: e in copies ==> e.name != ""
    ensures WriteOverrides(w, copies, opts, current).lines
            == w.lines + OverrideText(Prefix(w), w.indentString, copies, opts, current)
    decreases |copies|
  {
    if copies != [] {
      var p, unit := Prefix(w), w.indentString;
      assert copies[0] in copies;
      var w1 := WriteMethod(w, copies[0], opts, current, false, false).0;
      MethodTextWritten(w, copies[0], opts, current);
      var t0 := MethodText(p, unit, copies[0], opts, current);
      var w2 := WriteLine(w1, "");
      assert w2.lines == w.lines + t0 + [""];
      assert Prefix(w2) == p && w2.indentString == unit;
      assert forall e :: e in copies[1..] ==> e in copies;
      WriteOverridesText(w2, copies[1..], opts, current);
      var rest := OverrideText(p, unit, copies[1..], opts, current);
      assert WriteOverrides(w, copies, opts, current) == WriteOverrides(w2, copies[1..], opts, current);
      assert OverrideText(p, unit, copies, opts, current) == t0 + [""] + rest;
      Assoc4(w.lines, t0, [""], rest);
    }
  }

  datatype SuperPass = SuperPass(writer: Writer, methods: seq<string>, emitted: seq<Operation>)

  /**
    `writeSuperMethods` over the operations of one superclass
    (`onlyAbstract`) or interface: the selected operations are rendered as
    overrides after everything already written, and their names are added
    to the implemented names in the order they were rendered.
   */
  function WriteSuperMethods(w: Writer, ops: seq<Operation>, opts: Options, current: seq<string>,
                             methods: seq<string>, onlyAbstract: bool): (r: SuperPass)
    ensures r.methods == methods + Names(r.emitted)
    ensures |r.emitted| <= |ops|
    ensures forall e :: e in r.emitted ==> e.name != "" && e.documentation == "@inheritDoc"
    ensures Grows(w, r.writer)
    ensures r.writer == WriteOverrides(w, r.emitted, opts, current)
  {
    var copies := Overrides(ops, methods, onlyAbstract);
    SuperPass(WriteOverrides(w, copies, opts, current), methods + Names(copies), copies)
  }

  /** A passed-over operation adds nothing; a taken one leads the result. */
  lemma OverridesStep(ops: seq<Operation>, methods: seq<string>, onlyAbstract: bool)
    requires ops != []
    ensures var rest := Overrides(ops[1..], methods + [ops[0].name], onlyAbstract);
      Selected(ops[0], methods, onlyAbstract) && ops[0].name != "" ==>
        Overrides(ops, methods, onlyAbstract) == [Override(ops[0], onlyAbstract)] + rest
        && Names(Overrides(ops, methods, onlyAbstract)) == [ops[0].name] + Names(rest)
  {
    var rest := Overrides(ops[1..], methods + [ops[0].name], onlyAbstract);
    assert ([Override(ops[0], onlyAbstract)] + rest)[1..] == rest;
  }

  /**
    For an abstract parent exactly the named abstract operations are
    rendered, in order and whatever `methods` holds, each as a concrete
    (non-abstract) copy.
   */
  lemma {:induction false} AbstractParentPass(w: Writer, ops: seq<Operation>, opts: Options,
                                              current: seq<string>, methods: seq<string>)
    ensures var r := WriteSuperMethods(w, ops, opts, current, methods, true);
      Names(r.emitted) == AbstractNames(ops) && forall e :: e in r.emitted ==> !e.flags.isAbstract
  {
    AbstractOverrides(ops, methods);
  }

  /** Every named abstract operation, in order, as a concrete `@inheritDoc` copy. */
  function AbstractCopies(ops: seq<Operation>): seq<Operation>
  {
    if ops == [] then []
    else (if ops[0].flags.isAbstract && ops[0].name != "" then [Override(ops[0], true)] else []) + AbstractCopies(ops[1..])
  }

  /** In abstract-parent mode the selection ignores the implemented names. */
  lemma {:induction false} AbstractOverridesExact(ops: seq<Operation>, methods: seq<string>)
    ensures Overrides(ops, methods, true) == AbstractCopies(ops)
    decreases |ops|
  {
    if ops != [] {
      OverridesStep(ops, methods, true);
      if ops[0].flags.isAbstract && ops[0].name != "" {
        AbstractOverridesExact(ops[1..], methods + [ops[0].name]);
      } else {
        AbstractOverridesExact(ops[1..], methods);
      }
    }
  }

  /** What a pass writes is the method text of each operation it emits, each followed by an empty line. */
  lemma SuperMethodsText(w: Writer, ops: seq<Operation>, opts: Options, current: seq<string>,
                         methods: seq<string>, onlyAbstract: bool)
    ensures var r := WriteSuperMethods(w, ops, opts, current, methods, onlyAbstract);
      r.writer.lines == w.lines + OverrideText(Prefix(w), w.indentString, r.emitted, opts, current)
  {
    var r := WriteSuperMethods(w, ops, opts, current, methods, onlyAbstract);
    WriteOverridesText(w, r.emitted, opts, current);
  }

  /**
    For an abstract parent the lines written are exactly the method texts of
    its named abstract operations, in order, each made concrete and
    documented `@inheritDoc`, whatever names are implemented already.
   */
  lemma AbstractParentRendered(w: Writer, ops: seq<Operation>, opts: Options, current: seq<string>,
                               methods: seq<string>)
    ensures WriteSuperMethods(w, ops, opts, current, methods, true).writer.lines
            == w.lines + OverrideText(Prefix(w), w.indentString, AbstractCopies(ops), opts, current)
  {
    SuperMethodsText(w, ops, opts, current, methods, true);
    AbstractOverridesExact(ops, methods);
  }

  lemma {:induction false} AbstractOverrides(ops: seq<Operation>, methods: seq<string>)
    ensures Names(Overrides(ops, methods, true)) == AbstractNames(ops)
    ensures forall e :: e in Overrides(ops, methods, true) ==> !e.flags.isAbstract
    decreases |ops|
  {
    if ops != [] {
      OverridesStep(ops, methods, true);
      if ops[0].flags.isAbstract && ops[0].name != "" {
        AbstractOverrides(ops[1..], methods + [ops[0].name]);
      } else {
        AbstractOverrides(ops[1..], methods);
      }
    }
  }

  /**
    After an interface pass a name is implemented iff it was before or some
    named operation of the interface carries it.
   */
  lemma {:induction false} InterfacePassCoverage(w: Writer, ops: seq<Operation>, opts: Options,
                                                 current: seq<string>, methods: seq<string>, n: string)
    ensures var r := WriteSuperMethods(w, ops, opts, current, methods, false);
      n in r.methods <==> n in methods || (n != "" && n in Names(ops))
  {
    InterfaceCoverage(ops, methods, n);
  }

  lemma {:induction false} InterfaceCoverage(ops: seq<Operation>, methods: seq<string>, n: string)
    ensures n in methods + Names(Overrides(ops, methods, false)) <==> n in methods || (n != "" && n in Names(ops))
    decreases |ops|
  {
    if ops != [] {
      var op := ops[0];
      OverridesStep(ops, methods, false);
      assert Names(ops) == [op.name] + Names(ops[1..]);
      if Selected(op, methods, false) && op.name != "" {
        var rest := Overrides(ops[1..], methods + [op.name], false);
        InterfaceCoverage(ops[1..], methods + [op.name], n);
        assert methods + Names(Overrides(ops, methods, false)) == methods + [op.name] + Names(rest);
      } else {
        InterfaceCoverage(ops[1..], methods, n);
      }
    }
  }

  /** Every operation named `n` is non-abstract. */
  predicate OnlyConcrete(ops: seq<Operation>, n: string)
  {
    forall i :: 0 <= i < |ops| && ops[i].name == n ==> !ops[i].flags.isAbstract
  }

  /**
    In an interface pass a name whose operations are all non-abstract is
    rendered at most once, and not at all when it is already implemented:
    the first declaration wins.
   */

  lemma {:induction false} InterfacePassAtMostOnce(w: Writer, ops: seq<Operation>, opts: Options,
                                                   current: seq<string>, methods: seq<string>, n: string)
    requires OnlyConcrete(ops, n)
    ensures var r := WriteSuperMethods(w, ops, opts, current, methods, false);
      && multiset(Names(r.emitted))[n] <= 1
      && (n in methods ==> n !in Names(r.emitted))
  {
    InterfaceAtMostOnce(ops, methods, n);
  }

  lemma {:induction false} InterfaceAtMostOnce(ops: seq<Operation>, methods: seq<string>, n: string)
    requires OnlyConcrete(ops, n)
    ensures multiset(Names(Overrides(ops, methods, false)))[n] <= 1
    ensures n in methods ==> n !in Names(Overrides(ops, methods, false))
    decreases |ops|
  {
    if ops != [] {
      var op := ops[0];
      OverridesStep(ops, methods, false);
      assert OnlyConcrete(ops[1..], n) by {
        forall i | 0 <= i < |ops[1..]| && ops[1..][i].name == n
          ensures !ops[1..][i].flags.isAbstract
        {
          assert ops[1..][i] == ops[i + 1];
        }
      }
      if Selected(op, methods, false) && op.name != "" {
        InterfaceAtMostOnce(ops[1..], methods + [op.name], n);
        if op.name == n {
          assert n in methods + [op.name];
        }
      } else {
        InterfaceAtMostOnce(ops[1..], methods, n);
      }
    }
  }

  /**
    In an interface pass a named abstract operation is rendered whatever
    the implemented names hold, even when its name is among them.
   */
  lemma {:induction false} InterfaceAbstractRendered(ops: seq<Operation>, methods: seq<string>, i: nat)
    requires i < |ops| && ops[i].flags.isAbstract && ops[i].name != ""
    ensures Override(ops[i], false) in Overrides(ops, methods, false)
    decreases i
  {
    OverridesStep(ops, methods, false);
    if i > 0 {
      assert ops[1..][i - 1] == ops[i];
      if Selected(ops[0], methods, false) && ops[0].name != "" {
        InterfaceAbstractRendered(ops[1..], methods + [ops[0].name], i - 1);
      } else {
        InterfaceAbstractRendered(ops[1..], methods, i - 1);
      }
    }
  }

  /**
    The pass-level form: an interface pass renders every named abstract
    operation of the interface, keeping its abstract flag, and records its
    name again even when it was already implemented.
   */
  lemma InterfacePassAbstract(w: Writer, ops: seq<Operation>, opts: Options, current: seq<string>,
                              methods: seq<string>, i: nat)
    requires i < |ops| && ops[i].flags.isAbstract && ops[i].name != ""
    ensures var r := WriteSuperMethods(w, ops, opts, current, methods, false);
      && Override(ops[i], false) in r.emitted
      && Override(ops[i], false).flags.isAbstract
      && multiset(r.methods)[ops[i].name] > multiset(methods)[ops[i].name]
  {
    var r := WriteSuperMethods(w, ops, opts, current, methods, false);
    InterfaceAbstractRendered(ops, methods, i);
    NameOfMember(r.emitted, Override(ops[i], false));
  }

  /** The name of a member of a list of operations is among its names. */
  lemma {:induction false} NameOfMember(ops: seq<Operation>, op: Operation)
    requires op in ops
    ensures op.name in Names(ops)
    decreases |ops|
  {
    if ops[0] != op {
      NameOfMember(ops[1..], op);
    }
  }
}
