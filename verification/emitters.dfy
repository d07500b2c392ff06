/**
  The per-kind emitters of code-generator.js: `writeClass`, `writeInterface`,
  `writeEnum`, `writeAnnotationType` and their dispatcher `writeClasses`.
  Each emitter opens its unit (doc comment, header line, `{`, one indentation
  level), writes the member loops, then closes it; inner definitions recurse
  through the dispatcher.
 */
module Emitters {
  import opened Wrappers
  import opened Text
  import opened Model
  import opened CodeWriter
  import opened Modifiers
  import opened Members
  import opened TypeResolution

  /**
    What every emitter reads besides the node: the options, the project
    author (a host query in the source) and the namespace path of the unit
    being written, against which type hints are made relative.
   */
  datatype Context = Context(opts: Options, author: string, current: seq<string>)

  /** The names of superclasses or interfaces, in declaration order. */
  function AncestorNames(ancestors: seq<Ancestor>): (r: seq<string>)
    ensures |r| == |ancestors|
    ensures forall i :: 0 <= i < |ancestors| ==> r[i] == ancestors[i].name
  {
    seq(|ancestors|, i requires 0 <= i < |ancestors| => ancestors[i].name)
  }

  /** The doc text of a class or annotation type: its trimmed documentation, then the author, if any. */
  function AuthoredDoc(doc: string, author: string): string
  {
    Trim(doc) + (if |author| > 0 then "\n@author " + author else "")
  }

  /** The class-level modifiers as one term, if there are any. */
  function ModifierTerm(f: Flags): seq<string>
  {
    var mods := ModifiersClass(f);
    if |mods| > 0 then [Join(mods, " ")] else []
  }

  // ---------------------------------------------------------------------------
  // Member loops
  // ---------------------------------------------------------------------------

  lemma MemberVariableAppends(w: Writer, f: Feature, opts: Options)
    ensures Appended(w, WriteMemberVariable(w, f, opts))
  {
    if f.name != "" {
      var extra := Indented(Prefix(w), DocLines("@var " + DocumentType(Some(f)) + " " + Trim(f.documentation), opts.phpDoc))
                   + [Prefix(w) + FieldDeclaration(f)];
      AppendedBy(w, WriteMemberVariable(w, f, opts), extra);
    }
  }

  /** One field per attribute, each followed by an empty line. */
  function WriteFields(w: Writer, fields: seq<Feature>, opts: Options): (r: Writer)
    ensures Grows(w, r)
    ensures fields == [] ==> r == w
    ensures fields != [] ==> |r.lines| >= |w.lines| + |fields|
    decreases |fields|
  {
    if fields == [] then w
    else
      var w1 := WriteMemberVariable(w, fields[0], opts);
      MemberVariableAppends(w, fields[0], opts);
      BlankAfter(w, w1);
      var r := WriteFields(WriteLine(w1, ""), fields[1..], opts);
      GrowsTrans(w, WriteLine(w1, ""), r);
      r
  }

  /** The field of each association that yields one for the node `id`, each followed by an empty line. */
  function WriteAssociationFields(w: Writer, associations: seq<Association>, id: nat, opts: Options): (r: Writer)
    ensures Grows(w, r)
    decreases |associations|
  {
    if associations == [] then w
    else
      match AssociationField(associations[0], id)
      case None => WriteAssociationFields(w, associations[1..], id, opts)
      case Some(f) =>
        var w1 := WriteMemberVariable(w, f, opts);
        MemberVariableAppends(w, f, opts);
        BlankAfter(w, w1);
        var r := WriteAssociationFields(WriteLine(w1, ""), associations[1..], id, opts);
        GrowsTrans(w, WriteLine(w1, ""), r);
        r
  }

  /** The writer and the names implemented so far. */
  datatype Pass = Pass(writer: Writer, methods: seq<string>)

  /** The names of the named operations, in order. */
  function NamedNames(ops: seq<Operation>): seq<string>
    decreases |ops|
  {
    if ops == [] then []
    else (if ops[0].name != "" then [ops[0].name] else []) + NamedNames(ops[1..])
  }

  /** A name is recorded for the own methods iff it is non-empty and names an operation. */
  lemma {:induction false} NamedNamesMembership(ops: seq<Operation>, n: string)
    ensures n in NamedNames(ops) <==> n != "" && n in Names(ops)
    decreases |ops|
  {
    if ops != [] {
      NamedNamesMembership(ops[1..], n);
    }
  }

  /**
    The class's own methods: each operation through `writeMethod`; an
    implemented one is followed by an empty line and its name recorded.
   */
  function WriteOwnMethods(w: Writer, ops: seq<Operation>, ctx: Context, methods: seq<string>): (r: Pass)
    ensures Grows(w, r.writer)
    decreases |ops|
  {
    if ops == [] then Pass(w, methods)
    else
      var w1 := WriteMethod(w, ops[0], ctx.opts, ctx.current, false, false).0;
      if ops[0].name != "" then
        var w2 := WriteLine(w1, "");
        BlankAfter(w, w1);
        var r := WriteOwnMethods(w2, ops[1..], ctx, methods + [ops[0].name]);
        GrowsTrans(w, w2, r.writer);
        r
      else
        WriteOwnMethods(w, ops[1..], ctx, methods)
  }

  /** The own-methods pass records exactly the named operations, in order. */
  lemma {:induction false} OwnMethodsRecorded(w: Writer, ops: seq<Operation>, ctx: Context, methods: seq<string>)
    ensures WriteOwnMethods(w, ops, ctx, methods).methods == methods + NamedNames(ops)
    decreases |ops|
  {
    if ops != [] {
      var w2 := WriteLine(WriteMethod(w, ops[0], ctx.opts, ctx.current, false, false).0, "");
      if ops[0].name != "" {
        var m := methods + [ops[0].name];
        assert WriteOwnMethods(w, ops, ctx, methods).methods == WriteOwnMethods(w2, ops[1..], ctx, m).methods;
        OwnMethodsRecorded(w2, ops[1..], ctx, m);
        assert NamedNames(ops) == [ops[0].name] + NamedNames(ops[1..]);
      } else {
        assert WriteOwnMethods(w, ops, ctx, methods).methods == WriteOwnMethods(w, ops[1..], ctx, methods).methods;
        OwnMethodsRecorded(w, ops[1..], ctx, methods);
      }
    }
  }

  /** The interface passes of `writeClass`, one `writeSuperMethods` per interface, in declaration order. */
  function WriteInterfacePasses(w: Writer, interfaces: seq<Ancestor>, ctx: Context, methods: seq<string>): (r: Pass)
    ensures Grows(w, r.writer)
    decreases |interfaces|
  {
    if interfaces == [] then Pass(w, methods)
    else
      var p := WriteSuperMethods(w, interfaces[0].operations, ctx.opts, ctx.current, methods, false);
      var r := WriteInterfacePasses(p.writer, interfaces[1..], ctx, p.methods);
      GrowsTrans(w, p.writer, r.writer);
      r
  }

  /**
    After the interface passes a name is implemented iff it was before or
    it names an operation of one of the interfaces.
   */
  lemma {:induction false} InterfacePassesCoverage(w: Writer, interfaces: seq<Ancestor>, ctx: Context,
                                                   methods: seq<string>, n: string)
    ensures n in WriteInterfacePasses(w, interfaces, ctx, methods).methods <==>
      n in methods || (n != "" && Declared(interfaces, n))
    decreases |interfaces|
  {
    if interfaces != [] {
      var p := WriteSuperMethods(w, interfaces[0].operations, ctx.opts, ctx.current, methods, false);
      InterfacePassCoverage(w, interfaces[0].operations, ctx.opts, ctx.current, methods, n);
      InterfacePassesCoverage(p.writer, interfaces[1..], ctx, p.methods, n);
      DeclaredSplit(interfaces, n);
      assert WriteInterfacePasses(w, interfaces, ctx, methods).methods
          == WriteInterfacePasses(p.writer, interfaces[1..], ctx, p.methods).methods;
    }
  }

  /**
    First declaration wins: a name not yet implemented that the first
    interface declares, with only non-abstract operations carrying it
    anywhere, is rendered by the first interface's pass and implemented
    exactly once after all passes, so no later interface renders it again.
   */
  lemma InterfaceFirstWins(w: Writer, interfaces: seq<Ancestor>, ctx: Context, methods: seq<string>, n: string)
    requires interfaces != [] && n != "" && n !in methods
    requires n in Names(interfaces[0].operations)
    requires forall i :: 0 <= i < |interfaces| ==> OnlyConcrete(interfaces[i].operations, n)
    ensures n in Names(WriteSuperMethods(w, interfaces[0].operations, ctx.opts, ctx.current, methods, false).emitted)
    ensures multiset(WriteInterfacePasses(w, interfaces, ctx, methods).methods)[n] == 1
  {
    var p := WriteSuperMethods(w, interfaces[0].operations, ctx.opts, ctx.current, methods, false);
    InterfacePassCoverage(w, interfaces[0].operations, ctx.opts, ctx.current, methods, n);
    assert n in Names(p.emitted);
    InterfacePassesOnce(w, interfaces, ctx, methods, n);
    assert Declared(interfaces, n);
    InterfacePassesCoverage(w, interfaces, ctx, methods, n);
  }

  /** Some interface declares an operation named `n`. */
  predicate Declared(interfaces: seq<Ancestor>, n: string)
  {
    exists i :: 0 <= i < |interfaces| && n in Names(interfaces[i].operations)
  }

  lemma DeclaredSplit(interfaces: seq<Ancestor>, n: string)
    requires interfaces != []
    ensures Declared(interfaces, n) <==> n in Names(interfaces[0].operations) || Declared(interfaces[1..], n)
  {
    if Declared(interfaces, n) {
      var i :| 0 <= i < |interfaces| && n in Names(interfaces[i].operations);
      if i > 0 {
        assert interfaces[1..][i - 1] == interfaces[i];
      }
    }
    if Declared(interfaces[1..], n) {
      var i :| 0 <= i < |interfaces[1..]| && n in Names(interfaces[1..][i].operations);
      assert interfaces[1..][i] == interfaces[i + 1];
    }
  }

  /**
    Across all interface passes a name that only non-abstract operations
    carry is implemented at most once if it was at most once before: when
    two interfaces declare it, only the first one's operation is rendered.
   */
  lemma {:induction false} InterfacePassesOnce(w: Writer, interfaces: seq<Ancestor>, ctx: Context,
                                               methods: seq<string>, n: string)
    requires forall i :: 0 <= i < |interfaces| ==> OnlyConcrete(interfaces[i].operations, n)
    requires multiset(methods)[n] <= 1
    ensures multiset(WriteInterfacePasses(w, interfaces, ctx, methods).methods)[n] <= 1
    decreases |interfaces|
  {
    if interfaces != [] {
      var ops := interfaces[0].operations;
      var p := WriteSuperMethods(w, ops, ctx.opts, ctx.current, methods, false);
      assert OnlyConcrete(ops, n);
      InterfacePassAtMostOnce(w, ops, ctx.opts, ctx.current, methods, n);
      assert multiset(p.methods)[n] == multiset(methods)[n] + multiset(Names(p.emitted))[n];
      var rest := interfaces[1..];
      assert forall i :: 0 <= i < |rest| ==> OnlyConcrete(rest[i].operations, n) by {
        forall i | 0 <= i < |rest|
          ensures OnlyConcrete(rest[i].operations, n)
        {
          assert rest[i] == interfaces[i + 1];
        }
      }
      InterfacePassesOnce(p.writer, rest, ctx, p.methods, n);
      assert WriteInterfacePasses(w, interfaces, ctx, methods).methods
          == WriteInterfacePasses(p.writer, rest, ctx, p.methods).methods;
    }
  }

  /**
    The operations of an interface or annotation type: each through
    `writeMethod` without a body, each followed by an empty line whether or
    not anything was written.
   */
  function WriteSignatures(w: Writer, ops: seq<Operation>, ctx: Context, skipParams: bool): (r: Writer)
    ensures Grows(w, r)
    ensures |r.lines| >= |w.lines| + |ops|
    decreases |ops|
  {
    if ops == [] then w
    else
      var w1 := WriteMethod(w, ops[0], ctx.opts, ctx.current, true, skipParams).0;
      BlankAfter(w, w1);
      var r := WriteSignatures(WriteLine(w1, ""), ops[1..], ctx, skipParams);
      GrowsTrans(w, WriteLine(w1, ""), r);
      r
  }

  // ---------------------------------------------------------------------------
  // Opening and closing a unit
  // ---------------------------------------------------------------------------

  /** `r` adds at least one line to `w` and one level of indentation, and nothing else. */
  predicate Opened(w: Writer, r: Writer)
  {
    && |r.lines| > |w.lines| && r.lines[..|w.lines|] == w.lines
    && r.indentations == w.indentations + [w.indentString]
    && r.sections == w.sections && r.indentString == w.indentString
  }

  function Open(w: Writer, doc: string, header: seq<string>, opts: Options): (r: Writer)
    requires header != []
    ensures Opened(w, r)
    ensures r.lines == w.lines + Indented(Prefix(w), DocLines(doc, opts.phpDoc)) + Indented(Prefix(w), header)
    ensures Prefix(r) == Prefix(w) + w.indentString
    ensures r.indentations == w.indentations + [w.indentString]
    ensures r.sections == w.sections && r.indentString == w.indentString
  {
    var r := Indent(WriteLines(WriteDoc(w, doc, opts), header));
    assert r.lines[..|w.lines|] == w.lines;
    r
  }

  /** `outdent()`, `lines.pop()` and the closing `}` followed by a line break. */
  function Close(outer: Writer, body: Writer): (r: Writer)
    requires body.indentations == outer.indentations + [outer.indentString]
    requires |body.lines| > 0
    ensures r.lines == body.lines[..|body.lines| - 1] + [Prefix(outer) + "}\n"]
    ensures r.indentations == outer.indentations && r.sections == body.sections
    ensures r.indentString == body.indentString
  {
    var w1 := Outdent(body);
    assert w1.indentations == outer.indentations;
    WriteLine(Pop(w1), "}\n")
  }

  // ---------------------------------------------------------------------------
  // Headers
  // ---------------------------------------------------------------------------

  /** The terms of a class header: modifiers, `class`, the name, the first superclass, the interfaces. */
  function ClassTerms(c: Node): seq<string>
    requires c.Classifier?
  {
    ModifierTerm(c.flags) + ["class", c.name]
    + (if |c.superclasses| > 0 then ["extends " + c.superclasses[0].name] else [])
    + (if |c.interfaces| > 0 then ["implements " + Join(AncestorNames(c.interfaces), ", ")] else [])
  }

  /**
    A class header names the class after its modifiers; only the first
    superclass is extended, and every interface is implemented, comma
    separated, in declaration order.
   */
  lemma ClassTermsShape(c: Node)
    requires c.Classifier?
    ensures var t := ClassTerms(c);
      var k := |ModifierTerm(c.flags)|;
      && |t| == k + 2 + (if |c.superclasses| > 0 then 1 else 0) + (if |c.interfaces| > 0 then 1 else 0)
      && t[k] == "class" && t[k + 1] == c.name
      && (|c.superclasses| > 0 ==> t[k + 2] == "extends " + c.superclasses[0].name)
      && (|c.interfaces| > 0 ==> t[|t| - 1] == "implements " + Join(AncestorNames(c.interfaces), ", "))
  {
  }

  /** The terms of an interface header: `interface`, the name and every superinterface. */
  function InterfaceTerms(c: Node): seq<string>
    requires c.Classifier?
  {
    ["interface", c.name]
    + (if |c.superclasses| > 0 then ["extends " + Join(AncestorNames(c.superclasses), ", ")] else [])
  }

  /** The header of an enumeration: a class extending the standard `SplEnum`, with `{` on the same written line. */
  function EnumHeader(name: string): string
  {
    Join(["class", name, "extends", "\\" + "SplEnum"], " ") + "\n{"
  }

  /**
    The literal terms of an enumeration: for the literal at index i the
    five terms `const`, its name, `=`, i and an empty term.
   */
  function LiteralTerms(literals: seq<string>, from: nat): seq<string>
    decreases |literals|
  {
    if literals == [] then []
    else ["const", literals[0], "=", NatToString(from), ""] + LiteralTerms(literals[1..], from + 1)
  }

  // ---------------------------------------------------------------------------
  // Emitters
  // ---------------------------------------------------------------------------

  /**
    `writeClasses`: an annotation type (a class stereotyped
    `annotationType`), a class, an interface or an enumeration is written by
    its emitter; anything else writes nothing.
   */
  function WriteClasses(w: Writer, n: Node, ctx: Context): (r: Writer)
    ensures Appended(w, r)
    ensures !n.Classifier? ==> r == w
    ensures n.Classifier? ==> |r.lines| > |w.lines|
    decreases n, 3
  {
    match n
    case Classifier(kind, _, _, _, _, _, _, _, _, _, _, _, _) =>
      if IsAnnotationType(n) then WriteAnnotationType(w, n, ctx)
      else if kind == ClassKind then WriteClass(w, n, ctx)
      else if kind == InterfaceKind then WriteInterface(w, n, ctx)
      else WriteEnum(w, n, ctx)
    case _ => w
  }

  /** The inner definitions from index `i` on, each followed by an empty line. */
  function WriteInnerDefs(w: Writer, parent: Node, i: nat, ctx: Context): (r: Writer)
    requires parent.Classifier? && i <= |parent.ownedElements|
    ensures Grows(w, r)
    ensures i == |parent.ownedElements| ==> r == w
    decreases parent, 1, |parent.ownedElements| - i
  {
    if i == |parent.ownedElements| then w
    else
      var w1 := WriteClasses(w, parent.ownedElements[i], ctx);
      BlankAfter(w, w1);
      var r := WriteInnerDefs(WriteLine(w1, ""), parent, i + 1, ctx);
      GrowsTrans(w, WriteLine(w1, ""), r);
      r
  }

  /** The doc comment, the class header and `{`, then one indentation level. */
  function ClassOpen(w: Writer, c: Node, ctx: Context): (r: Writer)
    requires c.Classifier?
    ensures r.lines == w.lines + Indented(Prefix(w), DocLines(AuthoredDoc(c.documentation, ctx.author), ctx.opts.phpDoc))
                       + Indented(Prefix(w), [Join(ClassTerms(c), " "), "{"])
    ensures Opened(w, r)
  {
    Open(w, AuthoredDoc(c.documentation, ctx.author), [Join(ClassTerms(c), " "), "{"], ctx.opts)
  }

  /**
    The members of a class: the constructor and an empty line, the fields
    from attributes and from associations, the own methods, the abstract
    operations of the first superclass, then the interface passes.
   */
  function ClassMembers(w: Writer, c: Node, ctx: Context): (r: Pass)
    requires c.Classifier?
    ensures Grows(w, r.writer) && LastBlank(r.writer)
  {
    var w1 := WriteConstructor(w, c, ctx.opts);
    AppendedBy(w, w1, w1.lines[|w.lines|..]);
    var w2 := WriteLine(w1, "");
    BlankAfter(w, w1);
    var w3 := WriteFields(w2, c.attributes, ctx.opts);
    var w4 := WriteAssociationFields(w3, c.associations, c.id, ctx.opts);
    GrowsTrans(w, w2, w3);
    GrowsTrans(w, w3, w4);
    var own := WriteOwnMethods(w4, c.operations, ctx, []);
    GrowsTrans(w, w4, own.writer);
    var sup := if |c.superclasses| > 0
               then var s := WriteSuperMethods(own.writer, c.superclasses[0].operations, ctx.opts, ctx.current, own.methods, true);
                    Pass(s.writer, s.methods)
               else own;
    GrowsTrans(w, own.writer, sup.writer);
    var r := WriteInterfacePasses(sup.writer, c.interfaces, ctx, sup.methods);
    GrowsTrans(w, sup.writer, r.writer);
    r
  }

  /**
    The names a class ends up implementing: a named own operation, a named
    abstract operation of its first superclass, or a named operation of any
    of its interfaces.
   */
  lemma ClassImplements(w: Writer, c: Node, ctx: Context, n: string)
    requires c.Classifier?
    ensures n in ClassMembers(w, c, ctx).methods <==>
      || (n != "" && n in Names(c.operations))
      || (|c.superclasses| > 0 && n in AbstractNames(c.superclasses[0].operations))
      || (n != "" && exists i :: 0 <= i < |c.interfaces| && n in Names(c.interfaces[i].operations))
  {
    var w1 := WriteConstructor(w, c, ctx.opts);
    var w2 := WriteLine(w1, "");
    var w3 := WriteFields(w2, c.attributes, ctx.opts);
    var w4 := WriteAssociationFields(w3, c.associations, c.id, ctx.opts);
    var own := WriteOwnMethods(w4, c.operations, ctx, []);
    OwnMethodsRecorded(w4, c.operations, ctx, []);
    assert own.methods == [] + NamedNames(c.operations);
    NamedNamesMembership(c.operations, n);
    var sup := if |c.superclasses| > 0
               then var s := WriteSuperMethods(own.writer, c.superclasses[0].operations, ctx.opts, ctx.current, own.methods, true);
                    Pass(s.writer, s.methods)
               else own;
    if |c.superclasses| > 0 {
      AbstractParentPass(own.writer, c.superclasses[0].operations, ctx.opts, ctx.current, own.methods);
    }
    assert n in sup.methods <==>
      (n != "" && n in Names(c.operations))
      || (|c.superclasses| > 0 && n in AbstractNames(c.superclasses[0].operations));
    InterfacePassesCoverage(sup.writer, c.interfaces, ctx, sup.methods, n);
  }

  /**
    The superclass pass runs before the interface passes: a name that only
    the first superclass declares abstract, once, and that every interface
    carries on non-abstract operations only, is implemented exactly once,
    because the interfaces find it already implemented.
   */
  lemma SuperBeforeInterfaces(w: Writer, c: Node, ctx: Context, n: string)
    requires c.Classifier? && |c.superclasses| > 0 && n !in Names(c.operations)
    requires multiset(AbstractNames(c.superclasses[0].operations))[n] == 1
    requires forall i :: 0 <= i < |c.interfaces| ==> OnlyConcrete(c.interfaces[i].operations, n)
    ensures multiset(ClassMembers(w, c, ctx).methods)[n] == 1
  {
    var w1 := WriteConstructor(w, c, ctx.opts);
    var w2 := WriteLine(w1, "");
    var w3 := WriteFields(w2, c.attributes, ctx.opts);
    var w4 := WriteAssociationFields(w3, c.associations, c.id, ctx.opts);
    var own := WriteOwnMethods(w4, c.operations, ctx, []);
    OwnMethodsRecorded(w4, c.operations, ctx, []);
    NamedNamesMembership(c.operations, n);
    assert multiset(own.methods)[n] == 0;
    var s := WriteSuperMethods(own.writer, c.superclasses[0].operations, ctx.opts, ctx.current, own.methods, true);
    AbstractParentPass(own.writer, c.superclasses[0].operations, ctx.opts, ctx.current, own.methods);
    assert multiset(s.methods)[n] == 1;
    assert n in s.methods;
    InterfacePassesOnce(s.writer, c.interfaces, ctx, s.methods, n);
    InterfacePassesCoverage(s.writer, c.interfaces, ctx, s.methods, n);
    assert ClassMembers(w, c, ctx) == WriteInterfacePasses(s.writer, c.interfaces, ctx, s.methods);
  }

  /** The opening, the members and the inner definitions of a class. */
  function ClassBody(w: Writer, c: Node, ctx: Context): (r: Writer)
    requires c.Classifier?
    ensures Opened(w, r) && LastBlank(r)
    decreases c, 1, |c.ownedElements| + 1
  {
    var o := ClassOpen(w, c, ctx);
    var m := ClassMembers(o, c, ctx);
    var r := WriteInnerDefs(m.writer, c, 0, ctx);
    GrowsTrans(o, m.writer, r);
    OpenedAppended(w, o, r);
    r
  }

  /**
    `writeClass`: the opening lines, the members and inner definitions, and
    `}`. The `lines.pop()` before `}` removes only the empty line that ends
    the members.
   */
  function WriteClass(w: Writer, c: Node, ctx: Context): (r: Writer)
    requires c.Classifier?
    ensures Appended(w, r) && |r.lines| > |w.lines|
    ensures LastBlank(ClassBody(w, c, ctx))
    ensures r.lines == ClassBody(w, c, ctx).lines[..|ClassBody(w, c, ctx).lines| - 1] + [Prefix(w) + "}\n"]
    decreases c, 2
  {
    ClosedBody(w, ClassBody(w, c, ctx))
  }

  /** An opened body ending in its blank line, closed: the blank line gives way to `}`. */
  function ClosedBody(w: Writer, b: Writer): (r: Writer)
    requires Opened(w, b) && LastBlank(b)
    ensures Appended(w, r) && |r.lines| > |w.lines|
    ensures r.lines == b.lines[..|b.lines| - 1] + [Prefix(w) + "}\n"]
  {
    CloseAppended(w, b);
    Close(w, b)
  }

  /** Lines appended after an opening keep it an opening of the same writer. */
  lemma OpenedAppended(w: Writer, o: Writer, r: Writer)
    requires Opened(w, o) && Appended(o, r)
    ensures Opened(w, r)
  {
    assert r.lines[..|w.lines|] == r.lines[..|o.lines|][..|w.lines|];
  }

  /** Closing an opened unit extends the writer it started from. */
  lemma CloseAppended(w: Writer, b: Writer)
    requires Opened(w, b)
    ensures Appended(w, Close(w, b)) && |Close(w, b).lines| > |w.lines|
  {
    var r := Close(w, b);
    assert r.lines[..|w.lines|] == b.lines[..|b.lines| - 1][..|w.lines|];
  }

  /** The opening of an interface: doc, header, `{`, the `useTab` option as a line, then one indentation level. */
  function InterfaceOpen(w: Writer, c: Node, ctx: Context): (r: Writer)
    requires c.Classifier?
    ensures r.lines == w.lines + Indented(Prefix(w), DocLines(c.documentation, ctx.opts.phpDoc))
                       + Indented(Prefix(w), [Join(InterfaceTerms(c), " "), "{", UseTabText(ctx.opts.useTab)])
    ensures Opened(w, r)
  {
    Open(w, c.documentation, [Join(InterfaceTerms(c), " "), "{", UseTabText(ctx.opts.useTab)], ctx.opts)
  }

  /** `writeLine(options.useTab)`: `true` is written as the text "true", `false` as an empty line. */
  function UseTabText(useTab: bool): string
  {
    if useTab then "true" else ""
  }

  /** The opening, fields, association fields, signatures and inner definitions of an interface. */
  function InterfaceBody(w: Writer, c: Node, ctx: Context): (r: Writer)
    requires c.Classifier?
    ensures Grows(InterfaceOpen(w, c, ctx), r) && Opened(w, r)
    decreases c, 1, |c.ownedElements| + 1
  {
    var o := InterfaceOpen(w, c, ctx);
    var w1 := WriteFields(o, c.attributes, ctx.opts);
    var w2 := WriteAssociationFields(w1, c.associations, c.id, ctx.opts);
    var w3 := WriteSignatures(w2, c.operations, ctx, false);
    var w4 := WriteInnerDefs(w3, c, 0, ctx);
    GrowsTrans(o, w1, w2);
    GrowsTrans(o, w2, w3);
    GrowsTrans(o, w3, w4);
    OpenedAppended(w, o, w4);
    w4
  }

  /** `writeInterface`. */
  function WriteInterface(w: Writer, c: Node, ctx: Context): (r: Writer)
    requires c.Classifier?
    ensures Appended(w, r) && |r.lines| > |w.lines|
    decreases c, 2
  {
    var b := InterfaceBody(w, c, ctx);
    CloseAppended(w, b);
    Close(w, b)
  }

  /**
    The `lines.pop()` of an interface removes the empty line ending its
    members, or, when it writes no member at all, the `useTab` line.
   */
  lemma InterfaceLayout(w: Writer, c: Node, ctx: Context)
    requires c.Classifier?
    ensures var o := InterfaceOpen(w, c, ctx);
      var b := InterfaceBody(w, c, ctx);
      && (b.lines == o.lines || LastBlank(b))
      && WriteInterface(w, c, ctx).lines == b.lines[..|b.lines| - 1] + [Prefix(w) + "}\n"]
  {
    var b := InterfaceBody(w, c, ctx);
    assert Grows(InterfaceOpen(w, c, ctx), b);
    assert WriteInterface(w, c, ctx) == Close(w, b);
  }

  /**
    An interface without attributes, association fields, operations or inner
    definitions is its doc comment, header, `{` and `}`: the `useTab` line is
    written and popped again.
   */
  lemma EmptyInterface(w: Writer, c: Node, ctx: Context)
    requires c.Classifier? && c.attributes == [] && c.operations == [] && c.ownedElements == []
    requires forall i :: 0 <= i < |c.associations| ==> AssociationField(c.associations[i], c.id).None?
    ensures WriteInterface(w, c, ctx).lines ==
      w.lines + Indented(Prefix(w), DocLines(c.documentation, ctx.opts.phpDoc))
      + [Prefix(w) + Join(InterfaceTerms(c), " "), Prefix(w) + "{", Prefix(w) + "}\n"]
  {
    EmptyInterfaceBody(w, c, ctx);
    OpenWithoutUseTab(w, c, ctx);
  }

  /** Without members the body of an interface is its opening. */
  lemma EmptyInterfaceBody(w: Writer, c: Node, ctx: Context)
    requires c.Classifier? && c.attributes == [] && c.operations == [] && c.ownedElements == []
    requires forall i :: 0 <= i < |c.associations| ==> AssociationField(c.associations[i], c.id).None?
    ensures InterfaceBody(w, c, ctx) == InterfaceOpen(w, c, ctx)
  {
    NoAssociationFields(InterfaceOpen(w, c, ctx), c.associations, c.id, ctx.opts);
  }

  /** The opening of an interface without its last line, the `useTab` line. */
  lemma OpenWithoutUseTab(w: Writer, c: Node, ctx: Context)
    requires c.Classifier?
    ensures var o := InterfaceOpen(w, c, ctx);
      o.lines[..|o.lines| - 1] == w.lines + Indented(Prefix(w), DocLines(c.documentation, ctx.opts.phpDoc))
                                  + [Prefix(w) + Join(InterfaceTerms(c), " "), Prefix(w) + "{"]
  {
    var o := InterfaceOpen(w, c, ctx);
    var head := w.lines + Indented(Prefix(w), DocLines(c.documentation, ctx.opts.phpDoc));
    IndentedConcat(Prefix(w), [Join(InterfaceTerms(c), " "), "{"], [UseTabText(ctx.opts.useTab)]);
    assert [Join(InterfaceTerms(c), " "), "{"] + [UseTabText(ctx.opts.useTab)]
        == [Join(InterfaceTerms(c), " "), "{", UseTabText(ctx.opts.useTab)];
    assert o.lines == head + Indented(Prefix(w), [Join(InterfaceTerms(c), " "), "{"])
                      + Indented(Prefix(w), [UseTabText(ctx.opts.useTab)]);
  }

  lemma {:induction false} NoAssociationFields(w: Writer, associations: seq<Association>, id: nat, opts: Options)
    requires forall i :: 0 <= i < |associations| ==> AssociationField(associations[i], id).None?
    ensures WriteAssociationFields(w, associations, id, opts) == w
    decreases |associations|
  {
    if associations != [] {
      assert AssociationField(associations[0], id).None?;
      NoAssociationFields(w, associations[1..], id, opts);
    }
  }

  /**
    `writeEnum`: the literal line is written one level deeper and then
    removed by `lines.pop()`, so an enumeration is only its doc comment,
    its header with `{`, and `}`; no literal name appears.
   */
  function WriteEnum(w: Writer, c: Node, ctx: Context): (r: Writer)
    requires c.Classifier?
    ensures r.lines == w.lines + Indented(Prefix(w), DocLines(c.documentation, ctx.opts.phpDoc))
                       + [Prefix(w) + EnumHeader(c.name), Prefix(w) + "}\n"]
    ensures Appended(w, r) && |r.lines| > |w.lines|
  {
    var o := Open(w, c.documentation, [EnumHeader(c.name)], ctx.opts);
    var b := WriteLine(o, Join(LiteralTerms(c.literals, 0), " ") + "\n");
    assert b.lines[..|b.lines| - 1] == o.lines;
    var r := Close(w, b);
    assert Render(Prefix(w), EnumHeader(c.name)) == Prefix(w) + EnumHeader(c.name);
    OpenedAppended(w, o, b);
    CloseAppended(w, b);
    r
  }

  /** The header of an annotation type: its modifiers, `@interface` and its name, with `{` on the same written line. */
  function AnnotationHeader(c: Node): string
    requires c.Classifier?
  {
    Join(ModifierTerm(c.flags) + ["@interface", c.name], " ") + "\n{"
  }

  /** The opening of an annotation type: doc with author, header and an empty line, then one indentation level. */
  function AnnotationOpen(w: Writer, c: Node, ctx: Context): (r: Writer)
    requires c.Classifier?
    ensures r.lines == w.lines + Indented(Prefix(w), DocLines(AuthoredDoc(c.documentation, ctx.author), ctx.opts.phpDoc))
                       + Indented(Prefix(w), [AnnotationHeader(c), ""])
    ensures Opened(w, r)
  {
    Open(w, AuthoredDoc(c.documentation, ctx.author), [AnnotationHeader(c), ""], ctx.opts)
  }

  /** The opening, fields, signatures without parameters and inner definitions of an annotation type. */
  function AnnotationBody(w: Writer, c: Node, ctx: Context): (r: Writer)
    requires c.Classifier?
    ensures Grows(AnnotationOpen(w, c, ctx), r) && Opened(w, r)
    decreases c, 1, |c.ownedElements| + 1
  {
    var o := AnnotationOpen(w, c, ctx);
    var w1 := WriteFields(o, c.attributes, ctx.opts);
    var w2 := WriteSignatures(w1, c.operations, ctx, true);
    var w3 := WriteInnerDefs(w2, c, 0, ctx);
    GrowsTrans(o, w1, w2);
    GrowsTrans(o, w2, w3);
    OpenedAppended(w, o, w3);
    w3
  }

  /** `writeAnnotationType`: like the other emitters but without `lines.pop()`, closing with `}` alone. */
  function WriteAnnotationType(w: Writer, c: Node, ctx: Context): (r: Writer)
    requires c.Classifier?
    ensures Appended(w, r) && |r.lines| > |w.lines|
    decreases c, 2
  {
    var b := AnnotationBody(w, c, ctx);
    EndAppended(w, b);
    WriteLine(Outdent(b), "}")
  }

  /** `outdent()` and `}` after an opened unit, without `lines.pop()`: every line of the unit stays. */
  lemma EndAppended(w: Writer, b: Writer)
    requires Opened(w, b)
    ensures var r := WriteLine(Outdent(b), "}");
      && Appended(w, r) && |r.lines| > |w.lines|
      && r.lines == b.lines + [Prefix(w) + "}"]
  {
    var r := WriteLine(Outdent(b), "}");
    assert Outdent(b).indentations == w.indentations;
    assert r.lines[..|w.lines|] == b.lines[..|w.lines|];
  }

  /**
    An annotation type keeps every member line: it is its opening lines,
    everything its members wrote, and `}` at the outer indentation.
   */
  lemma AnnotationLayout(w: Writer, c: Node, ctx: Context)
    requires c.Classifier?
    ensures var b := AnnotationBody(w, c, ctx);
      WriteAnnotationType(w, c, ctx).lines == b.lines + [Prefix(w) + "}"]
  {
    EndAppended(w, AnnotationBody(w, c, ctx));
  }
}
