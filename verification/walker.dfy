/**
  The model walk of code-generator.js (`generate`, `isClass`, `getFilePath`,
  `generateClass`): a directory per package, a PHP file per class, interface
  and enumeration.

  The file system is replaced by a trace of actions and the set of
  directories that exist; `fs.mkdirSync` on an existing directory throws,
  which ends the whole walk.
 */
module Walker {
  import opened Wrappers
  import opened Text
  import opened Model
  import opened CodeWriter
  import opened Namespaces
  import opened TypeResolution
  import opened Members
  import opened Emitters

  datatype Action = MkDir(path: string) | WriteFile(path: string, text: string)

  /** The actions performed so far, the directories that exist, and whether an exception ended the walk. */
  datatype Run = Run(actions: seq<Action>, dirs: set<string>, failed: bool)

  /** `path.join` of a base and one segment (no normalisation of `.`, `..` or repeated separators). */
  function PathJoin(base: string, name: string): string
  {
    base + "/" + name
  }

  /** `p` has `base + "/"` as a string prefix; without `.` or `..` segments after it, that is a path below `base`. */
  predicate Under(p: string, base: string)
  {
    |base| + 1 <= |p| && p[..|base| + 1] == base + "/"
  }

  /** The owner entry a package contributes to the chains of its members. */
  function OwnerOf(p: Node): Owner
    requires p.Package?
  {
    if p.isModel then ModelOwner else PackageOwner(p.name)
  }

  // ---------------------------------------------------------------------------
  // One file
  // ---------------------------------------------------------------------------

  /**
    The extension chosen in `generateClass`: the class extension for a class
    that is not an annotation type, the interface extension for an interface,
    none otherwise.
   */
  function Extension(c: Node, opts: Options): (ext: string)
    requires c.Classifier?
    ensures c.kind == InterfaceKind ==> ext == opts.interfaceExtension
    ensures c.kind == EnumerationKind || IsAnnotationType(c) ==> ext == ""
    ensures c.kind == ClassKind && !IsAnnotationType(c) ==> ext == opts.classExtension
  {
    if c.kind == ClassKind && c.stereotype != "annotationType" then opts.classExtension
    else if c.kind == InterfaceKind then opts.interfaceExtension
    else ""
  }

  /**
    `getFilePath`: both branches of the extension test give the base
    directory, the element name, the extension and `.php`.
   */
  function FilePath(base: string, name: string, ext: string): (p: string)
    ensures p == PathJoin(base, name) + ext + ".php"
    ensures Under(p, base)
  {
    var absPath := base + "/" + name;
    if ext != "" then absPath + ext + ".php" else absPath + ".php"
  }

  /**
    What `generateClass` writes before the class: `<?php` and a blank line,
    the namespace declaration, an empty line, and the `uses` section.
   */
  function Preamble(path: seq<string>, opts: Options): Writer
  {
    var w0 := New(IndentString(opts));
    var w1 := WriteLine(w0, "<?php\n");
    var w2 := WritePackageDeclaration(w1, path);
    var w3 := WriteLine(w2, "");
    AddSection(w3, "uses", true)
  }

  /** The writer of `generateClass` once the class has been emitted. */
  function ClassWriter(c: Node, owners: seq<Owner>, opts: Options, author: string): Writer
  {
    var path := NamespacePath(owners);
    WriteClasses(Preamble(path, opts), c, Context(opts, author, path))
  }

  /** The text `generateClass` writes to the file. */
  function ClassFile(c: Node, owners: seq<Owner>, opts: Options, author: string): string
  {
    GetData(ClassWriter(c, owners, opts, author))
  }

  /** The file `generateClass` writes for a class, interface or enumeration in directory `base`. */
  function FileAction(c: Node, base: string, owners: seq<Owner>, opts: Options, author: string): (a: Action)
    requires c.Classifier?
    ensures a.WriteFile? && a.path == FilePath(base, c.name, Extension(c, opts))
  {
    WriteFile(FilePath(base, c.name, Extension(c, opts)), ClassFile(c, owners, opts, author))
  }

  /**
    The preamble: `<?php` and a blank line, the namespace declaration when
    the enclosing packages give one, and an empty line at which the `uses`
    section is anchored, with nothing indented.
   */
  lemma PreambleShape(path: seq<string>, opts: Options)
    ensures var w := Preamble(path, opts);
      var k := if |path| > 0 && Join(path, Separator) != "" then 3 else 2;
      && |w.lines| == k
      && w.lines[0] == "<?php\n"
      && (k == 3 ==> w.lines[1] == "namespace " + Join(path, Separator))
      && w.lines[k - 1] == ""
      && w.sections == [Section("uses", k, true, true, [])]
      && w.indentations == []
  {
    var w0 := New(IndentString(opts));
    assert Prefix(w0) == "";
    var w1 := WriteLine(w0, "<?php\n");
    assert Render(Prefix(w0), "<?php\n") == "<?php\n";
    assert w1.lines == ["<?php\n"];
    var w2 := WritePackageDeclaration(w1, path);
    if |path| > 0 && Join(path, Separator) != "" {
      assert Prefix(w1) + "namespace " + Join(path, Separator) == "namespace " + Join(path, Separator);
      assert w2.lines == ["<?php\n", "namespace " + Join(path, Separator)];
    }
  }

  /** Every file starts with the preamble, unchanged, and the class follows it. */
  lemma ClassFileHeader(c: Node, owners: seq<Owner>, opts: Options, author: string)
    requires c.Classifier?
    ensures var p := Preamble(NamespacePath(owners), opts);
      var w := ClassWriter(c, owners, opts, author);
      |w.lines| > |p.lines| && w.lines[..|p.lines|] == p.lines && w.sections == p.sections
  {
  }

  // ---------------------------------------------------------------------------
  // The walk
  // ---------------------------------------------------------------------------

  /**
    `generate`: a package makes its directory (an existing one throws) and
    walks its members in order; a class, interface or enumeration becomes one
    file; anything else is skipped. A failed walk does nothing more.
   */
  function Generate(n: Node, base: string, owners: seq<Owner>, opts: Options, author: string, run: Run): (r: Run)
    ensures run.failed ==> r == run
    decreases n, 1
  {
    if run.failed then run
    else match n
      case Package(name, _, _) =>
        var full := PathJoin(base, name);
        if full in run.dirs then run.(failed := true)
        else
          GenerateChildren(n, 0, full, owners + [OwnerOf(n)], opts, author,
                           Run(run.actions + [MkDir(full)], run.dirs + {full}, false))
      case Classifier(_, _, _, _, _, _, _, _, _, _, _, _, _) =>
        run.(actions := run.actions + [FileAction(n, base, owners, opts, author)])
      case OtherElement(_) => run
  }

  /** The `forEach` over a package's members from index `i` on. */
  function GenerateChildren(parent: Node, i: nat, base: string, owners: seq<Owner>, opts: Options, author: string,
                            run: Run): (r: Run)
    requires parent.Package? && i <= |parent.ownedElements|
    ensures run.failed ==> r == run
    decreases parent, 0, |parent.ownedElements| - i
  {
    if i == |parent.ownedElements| then run
    else
      var r := Generate(parent.ownedElements[i], base, owners, opts, author, run);
      GenerateChildren(parent, i + 1, base, owners, opts, author, r)
  }

  // ---------------------------------------------------------------------------
  // The plan: the walk without a file system
  // ---------------------------------------------------------------------------

  /** The actions the walk of `n` performs when no directory is in the way, in order. */
  function Plan(n: Node, base: string, owners: seq<Owner>, opts: Options, author: string): seq<Action>
    decreases n, 1
  {
    match n
      case Package(name, _, _) =>
        [MkDir(PathJoin(base, name))] + PlanChildren(n, 0, PathJoin(base, name), owners + [OwnerOf(n)], opts, author)
      case Classifier(_, _, _, _, _, _, _, _, _, _, _, _, _) => [FileAction(n, base, owners, opts, author)]
      case OtherElement(_) => []
  }

  function PlanChildren(parent: Node, i: nat, base: string, owners: seq<Owner>, opts: Options, author: string): seq<Action>
    requires parent.Package? && i <= |parent.ownedElements|
    decreases parent, 0, |parent.ownedElements| - i
  {
    if i == |parent.ownedElements| then []
    else Plan(parent.ownedElements[i], base, owners, opts, author) + PlanChildren(parent, i + 1, base, owners, opts, author)
  }

  /** The directories a list of actions creates. */
  function DirsOf(acts: seq<Action>): set<string>
    decreases |acts|
  {
    if acts == [] then {}
    else (if acts[0].MkDir? then {acts[0].path} else {}) + DirsOf(acts[1..])
  }

  /** No directory of `acts` exists beforehand or is created twice. */
  predicate FreshDirs(dirs: set<string>, acts: seq<Action>)
    decreases |acts|
  {
    acts == [] ||
    (if acts[0].MkDir? then acts[0].path !in dirs && FreshDirs(dirs + {acts[0].path}, acts[1..])
     else FreshDirs(dirs, acts[1..]))
  }

  lemma {:induction false} DirsOfConcat(a: seq<Action>, b: seq<Action>)
    ensures DirsOf(a + b) == DirsOf(a) + DirsOf(b)
    decreases |a|
  {
    if a == [] {
      assert a + b == b;
    } else {
      assert (a + b)[0] == a[0];
      assert (a + b)[1..] == a[1..] + b;
      DirsOfConcat(a[1..], b);
    }
  }

  /** A list is fresh iff its first part is, and its second part is fresh after the first. */
  lemma {:induction false} FreshDirsConcat(dirs: set<string>, a: seq<Action>, b: seq<Action>)
    ensures FreshDirs(dirs, a + b) <==> FreshDirs(dirs, a) && FreshDirs(dirs + DirsOf(a), b)
    decreases |a|
  {
    if a == [] {
      assert a + b == b;
      assert DirsOf(a) == {};
      assert dirs + DirsOf(a) == dirs;
    } else {
      assert (a + b)[0] == a[0];
      assert (a + b)[1..] == a[1..] + b;
      if a[0].MkDir? {
        FreshDirsConcat(dirs + {a[0].path}, a[1..], b);
        assert dirs + {a[0].path} + DirsOf(a[1..]) == dirs + DirsOf(a);
      } else {
        FreshDirsConcat(dirs, a[1..], b);
        assert DirsOf(a) == DirsOf(a[1..]);
      }
    }
  }

  /**
    A walk that starts cleanly ends cleanly iff its plan creates no
    directory that already exists and none twice; then it has performed
    exactly the plan and the plan's directories exist.
   */
  predicate Follows(r: Run, run: Run, plan: seq<Action>)
  {
    && (!r.failed <==> FreshDirs(run.dirs, plan))
    && (!r.failed ==> r.actions == run.actions + plan && r.dirs == run.dirs + DirsOf(plan))
  }

  lemma {:induction false} GenerateFollowsPlan(n: Node, base: string, owners: seq<Owner>, opts: Options, author: string,
                                               run: Run)
    requires !run.failed
    ensures Follows(Generate(n, base, owners, opts, author, run), run, Plan(n, base, owners, opts, author))
    decreases n, 1
  {
    match n
      case Package(_, _, _) =>
        PackageFollowsPlan(n, base, owners, opts, author, run);
      case Classifier(_, _, _, _, _, _, _, _, _, _, _, _, _) =>
        FileFollowsPlan(n, base, owners, opts, author, run);
      case OtherElement(_) =>
        assert run.dirs + {} == run.dirs;
  }

  lemma FileFollowsPlan(n: Node, base: string, owners: seq<Owner>, opts: Options, author: string, run: Run)
    requires n.Classifier? && !run.failed
    ensures Follows(Generate(n, base, owners, opts, author, run), run, Plan(n, base, owners, opts, author))
  {
    var a := FileAction(n, base, owners, opts, author);
    assert Plan(n, base, owners, opts, author) == [a];
    assert Generate(n, base, owners, opts, author, run) == run.(actions := run.actions + [a]);
    FileStepFollows(run, a);
  }

  /** Writing one file creates no directory and cannot fail. */
  lemma FileStepFollows(run: Run, a: Action)
    requires !run.failed && a.WriteFile?
    ensures Follows(run.(actions := run.actions + [a]), run, [a])
  {
    assert [a][1..] == [];
    assert DirsOf([a]) == {};
    assert run.dirs + {} == run.dirs;
  }

  lemma {:induction false} PackageFollowsPlan(n: Node, base: string, owners: seq<Owner>, opts: Options, author: string,
                                              run: Run)
    requires n.Package? && !run.failed
    ensures Follows(Generate(n, base, owners, opts, author, run), run, Plan(n, base, owners, opts, author))
    decreases n, 0, |n.ownedElements| + 1
  {
    var full := PathJoin(base, n.name);
    var rest := PlanChildren(n, 0, full, owners + [OwnerOf(n)], opts, author);
    var plan := [MkDir(full)] + rest;
    assert Plan(n, base, owners, opts, author) == plan;
    assert plan[0] == MkDir(full) && plan[1..] == rest;
    if full !in run.dirs {
      var run1 := Run(run.actions + [MkDir(full)], run.dirs + {full}, false);
      assert Generate(n, base, owners, opts, author, run)
          == GenerateChildren(n, 0, full, owners + [OwnerOf(n)], opts, author, run1);
      GenerateChildrenFollowsPlan(n, 0, full, owners + [OwnerOf(n)], opts, author, run1);
      assert run.actions + [MkDir(full)] + rest == run.actions + plan;
      assert DirsOf(plan) == {full} + DirsOf(rest);
    }
  }

  lemma {:induction false} GenerateChildrenFollowsPlan(parent: Node, i: nat, base: string, owners: seq<Owner>,
                                                       opts: Options, author: string, run: Run)
    requires parent.Package? && i <= |parent.ownedElements|
    requires !run.failed
    ensures Follows(GenerateChildren(parent, i, base, owners, opts, author, run), run,
                    PlanChildren(parent, i, base, owners, opts, author))
    decreases parent, 0, |parent.ownedElements| - i
  {
    if i == |parent.ownedElements| {
      assert run.dirs + DirsOf([]) == run.dirs;
    } else {
      var child := parent.ownedElements[i];
      var first := Plan(child, base, owners, opts, author);
      var rest := PlanChildren(parent, i + 1, base, owners, opts, author);
      var r1 := Generate(child, base, owners, opts, author, run);
      var r := GenerateChildren(parent, i + 1, base, owners, opts, author, r1);
      assert GenerateChildren(parent, i, base, owners, opts, author, run) == r;
      assert PlanChildren(parent, i, base, owners, opts, author) == first + rest;
      GenerateFollowsPlan(child, base, owners, opts, author, run);
      if !r1.failed {
        GenerateChildrenFollowsPlan(parent, i + 1, base, owners, opts, author, r1);
      }
      FollowsConcat(run, r1, r, first, rest);
    }
  }

  /** Two walks in sequence follow the concatenation of their plans. */
  lemma FollowsConcat(run: Run, r1: Run, r: Run, first: seq<Action>, rest: seq<Action>)
    requires Follows(r1, run, first)
    requires r1.failed ==> r == r1
    requires !r1.failed ==> Follows(r, r1, rest)
    ensures Follows(r, run, first + rest)
  {
    FreshDirsConcat(run.dirs, first, rest);
    if !r1.failed {
      DirsOfConcat(first, rest);
      assert run.actions + first + rest == run.actions + (first + rest);
      assert run.dirs + DirsOf(first) + DirsOf(rest) == run.dirs + DirsOf(first + rest);
    }
  }

  /** Every action of `acts` lies below `base`. */
  predicate AllUnder(acts: seq<Action>, base: string)
  {
    forall k :: 0 <= k < |acts| ==> Under(acts[k].path, base)
  }

  /** Every action of the walk of `n` from `base` lies below `base`. */
  lemma {:induction false} PlanUnder(n: Node, base: string, owners: seq<Owner>, opts: Options, author: string)
    ensures AllUnder(Plan(n, base, owners, opts, author), base)
    decreases n, 1
  {
    match n
      case Package(name, _, _) =>
        var full := PathJoin(base, name);
        var rest := PlanChildren(n, 0, full, owners + [OwnerOf(n)], opts, author);
        PlanChildrenUnder(n, 0, full, owners + [OwnerOf(n)], opts, author);
        assert Under(full, base) by {
          assert full == (base + "/") + name;
        }
        forall k | 0 <= k < |rest|
          ensures Under(rest[k].path, base)
        {
          UnderTrans(rest[k].path, full, base);
        }
        AllUnderConcat([MkDir(full)], rest, base);
      case Classifier(_, _, _, _, _, _, _, _, _, _, _, _, _) =>
      case OtherElement(_) =>
  }

  lemma {:induction false} PlanChildrenUnder(parent: Node, i: nat, base: string, owners: seq<Owner>, opts: Options,
                                             author: string)
    requires parent.Package? && i <= |parent.ownedElements|
    ensures AllUnder(PlanChildren(parent, i, base, owners, opts, author), base)
    decreases parent, 0, |parent.ownedElements| - i
  {
    if i < |parent.ownedElements| {
      var first := Plan(parent.ownedElements[i], base, owners, opts, author);
      var rest := PlanChildren(parent, i + 1, base, owners, opts, author);
      PlanUnder(parent.ownedElements[i], base, owners, opts, author);
      PlanChildrenUnder(parent, i + 1, base, owners, opts, author);
      assert PlanChildren(parent, i, base, owners, opts, author) == first + rest;
      AllUnderConcat(first, rest, base);
    }
  }

  lemma AllUnderConcat(a: seq<Action>, b: seq<Action>, base: string)
    requires AllUnder(a, base) && AllUnder(b, base)
    ensures AllUnder(a + b, base)
  {
    forall k | 0 <= k < |a + b|
      ensures Under((a + b)[k].path, base)
    {
      if k < |a| {
        assert (a + b)[k] == a[k];
      } else {
        assert (a + b)[k] == b[k - |a|];
      }
    }
  }

  /** A path below a subdirectory of `base` lies below `base`. */
  lemma UnderTrans(p: string, full: string, base: string)
    requires Under(p, full) && Under(full, base)
    ensures Under(p, base)
  {
    assert p[..|base| + 1] == p[..|full| + 1][..|base| + 1];
    assert full[..|base| + 1] == (full + "/")[..|base| + 1];
  }

  /**
    Walking a package a second time into the same place fails at once: its
    directory exists since the first walk.
   */
  lemma RerunFails(n: Node, base: string, owners: seq<Owner>, opts: Options, author: string, run: Run)
    requires n.Package? && !run.failed
    requires !Generate(n, base, owners, opts, author, run).failed
    ensures var r := Generate(n, base, owners, opts, author, run);
      var again := Generate(n, base, owners, opts, author, r);
      again.failed && again.actions == r.actions
  {
    GenerateFollowsPlan(n, base, owners, opts, author, run);
    var plan := Plan(n, base, owners, opts, author);
    assert plan[0] == MkDir(PathJoin(base, n.name));
    assert PathJoin(base, n.name) in DirsOf(plan);
  }

  // ---------------------------------------------------------------------------
  // The namespace declaration as written
  // ---------------------------------------------------------------------------

  /**
    `writePackageDeclaration` on what `getNamespaces` actually returns: a
    string, whose `length` is checked; as soon as it is non-empty the call of
    its missing `join` method throws (the separator argument, which is not in
    scope there, throws first).
   */
  function PackageDeclarationAsWritten(w: Writer, owners: seq<Owner>): (r: Result<Writer, string>)
    ensures r.Failure? <==> NamespacePathAsWritten(owners) != ""
    ensures r.Success? ==> r.value == w
  {
    var namespacePath := NamespacePathAsWritten(owners);
    if |namespacePath| > 0 then Failure("exception in namespacePath.join")
    else Success(w)
  }

  /**
    A class directly inside a package named `App` cannot be generated as
    written, while the corrected declaration writes `namespace App`.
   */
  lemma PackageDeclarationAsWrittenThrows(w: Writer)
    ensures PackageDeclarationAsWritten(w, [ModelOwner, PackageOwner("App")]).Failure?
    ensures WritePackageDeclaration(w, NamespacePath([ModelOwner, PackageOwner("App")])).lines
         == w.lines + [Prefix(w) + "namespace App"]
  {
    var owners := [ModelOwner, PackageOwner("App")];
    assert owners[..1] == [ModelOwner];
    assert NamespacePath(owners[..1]) == [];
    assert NamespacePath(owners) == ["App"];
    PackageDeclarationWritten(w, ["App"]);
    assert Join(["App"], Separator) == "App";
    assert "namespace " + "App" == "namespace App";
  }
}
