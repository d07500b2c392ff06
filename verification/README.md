# staruml-php code generator, modelled in Dafny

This project models the core of the StarUML PHP code generator, which has two parts:

- **`codegen-utils.js`** defines `CodeWriter`. It is a line buffer with an indentation stack and named sections. Lines can be inserted into a section after the fact.
- **`code-generator.js`** defines `PHPCodeGenerator`. It walks a UML model and writes one PHP file for every class, interface, enumeration and annotation type. It creates one directory for every package.

The model is pure and functional. A `Writer` value stands for the mutable `CodeWriter` and is threaded through functions. UML elements are immutable datatypes:

- `Node`: a package, a classifier or any other element;
- `Feature`: an attribute, a parameter or an association end;
- `Operation`, `Association` and `Ancestor`.

The host queries become fields and parameters:

- generalizations, interface realizations and associations become fields;
- the project author becomes a parameter.

The file system becomes a trace of `MkDir` and `WriteFile` actions, plus the set of directories that already exist.

Modules follow the structure of the program:

| module | file | models |
|---|---|---|
| `Wrappers` | wrappers.dfy | `Option` and `Result` |
| `Text` | text.dfy | the JavaScript string and array built-ins the generator uses (`join`, `split`, `trim`, `toUpperCase`, `indexOf`) |
| `CodeWriter` | code_writer.dfy | `CodeWriter` |
| `Model` | model.dfy | the UML elements and the generator options |
| `Namespaces` | namespaces.dfy | `getNamespaces`, `intersect`, `isEqual`, `diff` |
| `TypeResolution` | type_resolution.dfy | `getDocumentType`, `getType`, `getTypeHint`, `isAllowedTypeHint` |
| `Modifiers` | modifiers.dfy | `getVisibility`, `getModifiersClass`, `getModifiers`, `mergeArrayMerge` |
| `Members` | members.dfy | `getIndentString`, `writeDoc`, `writeSpec`, `writePackageDeclaration`, `writeConstructor`, `writeMemberVariable`, `writeMethod`, `writeSuperMethods` |
| `Emitters` | emitters.dfy | `writeClasses`, `writeClass`, `writeInterface`, `writeEnum`, `writeAnnotationType` |
| `Walker` | walker.dfy | `generate`, `isClass`, `getFilePath`, `generateClass` |

Several behaviours are modelled as written, even where they look unintended:

- **Duplicate sections.** `addSection` compares against a fresh object literal, so its duplicate test never matches. A second section of the same name is appended.
- **Section indentation.** A section stores the writer's live `indentations` array, not a copy. A line inserted into a section therefore takes the writer's indentation at the time of insertion.
- **Enumeration literals.** `writeEnum` writes the line of literals and then removes it with `lines.pop()`. An enumeration contains no literal names.
- **The `useTab` line.** `writeInterface` writes the value of `useTab` as a line. `true` becomes the text `true`; `false` becomes an empty line.
- **Return types.** With `phpReturnType`, `writeMethod` builds `name(...):type` and discards it. No return type is ever written.
- **Annotation types.** `writeAnnotationType` has no `lines.pop()`. It closes with `}` alone.
- **Missing constructor.** The constructor is synthesized only when no operation name contains `__construct`, the class is named, and it has no superclass.

Three defects are modelled twice: once as written, and once as evidently intended. The rest of the model uses the corrected form. See "## Findings".

## Model

| member | source | states |
|---|---|---|
| CodeWriter.New | codegen-utils.js:34-47 | A fresh writer has no lines, indentation or sections. An empty indentation unit falls back to four spaces, and a non-empty one is kept. |
| CodeWriter.Indent | codegen-utils.js:52-54 | Pushes the indentation unit, so the joined prefix grows by exactly that unit. Lines and sections are unchanged. |
| CodeWriter.Outdent | codegen-utils.js:59-61 | Drops the last indentation unit. On an empty stack it is a no-op, as `splice(-1, 1)` on `[]` is. |
| CodeWriter.IndentOutdent | codegen-utils.js:52-61 | Outdenting after indenting gives back the same writer. |
| CodeWriter.WriteLine | codegen-utils.js:67-73 | Appends exactly one line after all existing ones: the joined indentation plus the text, or an unindented empty line for empty text. Indentation and sections are unchanged. |
| CodeWriter.WriteLines | codegen-utils.js:67-73 | Writing several texts appends their rendered lines in order under one prefix. |
| CodeWriter.AddSection | codegen-utils.js:80-93 | Always appends a new section anchored at the current end of the buffer. It is empty and has its blank line still to reserve. Earlier sections and all lines are kept. |
| CodeWriter.FindSection | codegen-utils.js:101 | Returns the first section with the given name, or none exactly when no section has that name. |
| CodeWriter.FindSectionStable | codegen-utils.js:100-115 | After an insertion into a section, the lookup finds that same section again. |
| CodeWriter.InsertionShape | codegen-utils.js:100-115 | One insertion into the first section with the name puts the item, or a blank line when the text is empty or already listed in a unique section, at the anchor. On the first insertion it reserves one blank line after it. The lines before the anchor stay in place and the later lines shift by one or two. The anchor moves past the item, the item is recorded only when written, and no other section changes. |
| CodeWriter.FirstInsertion | codegen-utils.js:100-115 | The first insertion into a fresh section places the item, or a blank line, at the anchor. It reserves one blank line right after it and moves the anchor past the item. It shifts the later lines by two. |
| CodeWriter.SectionItemsBeforeBlank | codegen-utils.js:100-115 | Once the blank line is reserved, each further insertion keeps the items contiguous and the single blank line right after them. The anchor advances by one per item. |
| CodeWriter.SectionBlock | codegen-utils.js:80-115 | Writing n ≥ 1 items into a fresh section yields exactly those n items at its anchor, each indented or blank, then one blank line. The lines before and after stay in place. |
| CodeWriter.GetDataSplit | codegen-utils.js:121-123 | Splitting the serialised text on line feeds gives the lines back, provided no line contains a line feed. An empty buffer gives one empty line. |
| Text.SplitJoin | code-generator.js:436 | Splitting a join on the same one-character separator gives the parts back. |
| Text.JoinSplit | code-generator.js:457 | Joining the pieces of a split gives the original string back. |
| Namespaces.NamespacePath | code-generator.js:257-266 | The names of the enclosing plain packages, outermost first. The walk stops at the first owner that is not a plain package, such as the model root. |
| Namespaces.IntersectFull | code-generator.js:379-387 | `intersect(a, b)` keeps every entry of `a` exactly when `a` is a prefix of `b`, and is then `a` itself. |
| Namespaces.IsEqualIntersectIffPrefix | code-generator.js:364 | The test `isEqual(g, intersect(g, p))` holds exactly when `g` is a prefix of `p`. |
| Namespaces.DiffAfterPrefix | code-generator.js:401-409 | When `g` is a prefix of `p`, `diff(p, g)` is the part of `p` after `g`. |
| TypeResolution.QualifiedName | code-generator.js:288-293 | A qualified name starts with a backslash and ends with `\name`. At top level it is exactly `\name`. |
| TypeResolution.QualifiedNameParts | code-generator.js:288-293 | The middle is the package path: with non-empty package names and no backslash in any name, splitting what follows the leading backslash at each backslash gives the packages, outermost first, and then the name. |
| TypeResolution.DocumentTypeAsWritten | code-generator.js:284-300 | As written, a feature whose type is a model element throws, because `.map` is called on the string `getNamespaces` returns. Every other feature gets the same type as in the corrected form. |
| TypeResolution.DocumentTypeCases | code-generator.js:273-315 | Resolves `null` to `void`, a type string to itself, and an element or association-end reference to its qualified name. Appends `[]` exactly when the trimmed multiplicity is `0..*`, `1..*` or `*` and the type is not `void`; a `void` type string stays `void` whatever the multiplicity. |
| TypeResolution.TypeOf | code-generator.js:322-333 | `getType` is `void` for `null`. It is `array` exactly when the document type carries a collection marker and the multiplicity is set; otherwise it is the document type. |
| TypeResolution.CollectionIsArray | code-generator.js:309-331 | A collection multiplicity on a non-void type always yields the type `array`. |
| TypeResolution.TypeHint | code-generator.js:335-377 | A model element is written relative to the current namespace when that namespace is a prefix of its path. Otherwise it is written absolutely, led by a backslash. A type string is kept, and anything else is `void`. |
| TypeResolution.TypeHintSameNamespace | code-generator.js:363-373 | An element in the unit's own namespace is hinted by its bare name. |
| Modifiers.VisibilityKeyword | code-generator.js:171-183 | Each visibility has its own keyword, stated as an iff per case: `public` exactly for public, `protected` exactly for protected, `private` exactly for private, and empty exactly for package and unknown visibility. |
| Modifiers.RemoveFirstShape | code-generator.js:418-421 | Removing a value drops exactly its first occurrence, one copy fewer in the multiset. It leaves the list unchanged when the value is absent. |
| Modifiers.RemoveEachMultiset | code-generator.js:416-423 | Each non-empty entry of `array1` removes one occurrence of itself from `array2`. |
| Modifiers.MergeKeepsAndRemoves | code-generator.js:415-426 | The merge is `array1` unchanged, followed by what is left of `array2`: the multiset of `array2` minus the non-empty entries of `array1`. |
| Modifiers.MergeDisjoint | code-generator.js:415-426 | Lists with no common entry are simply concatenated. |
| Modifiers.ModifiersLayout | code-generator.js:214-222 | `getModifiers` is the visibility keyword, if any, followed by the class-level modifiers. The merge removes nothing. |
| Modifiers.ModifiersMembership | code-generator.js:190-222 | `static`, `abstract` and `final` are among the modifiers exactly when their flag is set. `final` comes from `isLeaf` or `isFinalSpecification`. |
| Modifiers.MergeOverlap | code-generator.js:415-426 | A non-empty keyword that `array2` holds no more often than `array1` appears in the merge exactly as often as in `array1`, and never after `array1`'s part. A keyword once in each list therefore appears once, in the first list's position. |
| Modifiers.MergeOverlapExample | code-generator.js:415-426 | One instance: merging `[public, static]` with `[static, final]` gives `[public, static, final]`. |
| Members.IndentString | code-generator.js:53-63 | One tab with `useTab`; otherwise exactly `indentSpaces` spaces, or none when that is not positive. |
| Members.DocLines | code-generator.js:433-447 | Nothing without `phpDoc`. Otherwise `/**`, then for each line of the trimmed text ` * ` and the trimmed line (a bare ` *` for an empty line), then ` */`. |
| Members.DocRoundTrip | code-generator.js:433-447 | When no line of the trimmed text has surrounding blanks, taking what follows ` * ` in each body line and joining with line feeds gives back the trimmed text. |
| Members.WriteSpec | code-generator.js:454-462 | Writes one line per line of the trimmed specification. The written pieces join back to the trimmed text. |
| Members.WritePackageDeclaration | code-generator.js:471-480 | Writes the line `namespace A\B` exactly when the path is non-empty and joins to a non-empty string. Otherwise it writes nothing. |
| Members.PackageDeclarationWritten | code-generator.js:471-480 | A path whose first package is named always gives a declaration. |
| Members.WriteConstructor | code-generator.js:488-512 | A named class with no superclass and no `__construct`-like operation gets its doc comment, `[visibility ]function __construct()`, `{` and `}`. Any other class gets nothing. |
| Members.ConstantDeclarationShape | code-generator.js:526-545 | A final or leaf field is `const NAME` with the name upper-cased and no `$` or modifiers. It is followed by ` = default` when there is a default, and ends in `;`. |
| Members.VariableDeclarationShape | code-generator.js:531-544 | Any other field is its modifiers, if any, then `$name`, then ` = default` when there is a default, and ends in `;`. |
| Members.WriteMemberVariable | code-generator.js:520-546 | An unnamed field writes nothing. A named one writes its `@var` doc comment and exactly one declaration line. |
| Members.AssociationField | code-generator.js:737-746 | An association yields a field exactly when one end refers to the class and the other end is navigable. It yields the second end when the first end matches. |
| Members.ReturnStatement | code-generator.js:649-664 | The default return statement for each type family, each stated as an if-and-only-if. `return null` is given for every other type. |
| Members.BodyLines | code-generator.js:642-666 | The body is the trimmed specification line by line. Without one, it is the TODO marker plus a default return exactly when there is a return parameter. |
| Members.WriteMethod | code-generator.js:583-675 | Returns true exactly for a named operation. An unnamed one leaves the writer unchanged. Otherwise lines are only appended. |
| Members.SignatureNonEmpty | code-generator.js:599-631 | A signature always contains `function`, so its line is never written as an empty line. |
| Members.WriteSuperMethods | code-generator.js:555-572 | The implemented names grow by the rendered overrides' names, in order. Each override is named and documented `@inheritDoc`. Lines are only appended, and they are the rendering of exactly the emitted overrides. |
| Members.WriteOverridesText | code-generator.js:563-567 | Rendering overrides appends, for each in order, its doc comment, signature line and body block, then an empty line. |
| Members.SuperMethodsText | code-generator.js:555-572 | The lines a pass writes are the method texts of the operations it emits, each followed by an empty line. |
| Members.AbstractParentRendered | code-generator.js:555-572 | For an abstract parent, the lines written are the method texts of its named abstract operations, in order, each made concrete and documented `@inheritDoc`, whatever is implemented already. |
| Members.AbstractParentPass | code-generator.js:555-572 | For an abstract parent, exactly its named abstract operations are rendered, in order, whatever is implemented already. Each is rendered as a concrete copy. |
| Members.InterfacePassCoverage | code-generator.js:555-572 | After an interface pass, a name is implemented exactly when it was before or a named operation of the interface carries it. |
| Members.InterfacePassAtMostOnce | code-generator.js:555-572 | In an interface pass, a name that only non-abstract operations carry is rendered at most once, and not at all when it is already implemented. |
| Members.AbstractOverrides | code-generator.js:555-572 | The operations selected from an abstract parent are exactly its named abstract ones, in order, each turned concrete, whatever names are already implemented. |
| Members.InterfaceCoverage | code-generator.js:555-572 | The implemented names plus the names selected from an interface hold a name exactly when it was implemented before or is a named operation of the interface. |
| Members.InterfaceAtMostOnce | code-generator.js:555-572 | Among the operations selected from an interface, a name that only non-abstract operations carry occurs at most once, and never when it was already implemented. |
| Members.InterfaceAbstractRendered | code-generator.js:557-570 | In an interface pass, every named abstract operation is selected, even when its name is already implemented. The selection test is "not yet implemented, or abstract". |
| Members.InterfacePassAbstract | code-generator.js:555-572 | An interface pass renders every named abstract operation of the interface. The copy keeps its abstract flag, because only the abstract-parent pass clears it. The name is recorded once more even when it was already implemented. |
| Emitters.OwnMethodsRecorded | code-generator.js:749-756 | The own-methods loop records exactly the named operations, in order. |
| Emitters.NamedNamesMembership | code-generator.js:749-756 | A name is recorded exactly when it is non-empty and names an operation. |
| Emitters.InterfacePassesOnce | code-generator.js:762-766 | A name that only non-abstract operations carry, and that was implemented at most once before, is implemented at most once after all interface passes. |
| Emitters.InterfaceFirstWins | code-generator.js:559-566 | First declaration wins. Take a non-empty name that is not yet implemented and that the first interface declares, where only non-abstract operations carry it in any interface. The first interface's pass renders it, and after all passes it is implemented exactly once, so no later interface renders it again. |
| Emitters.InterfacePassesCoverage | code-generator.js:762-766 | After all interface passes, a name is implemented exactly when it was before or names an operation of some interface. |
| Emitters.ClassImplements | code-generator.js:748-766 | A class ends up implementing a name exactly when it is a named own operation, a named abstract operation of the first superclass, or a named operation of an interface. |
| Emitters.SuperBeforeInterfaces | code-generator.js:758-766 | The first superclass's pass runs before the interface passes. Take a name that is not an own operation, is declared abstract exactly once by the first superclass, and is carried only by non-abstract operations in the interfaces. The class implements it exactly once: the interfaces find it already implemented and do not render it again. |
| Emitters.WriteClasses | code-generator.js:146-164 | A classifier is written by its emitter and always adds lines after the existing ones. Anything else writes nothing. |
| Emitters.WriteClass | code-generator.js:683-780 | A class ends with its body, whose last line is the blank line after the members. The `lines.pop()` removes exactly that line, and `}` follows at the outer indentation. |
| Emitters.InterfaceLayout | code-generator.js:805-848 | The `lines.pop()` of an interface removes the blank line that ends its members. When no member was written, it removes the `useTab` line instead. |
| Emitters.EmptyInterface | code-generator.js:788-849 | An interface with no members is its doc comment, header, `{` and `}`. The `useTab` line is written and then popped. |
| Emitters.WriteEnum | code-generator.js:857-886 | An enumeration is its doc comment, its header ending in `extends \SplEnum` with `{`, and `}`. The literal line is removed again. |
| Emitters.AnnotationLayout | code-generator.js:894-940 | An annotation type keeps every member line and ends with `}` at the outer indentation. It has no `lines.pop()`. |
| Walker.Extension | code-generator.js:130-135 | The file extension is the class extension for a class that is not an annotation type, and the interface extension for an interface. Enumerations and annotation types get none. |
| Walker.FilePath | code-generator.js:104-111 | Both branches give base, `/`, name, extension and `.php`. The path has `base/` as a string prefix. |
| Walker.FileAction | code-generator.js:118-138 | Each classifier becomes one file write at its file path. |
| Walker.PreambleShape | code-generator.js:124-128 | A file starts with `<?php` and a blank line, then the namespace declaration when there is one, then an empty line. The `uses` section is anchored at that point and nothing is indented. |
| Walker.Generate | code-generator.js:72-91 | A walk that has already failed does nothing more. |
| Walker.GenerateFollowsPlan | code-generator.js:72-91 | A walk succeeds exactly when its plan creates no directory that already exists and none twice. It then performs exactly the plan: a directory per package before its members, and a file per classifier, in model order. |
| Walker.FreshDirsConcat | code-generator.js:81-86 | A sequence of directory creations succeeds exactly when its first part does and its second part does after the first. |
| Walker.PlanUnder | code-generator.js:72-111 | Every directory and file path of a walk has `base/` as a string prefix. |
| Walker.RerunFails | code-generator.js:81 | Generating a package a second time into the same place fails at once, with no further action. |

## Left out

- **Host and file system.** `main.js` is not part of this model: the menu commands, dialogs, preferences and the choice of base directory. The file system is modelled as an action trace. Only the "path exists" exception of `fs.mkdirSync` is modelled, and only against directories: the set of existing paths holds directories alone, and written files never enter it. `fs.mkdirSync` also throws when a file of that name exists. For example, class `X` with an empty class extension is written to `base/X.php` (code-generator.js:105-110), and a later sibling package named `X.php` then throws at code-generator.js:81. The model creates that directory. A failing `fs.writeFileSync` is not modelled. `console.log` is left out.
- **Repository queries.** `app.repository.getRelationshipsOf` and the project author are not called. Superclasses, interfaces and associations are fields of the classifier, and the author is a parameter. `getSuperClasses` and `getSuperInterfaces` are therefore the field reads.
- **Element identity.** Identity tests (`asso.end1.reference === elem`) compare node ids.
- **`instanceof` tests.** These are the datatype's variants. The generator's checks for `undefined` methods and for non-array `ownedElements` have no counterpart.
- Walker.PathJoin: `path.join` is modelled as `base + "/" + name`, without its normalisation of `.`, `..` and repeated separators.
- Walker.PlanUnder: proves a string prefix, not that the file system location lies inside `base`. A package named `..` makes `path.join` return the parent of `base` (code-generator.js:77), so its directories and files land outside `base`. The model does not normalise paths, so it cannot state containment.
- Walker.FilePath: the same gap. A class named `../x` is written to `base/../x.php` (code-generator.js:105), which resolves outside `base`, yet the string still starts with `base/`.
- Text.Trim and Text.ToUpper: cover ASCII only. JavaScript also trims Unicode white space and upper-cases non-ASCII letters.
- **Separator scope.** `SEPARATE_NAMESPACE` is declared inside `getDocumentType`, at code-generator.js:275, but is also read in `getTypeHint`, `writePackageDeclaration` and `writeEnum`. There it is not declared in any enclosing scope, so reading it throws a `ReferenceError`. The model uses the evidently intended backslash everywhere (TypeResolution.Separator). It does not model those exceptions, which would make every enumeration fail.
- **Mutation of inherited operations.** `writeSuperMethods` renders an inherited operation through `clone = method`, which aliases it. It then sets `isAbstract = false` and `documentation = "@inheritDoc"` on the superclass's own operation, and that mutation is visible to everything generated afterwards. That includes later files and the same file: `writeClass` runs the superclass and interface passes (code-generator.js:759-764) before the inner definitions (769-772). An inner class with the same abstract parent therefore finds `isAbstract` already false at line 562 and gets no overrides. An interface operation already rendered once likewise carries `@inheritDoc` as its documentation from then on. Members.Override returns a modified copy instead. In the model, later classes, inner classes included, see the original operation, so the inner class gets the overrides.
- Members.WriteMethod: its contract only states that lines are appended. Their exact text, the doc comment, signature, braces and body, is stated by Members.WriteMethodLines.
- CodeWriter.WriteLineInSection: its contract states the frame and that a missing section changes nothing. Where the item and the blank line go is stated per insertion by InsertionShape and over several insertions by FirstInsertion, SectionItemsBeforeBlank and SectionBlock, for sections whose anchor lies within the buffer.
- Emitters.WriteInterface and Emitters.WriteAnnotationType: their contracts only state that lines are appended. The layout is stated by Emitters.InterfaceLayout and Emitters.AnnotationLayout.
- **Enumeration literal line.** The line of literal terms is built (Emitters.LiteralTerms) but carries no contract, because it is removed again.

## Findings

| source | as written | input that shows it | evidently intended | confidence | as-written member | corrected member |
|---|---|---|---|---|---|---|
| codegen-utils.js:101 | `this.sections.find({name: name})` passes an object where `find` needs a predicate, so it throws a `TypeError` whenever it runs | any call of `writeLineInSection`, with any sections | the first section whose name is `name` | not executed | CodeWriter.FindSectionAsWritten | CodeWriter.FindSection |
| code-generator.js:257-266 | `_parent + _namespace` applies `+` to two arrays, which gives a string: the package names run together, and `""` at top level. `getDocumentType` calls `.map` on that string (lines 288 and 298), and so does `getTypeHint` at line 367. A string has no `map`, so `getDocumentType` throws a `TypeError` for every feature whose type is a model element | an attribute typed by a top-level class `User` (TypeResolution.DocumentTypeAsWrittenThrows) | the list of enclosing package names, outermost first, giving the type `\User` | not executed | TypeResolution.DocumentTypeAsWritten | Namespaces.NamespacePath |
| code-generator.js:471-480 | for any class inside a named package, `writePackageDeclaration` throws at line 475. The call `namespacePath.join(SEPARATE_NAMESPACE)` first evaluates its argument, which is not in scope, so a `ReferenceError` is raised. Even with the separator in scope, the string from `getNamespaces` has no `join`, and a `TypeError` would follow | a class directly in package `App` (Walker.PackageDeclarationAsWrittenThrows) | the line `namespace App` | not executed | Walker.PackageDeclarationAsWritten | Members.WritePackageDeclaration |
