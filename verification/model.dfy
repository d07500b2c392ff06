/**
  The UML elements the generator reads, as immutable values. Relationship
  queries against the host repository (generalizations, interface
  realizations, associations, the project author) become explicit fields and
  parameters; a node's identity, which the source tests with `===`, is its `id`.
 */
module Model {
  import opened Wrappers

  datatype Visibility = PackageVisibility | PublicVisibility | ProtectedVisibility | PrivateVisibility
                      | NoVisibility  // a value outside the four kinds

  /** The modifier flags of an element. */
  datatype Flags = Flags(
    visibility: Visibility,
    isStatic: bool,
    isAbstract: bool,
    isLeaf: bool,
    isFinalSpecification: bool)

  /** One link of an element's owner chain, listed outermost first. */
  datatype Owner = PackageOwner(name: string) | ModelOwner | OtherOwner

  /** What a `type` or `reference` field holds. */
  datatype TypeRef =
    | NoType                                                     // null or undefined
    | TypeName(text: string)                                     // a free-form type string
    | ElementType(id: nat, name: string, owners: seq<Owner>)     // a model element

  /**
    An attribute, a parameter or an association end: a named, typed element.
    For an association end (`isEnd`) the type is the end's `reference`.
   */
  datatype Feature = Feature(
    name: string,
    isEnd: bool,
    typeRef: TypeRef,
    multiplicity: string,
    defaultValue: string,
    documentation: string,
    flags: Flags,
    navigable: bool)

  datatype Operation = Operation(
    name: string,
    parameters: seq<Feature>,           // the non-return parameters, in order
    returnParameter: Option<Feature>,
    specification: string,
    documentation: string,
    flags: Flags)

  datatype Association = Association(end1: Feature, end2: Feature)

  /** A superclass or realized interface, as far as the generator reads it. */
  datatype Ancestor = Ancestor(name: string, operations: seq<Operation>)

  datatype Kind = ClassKind | InterfaceKind | EnumerationKind

  datatype Node =
    | Package(name: string, isModel: bool, ownedElements: seq<Node>)
    | Classifier(
        kind: Kind,
        id: nat,
        name: string,
        stereotype: string,
        documentation: string,
        flags: Flags,
        attributes: seq<Feature>,
        operations: seq<Operation>,
        literals: seq<string>,
        ownedElements: seq<Node>,
        superclasses: seq<Ancestor>,     // targets of generalizations with this node as source
        interfaces: seq<Ancestor>,       // targets of interface realizations with this node as source
        associations: seq<Association>)  // associations touching this node
    | OtherElement(name: string)

  /** The generator options read from the host preferences. */
  datatype Options = Options(
    phpDoc: bool,
    useTab: bool,
    indentSpaces: int,
    classExtension: string,
    interfaceExtension: string,
    phpStrictMode: bool,
    phpReturnType: bool)

  /** A class stereotyped as an annotation type. */
  predicate IsAnnotationType(n: Node)
  {
    n.Classifier? && n.kind == ClassKind && n.stereotype == "annotationType"
  }
}
