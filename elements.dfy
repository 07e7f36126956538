/**
 * The part of the compiler's symbol graph that resource discovery looks at,
 * and the discovered unit it produces.
 *
 * A package encloses only types; a type is tested by its kind and simple
 * name, and the unit built from it is identified by its canonical name.
 */
module Elements {

  /** The kinds a type element can have. */
  datatype TypeKind = ClassKind | InterfaceKind | EnumKind | AnnotationTypeKind

  /** A type element: its kind, its simple name and its canonical name. */
  datatype TypeElement = TypeElement(kind: TypeKind, simpleName: string, canonicalName: string)

  /** An element handed to the processor: a package with its top-level types, or a type. */
  datatype Element =
    | Package(qualifiedName: string, types: seq<TypeElement>)
    | Type(element: TypeElement)

  /**
   * A discovered resource class. Two units are the same unit exactly when
   * their canonical names are equal, so the unit is its canonical name.
   */
  datatype Resources = Resources(canonicalName: string)

  /** The unit built from a type element. */
  function ResourcesOf(t: TypeElement): Resources
  {
    Resources(t.canonicalName)
  }
}
