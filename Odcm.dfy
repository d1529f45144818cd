/**
 * The immutable OData schema graph (the Vipr `OdcmModel`) the queries run over.
 *
 * Object references of the original graph become values: a property names its
 * declared and projection types by `TypeRef`, and `AsOdcmClass()` on such a
 * reference becomes a lookup of the class with that full name (`ClassNamed`).
 * Base classes form an acyclic chain and are embedded as values.
 */
module Odcm {
  import opened Wrappers
  import opened Seqs

  /** `OdcmClassKind`; a `MediaEntity` class is also an entity class. */
  datatype ClassKind = Entity | Complex | Media | Service

  /** A reference to a type (class, enum or primitive) by its short and full name. */
  datatype TypeRef = TypeRef(name: string, fullName: string)

  /** `property.Class`: the full name and kind of the class declaring a property. */
  datatype Owner = Owner(fullName: string, kind: ClassKind)

  /** One entry of a singleton's `NavigationPropertyBindings`. */
  datatype Binding = Binding(key: string, value: string)

  /** An `OdcmProperty`, or an `OdcmSingleton` with its binding table. */
  datatype PropertyKind = Plain | Singleton(bindings: seq<Binding>)

  datatype Property = Property(
    name: string,
    owner: Owner,
    declaredType: TypeRef,   // `Type`
    projection: TypeRef,     // `Projection.Type`
    isCollection: bool,
    isLink: bool,
    containsTarget: bool,
    kind: PropertyKind,
    longDescription: Option<string>)

  /** An `OdcmMethod`; each overload is itself a method. */
  datatype Method = Method(
    name: string,
    returnType: TypeRef,
    overloads: seq<Method>,
    longDescription: Option<string>)

  datatype Class = Class(
    name: string,
    fullName: string,
    kind: ClassKind,
    isAbstract: bool,
    base: Option<Class>,
    derived: seq<TypeRef>,
    properties: seq<Property>,
    methods: seq<Method>,
    longDescription: Option<string>)

  datatype EnumType = EnumType(name: string, fullName: string, longDescription: Option<string>)

  datatype Namespace = Namespace(name: string, classes: seq<Class>, enums: seq<EnumType>)

  datatype Model = Model(namespaces: seq<Namespace>, entityContainer: Class)

  /** The `OdcmObject` argument of the polymorphic queries. */
  datatype OdcmObject =
    | ClassObject(cls: Class)
    | PropertyObject(prop: Property)
    | MethodObject(meth: Method)
    | EnumObject(enumType: EnumType)

  /** `x is OdcmEntityClass` (which `OdcmMediaClass` extends). */
  predicate IsEntityClass(c: Class)
  {
    c.kind == Entity || c.kind == Media
  }

  predicate IsService(c: Class)
  {
    c.kind == Service
  }

  function LongDescription(o: OdcmObject): Option<string>
  {
    match o
    case ClassObject(c) => c.longDescription
    case PropertyObject(p) => p.longDescription
    case MethodObject(m) => m.longDescription
    case EnumObject(e) => e.longDescription
  }

  function ClassesOf(n: Namespace): seq<Class>
  {
    n.classes
  }

  /** Every class of the model, namespace by namespace. */
  function AllClasses(m: Model): seq<Class>
  {
    SelectMany(m.namespaces, ClassesOf)
  }

  /**
   * `t.AsOdcmClass()` for a type reference `t`: the class of the model with that
   * full name, or `None` when the reference is to an enum or a primitive.
   */
  function ClassNamed(m: Model, fullName: string): (r: Option<Class>)
    ensures r.Some? ==> r.value.fullName == fullName
  {
    FirstWhere(AllClasses(m), (c: Class) => c.fullName == fullName)
  }
}
