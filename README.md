# OData schema queries: a Dafny model of `OdcmModelExtensions`

This project models the query layer that the Microsoft Graph code generator's
templates call on an OData schema graph (the Vipr `OdcmModel`). The layer never
changes the graph. It answers questions about it:

- which namespaces and classes are domain types (the `Edm` namespace is dropped);
- which properties a model or a class has, filtered by type name or annotation tag;
- whether a property is a navigation or a reference;
- how a navigation property is reached from the service root: through an entity
  set, through the implicit entity set of a singleton, or not at all (the
  containment, entity-set and singleton rules of OData Version 4.0 Part 3: CSDL,
  sections 7.1.5, 13.2 and 13.3);
- which name a singleton's navigation-property-binding table gives a navigation
  property (section 13.4 of the same document);
- whether an abstract base class is used as a property type, and what the base and
  derived classes of a class, property or method are;
- the `;`-separated tags in a documentation string;
- a method together with its overloads, or all of a class's methods and overloads.

The graph is a set of datatypes (`Odcm.dfy`). Properties name their declared type and
their projection type by a `TypeRef` (short and full name). `AsOdcmClass()` on such a
reference is the lookup `ClassNamed`: the first class of the model with that full
name, or nothing for an enum or a primitive. A property's `Class` is its `Owner`: the
owning class's full name and kind. Base classes form an acyclic chain, so each class
holds its base by value. Derived classes are a list of type references, since only
whether the list is empty matters.

Most of the file is LINQ chains (`Where`, `SelectMany`, `FirstOrDefault`, `Any`,
`Union`, `Distinct`). These become functions over sequences (`Seqs.dfy`) that keep
the iteration order, so every "first" in the source is first in declaration order.
Five operations are methods, because the source builds or reassigns a value step by step:
- `GetEntityReferenceTypes` and `MethodsAndOverloads` are loops with invariants. Each
  is proved equal to a function (`ReferencedEntities`, `ExpandedAll`) whose properties
  are proved as lemmas.
- `WithOverloads` builds its list in two steps: it adds the method, then adds the
  overloads. Its `ensures` gives the resulting list.
- `FilterProperties` reassigns a local variable. It is proved equal to `Filter`.
- `GetImplicitPropertyName` reassigns a local variable. Its `ensures` states the
  result outright: the value of the first matching binding, or the property's name.

Exceptions become explicit results:
- `GetOdcmNamespaces` returns null when only `Edm` is left. Every classifier built on
  it would then throw inside `SelectMany`, so each returns `None`.
- The resolver catches any exception, logs it and returns null. Here it returns
  `Err(NoEntitySet(propertyName, className))`, which carries the two names the log
  message prints.

Notes on the code's behaviour, which the model follows:
- The annotation filter tests whether one `;`-segment EQUALS the tag
  (`string[].Contains`), not whether the text contains the tag as a substring.
- `GetProperties(model)` joins its three sources with `Union`, which drops duplicates.
- Step 2 of the resolver accepts a singleton whose type has a `ContainsTarget`
  property with the wanted type name. It does not check that this property is a link.
- `IsBaseAbstractAndReferencedAsPropertyType` looks at every entity class of the
  namespace, including the class itself.
- Step 2 compares `Type.Name` (short names, declared type), while step 1 compares
  `Projection.Type.FullName`.

`OdcmMediaClass` is taken to extend `OdcmEntityClass`, as it does in Vipr. So a
`MediaEntity` class counts as an entity class wherever the source tests
`is OdcmEntityClass`.

## Model

| member | source | states |
|---|---|---|
| `Classifier.OdcmNamespaces` | src/GraphODataTemplateWriter/Extensions/OdcmModelExtensions.cs:21-38 | No namespace named `Edm`, in any letter case, survives. The result is `None` exactly when every namespace is `Edm`. Otherwise it is a non-empty, in-order subsequence holding every other namespace. |
| `Classifier.ComplexTypes` | src/GraphODataTemplateWriter/Extensions/OdcmModelExtensions.cs:40-44 | `None` exactly when the namespace filter gives `None`. Otherwise: exactly the complex classes of the kept namespaces, minus `microsoft.graph.json` in any letter case. |
| `Classifier.EntityTypes` | src/GraphODataTemplateWriter/Extensions/OdcmModelExtensions.cs:46-50 | Exactly the entity and media classes of the kept namespaces, or `None` when none is kept. |
| `Classifier.MediaEntityTypes` | src/GraphODataTemplateWriter/Extensions/OdcmModelExtensions.cs:52-56 | Exactly the media classes of the kept namespaces, or `None` when none is kept. |
| `Classifier.MediaAreEntities` | src/GraphODataTemplateWriter/Extensions/OdcmModelExtensions.cs:46-56 | Every media entity type is also listed among the entity types. |
| `Classifier.EnumTypes` | src/GraphODataTemplateWriter/Extensions/OdcmModelExtensions.cs:124-128 | Exactly the enums of the kept namespaces, or `None` when none is kept. |
| `Classifier.Methods` | src/GraphODataTemplateWriter/Extensions/OdcmModelExtensions.cs:130-133 | Exactly the methods declared on entity types of the kept namespaces, or `None`. |
| `Classifier.Filter` | src/GraphODataTemplateWriter/Extensions/OdcmModelExtensions.cs:100-112 | With both arguments absent, the input comes back unchanged. Otherwise a property is kept exactly when it is in the input and satisfies every given predicate: projection type name equals `typeName`, and one description segment equals the tag. |
| `Classifier.FilterIsConjunction` | src/GraphODataTemplateWriter/Extensions/OdcmModelExtensions.cs:100-112 | The two optional filters in a row equal one `Where` with their conjunction. The result is an in-order subsequence of the input. |
| `Classifier.FilterProperties` | src/GraphODataTemplateWriter/Extensions/OdcmModelExtensions.cs:100-112 | The method that reassigns its local variable computes exactly `Filter`. |
| `Classifier.ClassProperties` | src/GraphODataTemplateWriter/Extensions/OdcmModelExtensions.cs:114-122 | Exactly the class's own properties that satisfy the given predicates. |
| `Classifier.AggregatedProperties` | src/GraphODataTemplateWriter/Extensions/OdcmModelExtensions.cs:63-67 | The union has no duplicates. It holds exactly the properties of the entity types, the entity container and the domain complex types. It is `None` when no namespace is kept. |
| `Classifier.ModelProperties` | src/GraphODataTemplateWriter/Extensions/OdcmModelExtensions.cs:58-69 | No duplicates. Holds exactly the aggregated properties that satisfy the filter. |
| `Classifier.StreamProperties` | src/GraphODataTemplateWriter/Extensions/OdcmModelExtensions.cs:71-74 | Exactly the aggregated properties whose projection type is named `Stream`. |
| `Classifier.ReferenceTargets` | src/GraphODataTemplateWriter/Extensions/OdcmModelExtensions.cs:84 | The projection types of the reference properties, each once, and nothing else. |
| `Classifier.ReferencedEntities` | src/GraphODataTemplateWriter/Extensions/OdcmModelExtensions.cs:86-97 | Each class produced is the first entity type named like one of the targets (`EntityNamed` of that target). For every target that names an entity type, that entity type is produced. There are no more classes than targets. |
| `Classifier.EntityReferenceTypes` | src/GraphODataTemplateWriter/Extensions/OdcmModelExtensions.cs:76-98 | The loop collects exactly `ReferencedEntities` of the model's reference targets. It returns `None` exactly when no namespace is kept. |
| `Classifier.EntityReferenceTypesSound` | src/GraphODataTemplateWriter/Extensions/OdcmModelExtensions.cs:76-98 | Each returned class is an entity type of a kept namespace, and some reference property's projection has its name. Each reference property whose projection names an entity type contributes that entity type. |
| `Relationships.IsReference` | src/GraphODataTemplateWriter/Extensions/OdcmModelExtensions.cs:255-260 | A reference is a navigation. It is never declared on the service class and never contains its target. Every other navigation link is a reference. |
| `Relationships.ReferenceIgnoresMultiplicity` | src/GraphODataTemplateWriter/Extensions/OdcmModelExtensions.cs:250-260 | Changing `IsCollection` changes neither `IsReference` nor `IsNavigation`. |
| `Relationships.NavigationProperties` | src/GraphODataTemplateWriter/Extensions/OdcmModelExtensions.cs:245-248 | Exactly the class's own `IsLink` properties, as an in-order subsequence. |
| `Relationships.NavigationKinds` | src/GraphODataTemplateWriter/Extensions/OdcmModelExtensions.cs:250-260 | `IsNavigation` holds exactly for a reference, a navigation that contains its target, or a navigation declared on the service class. |
| `Navigation.ServiceNavigations` | src/GraphODataTemplateWriter/Extensions/OdcmModelExtensions.cs:157-162 | Exactly the navigation properties of the namespace's service classes. |
| `Navigation.ExplicitCollectionFound` | src/GraphODataTemplateWriter/Extensions/OdcmModelExtensions.cs:157-164 | If a service class has a collection navigation property whose projection full name is the target's, step 1 returns the first such property in iteration order. |
| `Navigation.NoExplicitCollection` | src/GraphODataTemplateWriter/Extensions/OdcmModelExtensions.cs:157-166 | Without such a property, step 1 finds nothing. |
| `Navigation.AcceptMeans` | src/GraphODataTemplateWriter/Extensions/OdcmModelExtensions.cs:179-187 | Step 2 accepts a property exactly when it is a singleton, its type is a class, and that class has a `ContainsTarget` property whose type name is the target's type name. |
| `Navigation.ImplicitSingleton` | src/GraphODataTemplateWriter/Extensions/OdcmModelExtensions.cs:172-189 | What step 2 returns is one of the service class's properties, and step 2 accepts it. |
| `Navigation.ImplicitSingletonFirst` | src/GraphODataTemplateWriter/Extensions/OdcmModelExtensions.cs:172-189 | What step 2 returns is the first accepted property. Every property before it was skipped, none of them threw. |
| `Navigation.ImplicitSingletonNone` | src/GraphODataTemplateWriter/Extensions/OdcmModelExtensions.cs:172-203 | Step 2 finds nothing exactly when, before every accepted singleton, some singleton's type is not a class. In that case `.Properties` throws, which ends the search. |
| `Navigation.FirstService` | src/GraphODataTemplateWriter/Extensions/OdcmModelExtensions.cs:172-177 | The service class that `Where(…).First()` selects: a service class of the namespace with no service class declared before it. `None` exactly when there is none, which is when `First()` throws. |
| `Navigation.ServiceCollectionNavigationProperty` | src/GraphODataTemplateWriter/Extensions/OdcmModelExtensions.cs:150-204 | Nothing else is ever returned: either a service navigation collection with the target's projection full name, or a singleton that step 2 accepts. A failure names the property and its class. |
| `Navigation.ExplicitTakesPrecedence` | src/GraphODataTemplateWriter/Extensions/OdcmModelExtensions.cs:150-167 | When an entity set of the target type exists, the result is the first one, whatever singletons exist. |
| `Navigation.SingletonFallback` | src/GraphODataTemplateWriter/Extensions/OdcmModelExtensions.cs:169-203 | Without an entity set, success means a service class exists. The result is then the first property of the first service class that step 2 accepts, and all earlier ones were skipped. Success happens exactly when such a singleton exists with no throwing singleton before it. Otherwise the result is the failure. |
| `Navigation.ExampleEntitySet` | src/GraphODataTemplateWriter/Extensions/OdcmModelExtensions.cs:141-144 | A property of type `event` resolves to the service's `events` entity set. |
| `Navigation.ExampleSingleton` | src/GraphODataTemplateWriter/Extensions/OdcmModelExtensions.cs:145-147 | A property of type `mailFolder` without an entity set resolves to the singleton `me`, whose type `user` contains `mailFolders`. |
| `Navigation.ImplicitPropertyName` | src/GraphODataTemplateWriter/Extensions/OdcmModelExtensions.cs:206-219 | Returns the value of the first binding whose key ends with the property's name. Returns the property's own name when no key matches, including when the binding table is empty. |
| `Hierarchy.IsBaseAbstractAndReferencedAsPropertyType` | src/GraphODataTemplateWriter/Extensions/OdcmModelExtensions.cs:229-243 | False without a base and false for a non-abstract base. For an abstract base: true exactly when an entity class of the namespace declares a property whose type name is the base's name. |
| `Hierarchy.BaseClass` | src/GraphODataTemplateWriter/Extensions/OdcmModelExtensions.cs:306-324 | Never returns an abstract class. For a class, it returns the base exactly when the base exists and is concrete. For a property, it returns a class exactly when the property's projection type is a class with a concrete base, and then returns that base. Methods and enums get none. |
| `Hierarchy.BaseClassThroughProjection` | src/GraphODataTemplateWriter/Extensions/OdcmModelExtensions.cs:306-324 | A property's base class is the base class of its projection type's class, and none when that type is not a class. |
| `Hierarchy.HasDerived` | src/GraphODataTemplateWriter/Extensions/OdcmModelExtensions.cs:326-341 | True exactly when the class has derived classes. For a property, the class of its projection type is checked. For a method, the class of its return type is checked. Enums never have derived classes. |
| `Hierarchy.HasDerivedThroughType` | src/GraphODataTemplateWriter/Extensions/OdcmModelExtensions.cs:326-341 | A property or method has derived classes exactly when the class of its projection or return type has them. When that type is not a class, the answer is false. |
| `Annotations.LongDescriptionSegments` | src/GraphODataTemplateWriter/Extensions/OdcmModelExtensions.cs:380-388 | `None` exactly when there is no description. Otherwise there is at least one segment, possibly empty, and no segment contains `;`, and joining them with `;` gives back the description. |
| `Annotations.JoinSplit` | src/GraphODataTemplateWriter/Extensions/OdcmModelExtensions.cs:384 | Splitting on `;` and joining with `;` is the identity. |
| `Annotations.SplitJoin` | src/GraphODataTemplateWriter/Extensions/OdcmModelExtensions.cs:384 | Joining `;`-free parts and splitting again gives back the parts. |
| `Annotations.LongDescriptionContains` | src/GraphODataTemplateWriter/Extensions/OdcmModelExtensions.cs:368-372 | False without a description, and false for a tag containing `;`. True when the whole description is the `;`-free tag itself. |
| `Annotations.LongDescriptionStartsWith` | src/GraphODataTemplateWriter/Extensions/OdcmModelExtensions.cs:374-378 | False without a description, and false for a tag containing `;`. True whenever the description begins with a `;`-free tag, so the empty tag always matches a present description. |
| `Annotations.ContainsImpliesStartsWith` | src/GraphODataTemplateWriter/Extensions/OdcmModelExtensions.cs:368-378 | A tag contained as a segment is also a prefix of a segment. |
| `Annotations.ContainsJoinedTag` | src/GraphODataTemplateWriter/Extensions/OdcmModelExtensions.cs:368-372 | For a description made of `;`-free tags, `Contains` holds exactly for those tags. |
| `Annotations.StartsWithJoinedTags` | src/GraphODataTemplateWriter/Extensions/OdcmModelExtensions.cs:374-378 | For a description made of `;`-free tags, `StartsWith` holds exactly when the tag is a prefix of one of those tags. |
| `Overloads.WithOverloads` | src/GraphODataTemplateWriter/Extensions/OdcmModelExtensions.cs:391-397 | The list starts with the method, then has its overloads in order. Its length is 1 + the number of overloads. |
| `Overloads.MethodsAndOverloads` | src/GraphODataTemplateWriter/Extensions/OdcmModelExtensions.cs:400-408 | The concatenation of `WithOverloads` over the declared methods, in order. Its length is the sum of 1 + the number of overloads. |
| `Overloads.ExpandedAllLength` | src/GraphODataTemplateWriter/Extensions/OdcmModelExtensions.cs:400-408 | The length of the expansion is the sum over the methods of 1 + the number of overloads. |
| `Overloads.ExpandedAllAt` | src/GraphODataTemplateWriter/Extensions/OdcmModelExtensions.cs:400-408 | The `i`-th method sits at the sum of the sizes before it, followed directly by its overloads in order. |

## Left out

- Logging: the NLog logger and the two `logger.Error` calls in the resolver (lines 14, 200-201). The failure value carries the property name and class name that the message prints.
- `GetNamespace`, `NamespaceName` and `ODataPackageNamespace` (lines 277-284, 343-361): they read process-wide `ConfigurationService.Settings` and only format and lower-case strings.
- `IsCollection`, `HasActions`, `Actions`, `IsAction` and `GetEntityContainer` (lines 16-19, 262-275, 363-366): plain field reads. The `AsOdcm…` casts (lines 286-304) become pattern matches on `OdcmObject` and the `ClassNamed` lookup.
- Building and parsing the Vipr graph: the model is given as an immutable value. Object identity is not modelled. `Union` and `Distinct` compare by value, not by reference, and a type reference is resolved by full name.
- Null pointers inside the graph (a property without a class, a class without a namespace) are not modelled. The resolver and `IsBaseAbstractAndReferencedAsPropertyType` take the property's or class's namespace as a parameter. A service-kind class is taken to be an `OdcmServiceClass`.
- Case-insensitive comparison (`Edm`, `microsoft.graph.json`) folds ASCII letters only. `EndsWith` and `StartsWith` compare ordinally rather than by culture.
- `Classifier.ComplexTypes`: `CanonicalName()` of a class is taken to be its full name (namespace-qualified name). The Vipr method that computes it is not part of this model.
- LINQ laziness: sequences are computed eagerly. This changes no result, since the graph is immutable.
- `Navigation.ImplicitPropertyName`: binding values are non-null strings, and the dictionary's enumeration order is the order of the binding sequence.
