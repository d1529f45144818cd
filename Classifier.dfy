/**
 * The namespace filter, the type classifier and property aggregation and
 * filtering (`GetOdcmNamespaces`, `GetComplexTypes`, `GetEntityTypes`,
 * `GetMediaEntityTypes`, `GetEnumTypes`, `GetMethods`, `GetProperties`,
 * `FilterProperties`, `GetEntityReferenceTypes`).
 *
 * When every namespace is the built-in one, `GetOdcmNamespaces` returns null and
 * the queries built on it throw; here they return `None`.
 */
module Classifier {
  import opened Wrappers
  import opened Seqs
  import opened Odcm
  import opened Annotations
  import opened Relationships

  /** Lower-casing, restricted to ASCII letters. */
  function LowerAscii(ch: char): char
  {
    if 'A' <= ch <= 'Z' then (ch - 'A' + 'a') as char else ch
  }

  function ToLower(s: string): (r: string)
    ensures |r| == |s|
  {
    seq(|s|, i requires 0 <= i < |s| => LowerAscii(s[i]))
  }

  /** `Equals(..., InvariantCultureIgnoreCase)` over ASCII. */
  predicate EqualsIgnoreCase(a: string, b: string)
  {
    ToLower(a) == ToLower(b)
  }

  /** The built-in namespace, whatever the case of its name. */
  predicate IsEdm(name: string)
  {
    EqualsIgnoreCase(name, "Edm")
  }

  /** `GetOdcmNamespaces`: every namespace but `Edm`, or `None` when none is left. */
  function OdcmNamespaces(m: Model): (r: Option<seq<Namespace>>)
    ensures r.None? <==> forall i :: 0 <= i < |m.namespaces| ==> IsEdm(m.namespaces[i].name)
    ensures r.Some? ==> |r.value| > 0 && SubsequenceOf(r.value, m.namespaces)
    ensures r.Some? ==> forall n :: n in r.value <==> n in m.namespaces && !IsEdm(n.name)
  {
    var filtered := Where(m.namespaces, (n: Namespace) => !IsEdm(n.name));
    WhereIsSubsequence(m.namespaces, (n: Namespace) => !IsEdm(n.name));
    assert forall i :: 0 <= i < |m.namespaces| ==> m.namespaces[i] in m.namespaces;
    if |filtered| < 1 then None else assert filtered[0] in filtered; Some(filtered)
  }

  /** `c` is declared in a namespace that `GetOdcmNamespaces` keeps. */
  ghost predicate InDomainNamespace(m: Model, c: Class)
  {
    exists n :: n in m.namespaces && !IsEdm(n.name) && c in n.classes
  }

  /** `x is OdcmComplexClass` other than the JSON wrapper type. */
  predicate IsDomainComplex(c: Class)
  {
    c.kind == Complex && ToLower(c.fullName) != "microsoft.graph.json"
  }

  /** The classes satisfying `f` across the non-built-in namespaces, namespace by namespace. */
  function ClassesWhere(m: Model, f: Class -> bool): (r: Option<seq<Class>>)
    ensures r.None? <==> OdcmNamespaces(m).None?
    ensures r.Some? ==> forall c :: c in r.value <==> InDomainNamespace(m, c) && f(c)
  {
    match OdcmNamespaces(m)
    case None => None
    case Some(ns) => Some(SelectMany(ns, (n: Namespace) => Where(n.classes, f)))
  }

  /** `GetComplexTypes`. */
  function ComplexTypes(m: Model): (r: Option<seq<Class>>)
    ensures r.None? <==> OdcmNamespaces(m).None?
    ensures r.Some? ==> forall c :: c in r.value <==> InDomainNamespace(m, c) && IsDomainComplex(c)
  {
    ClassesWhere(m, IsDomainComplex)
  }

  /** `GetEntityTypes`: entity and media entity classes. */
  function EntityTypes(m: Model): (r: Option<seq<Class>>)
    ensures r.None? <==> OdcmNamespaces(m).None?
    ensures r.Some? ==> forall c :: c in r.value <==> InDomainNamespace(m, c) && IsEntityClass(c)
  {
    ClassesWhere(m, IsEntityClass)
  }

  /** `GetMediaEntityTypes`. */
  function MediaEntityTypes(m: Model): (r: Option<seq<Class>>)
    ensures r.None? <==> OdcmNamespaces(m).None?
    ensures r.Some? ==> forall c :: c in r.value <==> InDomainNamespace(m, c) && c.kind == Media
  {
    ClassesWhere(m, (c: Class) => c.kind == Media)
  }

  /** Media entity types are entity types. */
  lemma MediaAreEntities(m: Model)
    requires OdcmNamespaces(m).Some?
    ensures forall c :: c in MediaEntityTypes(m).value ==> c in EntityTypes(m).value
  {
  }

  /** `GetEnumTypes`. */
  function EnumTypes(m: Model): (r: Option<seq<EnumType>>)
    ensures r.None? <==> OdcmNamespaces(m).None?
    ensures r.Some? ==> forall e :: e in r.value <==>
      exists n :: n in m.namespaces && !IsEdm(n.name) && e in n.enums
  {
    match OdcmNamespaces(m)
    case None => None
    case Some(ns) => Some(SelectMany(ns, (n: Namespace) => n.enums))
  }

  /** `GetMethods`: the methods declared on entity types. */
  function Methods(m: Model): (r: Option<seq<Method>>)
    ensures r.None? <==> OdcmNamespaces(m).None?
    ensures r.Some? ==> forall x :: x in r.value <==>
      exists c :: InDomainNamespace(m, c) && IsEntityClass(c) && x in c.methods
  {
    match EntityTypes(m)
    case None => None
    case Some(es) => Some(SelectMany(es, (c: Class) => c.methods))
  }

  /** What one property must satisfy to pass `FilterProperties`; `None` is no constraint. */
  predicate Matches(p: Property, typeName: Option<string>, descriptionTag: Option<string>)
  {
    && (typeName.None? || p.projection.name == typeName.value)
    && (descriptionTag.None? || LongDescriptionContains(PropertyObject(p), descriptionTag.value))
  }

  /** The `Where` chain `FilterProperties` builds. */
  function Filter(props: seq<Property>, typeName: Option<string>, descriptionTag: Option<string>): (r: seq<Property>)
    ensures typeName.None? && descriptionTag.None? ==> r == props
    ensures forall q :: q in r <==> q in props && Matches(q, typeName, descriptionTag)
  {
    var byType :=
      if typeName.Some? then Where(props, (q: Property) => q.projection.name == typeName.value) else props;
    if descriptionTag.Some?
    then Where(byType, (q: Property) => LongDescriptionContains(PropertyObject(q), descriptionTag.value))
    else byType
  }

  /** The filters compose conjunctively: the result is one `Where` with `Matches`. */
  lemma {:induction false} FilterIsConjunction(props: seq<Property>, typeName: Option<string>, descriptionTag: Option<string>)
    ensures Filter(props, typeName, descriptionTag) == Where(props, (q: Property) => Matches(q, typeName, descriptionTag))
    ensures SubsequenceOf(Filter(props, typeName, descriptionTag), props)
  {
    if props != [] {
      FilterIsConjunction(props[1..], typeName, descriptionTag);
    }
    WhereIsSubsequence(props, (q: Property) => Matches(q, typeName, descriptionTag));
  }

  /** `FilterProperties`: applies each predicate that is given, one after the other. */
  method FilterProperties(props: seq<Property>, typeName: Option<string>, descriptionTag: Option<string>)
    returns (r: seq<Property>)
    ensures r == Filter(props, typeName, descriptionTag)
  {
    r := props;
    if typeName.Some? {
      r := Where(r, (q: Property) => q.projection.name == typeName.value);
    }
    if descriptionTag.Some? {
      r := Where(r, (q: Property) => LongDescriptionContains(PropertyObject(q), descriptionTag.value));
    }
  }

  /** `GetProperties(OdcmClass, ...)`: the filter over a class's own properties. */
  function ClassProperties(c: Class, typeName: Option<string>, descriptionTag: Option<string>): (r: seq<Property>)
    ensures forall q :: q in r <==> q in c.properties && Matches(q, typeName, descriptionTag)
  {
    Filter(c.properties, typeName, descriptionTag)
  }

  /** A property that `GetProperties(model)` aggregates before filtering. */
  ghost predicate Aggregated(m: Model, q: Property)
  {
    || q in m.entityContainer.properties
    || exists c :: InDomainNamespace(m, c) && (IsEntityClass(c) || IsDomainComplex(c)) && q in c.properties
  }

  /**
   * The properties `GetProperties(model, ...)` starts from: the union, without
   * duplicates, of the entity types' properties, the entity container's and the
   * complex types'.
   */
  function AggregatedProperties(m: Model): (r: Option<seq<Property>>)
    ensures r.None? <==> OdcmNamespaces(m).None?
    ensures r.Some? ==> NoDuplicates(r.value)
    ensures r.Some? ==> forall q :: q in r.value <==> Aggregated(m, q)
  {
    match (EntityTypes(m), ComplexTypes(m))
    case (Some(es), Some(cs)) =>
      Some(Union(Union(SelectMany(es, PropertiesOf), m.entityContainer.properties), SelectMany(cs, PropertiesOf)))
    case _ => None
  }

  function PropertiesOf(c: Class): seq<Property>
  {
    c.properties
  }

  /** `GetProperties(model, typeName, longDescriptionMatches)`: the aggregated properties, filtered. */
  function ModelProperties(m: Model, typeName: Option<string>, descriptionTag: Option<string>): (r: Option<seq<Property>>)
    ensures r.None? <==> OdcmNamespaces(m).None?
    ensures r.Some? ==> NoDuplicates(r.value)
    ensures r.Some? ==> forall q :: q in r.value <==> Aggregated(m, q) && Matches(q, typeName, descriptionTag)
  {
    match AggregatedProperties(m)
    case Some(all) =>
      var r := Filter(all, typeName, descriptionTag);
      FilterIsConjunction(all, typeName, descriptionTag);
      NoDuplicatesSub(all, r);
      Some(r)
    case None => None
  }

  /** A subsequence of a sequence without duplicates has none. */
  lemma {:induction false} NoDuplicatesSub(s: seq<Property>, r: seq<Property>)
    requires NoDuplicates(s) && SubsequenceOf(r, s)
    ensures NoDuplicates(r)
  {
    if r != [] && s != [] {
      if r[0] == s[0] {
        NoDuplicatesSub(s[1..], r[1..]);
        SubsequenceMembers(r[1..], s[1..]);
        assert forall j :: 0 < j < |r| ==> r[j] in s[1..];
      } else {
        NoDuplicatesSub(s[1..], r);
      }
    }
  }

  lemma {:induction false} SubsequenceMembers(r: seq<Property>, s: seq<Property>)
    requires SubsequenceOf(r, s)
    ensures forall x :: x in r ==> x in s
  {
    if r != [] && s != [] {
      if r[0] == s[0] {
        SubsequenceMembers(r[1..], s[1..]);
        assert forall x :: x in r ==> x == r[0] || x in r[1..];
      } else {
        SubsequenceMembers(r, s[1..]);
      }
    }
  }

  /** `GetStreamProperties`: the aggregated properties whose projection type is `Stream`. */
  function StreamProperties(m: Model): (r: Option<seq<Property>>)
    ensures r.None? <==> OdcmNamespaces(m).None?
    ensures r.Some? ==> forall q :: q in r.value <==> Aggregated(m, q) && q.projection.name == "Stream"
  {
    ModelProperties(m, Some("Stream"), None)
  }
  /** The distinct projection types of the reference properties, in order. */
  function ReferenceTargets(props: seq<Property>): (r: seq<TypeRef>)
    ensures NoDuplicates(r)
    ensures forall t :: t in r <==> exists q :: q in props && IsReference(q) && q.projection == t
  {
    var refs := Where(props, IsReference);
    var types := Select(refs, (q: Property) => q.projection);
    assert forall t :: t in types <==> exists q :: q in refs && q.projection == t by {
      forall t | t in types ensures exists q :: q in refs && q.projection == t {
        var i :| 0 <= i < |types| && types[i] == t;
        assert refs[i] in refs;
      }
      forall t | exists q :: q in refs && q.projection == t ensures t in types {
        var q :| q in refs && q.projection == t;
        var i :| 0 <= i < |refs| && refs[i] == q;
        assert types[i] == t;
      }
    }
    Distinct(types)
  }

  /** The first entity type named like `t`, if any. */
  function EntityNamed(entities: seq<Class>, t: TypeRef): (r: Option<Class>)
    ensures r.Some? ==> r.value in entities && r.value.name == t.name
  {
    FirstWhere(entities, (e: Class) => e.name == t.name)
  }

  /**
   * The loop of `GetEntityReferenceTypes`: for each target in turn, the first
   * entity type with the same short name, when there is one.
   */
  function ReferencedEntities(entities: seq<Class>, targets: seq<TypeRef>): (r: seq<Class>)
    ensures forall e :: e in r ==> exists t :: t in targets && EntityNamed(entities, t) == Some(e)
    ensures forall t :: t in targets && EntityNamed(entities, t).Some? ==> EntityNamed(entities, t).value in r
    ensures |r| <= |targets|
  {
    if targets == [] then []
    else
      var n := |targets| - 1;
      var before := ReferencedEntities(entities, targets[..n]);
      assert forall t :: t in targets ==> t in targets[..n] || t == targets[n];
      match EntityNamed(entities, targets[n])
      case Some(e) =>
        assert forall x :: x in before + [e] ==> x in before || x == e;
        before + [e]
      case None => before
  }

  /** One more target adds its entity type, when there is one. */
  lemma ReferencedEntitiesSnoc(entities: seq<Class>, targets: seq<TypeRef>, i: nat)
    requires i < |targets|
    ensures ReferencedEntities(entities, targets[..i + 1]) ==
              match EntityNamed(entities, targets[i])
              case Some(e) => ReferencedEntities(entities, targets[..i]) + [e]
              case None => ReferencedEntities(entities, targets[..i])
  {
    assert targets[..i + 1][..i] == targets[..i];
  }

  /**
   * `GetEntityReferenceTypes`: the entity types that some reference property of
   * the model points to (matched on the short name of its projection type).
   */
  method EntityReferenceTypes(m: Model) returns (r: Option<seq<Class>>)
    ensures r.None? <==> OdcmNamespaces(m).None?
    ensures r.Some? ==>
              r.value == ReferencedEntities(EntityTypes(m).value, ReferenceTargets(ModelProperties(m, None, None).value))
  {
    var entityTypes := EntityTypes(m);
    var props := ModelProperties(m, None, None);
    if entityTypes.None? {
      return None;
    }
    var entities := entityTypes.value;
    var targets := ReferenceTargets(props.value);
    var found: seq<Class> := [];
    for i := 0 to |targets|
      invariant found == ReferencedEntities(entities, targets[..i])
    {
      var entityType := EntityNamed(entities, targets[i]);
      ReferencedEntitiesSnoc(entities, targets, i);
      if entityType.Some? {
        found := found + [entityType.value];
      }
    }
    assert targets[..|targets|] == targets;
    r := Some(found);
  }

  /**
   * Every class `GetEntityReferenceTypes` returns is an entity type named like the
   * projection of some reference property; and every reference property whose
   * projection names an entity type contributes the first such entity type.
   */
  lemma EntityReferenceTypesSound(m: Model)
    requires OdcmNamespaces(m).Some?
    ensures var es := EntityTypes(m).value;
            var props := ModelProperties(m, None, None).value;
            var r := ReferencedEntities(es, ReferenceTargets(props));
            && (forall e :: e in r ==>
                  && InDomainNamespace(m, e) && IsEntityClass(e)
                  && exists q :: q in props && IsReference(q) && q.projection.name == e.name)
            && (forall q :: q in props && IsReference(q) && EntityNamed(es, q.projection).Some? ==>
                  EntityNamed(es, q.projection).value in r)
  {
    var es := EntityTypes(m).value;
    var props := ModelProperties(m, None, None).value;
    var targets := ReferenceTargets(props);
    var r := ReferencedEntities(es, targets);
    forall e | e in r
      ensures exists q :: q in props && IsReference(q) && q.projection.name == e.name
    {
      var t :| t in targets && e.name == t.name;
      var q :| q in props && IsReference(q) && q.projection == t;
    }
    forall q | q in props && IsReference(q) && EntityNamed(es, q.projection).Some?
      ensures EntityNamed(es, q.projection).value in r
    {
      assert q.projection in targets;
    }
  }
}
