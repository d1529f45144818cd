/**
 * The service navigation resolver (`GetServiceCollectionNavigationPropertyForPropertyType`)
 * and the implicit name resolver (`GetImplicitPropertyName`).
 *
 * A navigation property is reached from the service root through, in this
 * order of precedence: an entity set (a collection navigation property of a
 * service class) of its projection type; else a singleton of the first service
 * class whose type contains (`ContainsTarget`) a property of the same type
 * name; else nothing, which the source logs and reports as null.
 */
module Navigation {
  import opened Wrappers
  import opened Seqs
  import opened Odcm
  import opened Relationships

  /** The logged metadata defect: the property's name and its class's full name. */
  datatype ResolveError = NoEntitySet(propertyName: string, className: string)

  /** The navigation properties of every service class of `ns`, class by class. */
  function ServiceNavigations(ns: Namespace): (r: seq<Property>)
    ensures forall q :: q in r <==> exists s :: s in ns.classes && IsService(s) && q in s.properties && q.isLink
  {
    SelectMany(Where(ns.classes, IsService), NavigationProperties)
  }

  /** An entity set for `p`: a collection whose projection has `p`'s projection's full name. */
  predicate IsEntitySetFor(p: Property, q: Property)
  {
    q.isCollection && q.projection.fullName == p.projection.fullName
  }

  /** Step 1: the first entity set for `p` on a service class of `ns`. */
  function ExplicitCollection(ns: Namespace, p: Property): Option<Property>
  {
    FirstWhere(ServiceNavigations(ns), (q: Property) => IsEntitySetFor(p, q))
  }

  /** What step 2 does on meeting a property of the service class. */
  datatype Verdict =
    | Skip     // not a singleton, or its type contains no property of the wanted type name
    | Accept   // a singleton whose type contains such a property
    | Throw    // a singleton whose type is not a class: `.Properties` throws

  /** Step 2's test of one property `sg` of the service class, looking for `p`'s type. */
  function Inspect(m: Model, p: Property, sg: Property): Verdict
  {
    if !sg.kind.Singleton? then Skip
    else match ClassNamed(m, sg.declaredType.fullName)
      case None => Throw
      case Some(t) =>
        if Any(t.properties, (x: Property) => x.containsTarget && x.declaredType.name == p.declaredType.name)
        then Accept else Skip
  }

  /** `sg` is a singleton whose type contains a property with `p`'s type name. */
  lemma AcceptMeans(m: Model, p: Property, sg: Property)
    ensures Inspect(m, p, sg) == Accept <==>
              && sg.kind.Singleton?
              && ClassNamed(m, sg.declaredType.fullName).Some?
              && exists x :: x in ClassNamed(m, sg.declaredType.fullName).value.properties &&
                             x.containsTarget && x.declaredType.name == p.declaredType.name
  {
  }

  /**
   * Step 2 over the service class's properties: the first singleton accepted.
   * A singleton whose type is not a class makes `.Properties` throw before any
   * later singleton is looked at, which ends the search with nothing.
   */
  function ImplicitSingleton(m: Model, p: Property, props: seq<Property>): (r: Option<Property>)
    ensures r.Some? ==> r.value in props && Inspect(m, p, r.value) == Accept
  {
    if props == [] then None
    else match Inspect(m, p, props[0])
      case Accept => Some(props[0])
      case Throw => None
      case Skip => ImplicitSingleton(m, p, props[1..])
  }

  /** What step 2 finds is the first singleton accepted, and every earlier property was skipped. */
  lemma {:induction false} ImplicitSingletonFirst(m: Model, p: Property, props: seq<Property>)
    requires ImplicitSingleton(m, p, props).Some?
    ensures exists k :: 0 <= k < |props| && props[k] == ImplicitSingleton(m, p, props).value &&
                        forall j :: 0 <= j < k ==> Inspect(m, p, props[j]) == Skip
  {
    if Inspect(m, p, props[0]) != Accept {
      var tail := props[1..];
      var r := ImplicitSingleton(m, p, tail).value;
      ImplicitSingletonFirst(m, p, tail);
      var k :| 0 <= k < |tail| && tail[k] == r &&
               forall j :: 0 <= j < k ==> Inspect(m, p, tail[j]) == Skip;
      assert props[k + 1] == r;
      forall j | 0 <= j < k + 1
        ensures Inspect(m, p, props[j]) == Skip
      {
        if j > 0 {
          assert props[j] == tail[j - 1];
        }
      }
    }
  }

  /** Every singleton step 2 would accept comes after one whose type is not a class. */
  ghost predicate EveryAcceptBlocked(m: Model, p: Property, props: seq<Property>)
  {
    forall k :: 0 <= k < |props| && Inspect(m, p, props[k]) == Accept ==>
      exists j :: 0 <= j < k && Inspect(m, p, props[j]) == Throw
  }

  /** A skipped first property changes nothing about which accepted singletons are blocked. */
  lemma EveryAcceptBlockedSkip(m: Model, p: Property, props: seq<Property>)
    requires props != [] && Inspect(m, p, props[0]) == Skip
    ensures EveryAcceptBlocked(m, p, props) <==> EveryAcceptBlocked(m, p, props[1..])
  {
    var tail := props[1..];
    forall k | 0 < k < |props| && Inspect(m, p, props[k]) == Accept &&
               (exists j :: 0 <= j < k && Inspect(m, p, props[j]) == Throw)
      ensures exists j :: 0 <= j < k - 1 && Inspect(m, p, tail[j]) == Throw
    {
      var j :| 0 <= j < k && Inspect(m, p, props[j]) == Throw;
      assert j > 0 && tail[j - 1] == props[j];
    }
    forall k | 0 <= k < |tail| && Inspect(m, p, tail[k]) == Accept &&
               (exists j :: 0 <= j < k && Inspect(m, p, tail[j]) == Throw)
      ensures exists j :: 0 <= j < k + 1 && Inspect(m, p, props[j]) == Throw
    {
      var j :| 0 <= j < k && Inspect(m, p, tail[j]) == Throw;
      assert props[j + 1] == tail[j];
    }
    assert forall k :: 0 < k < |props| ==> props[k] == tail[k - 1];
  }

  /** Step 2 finds nothing exactly when every accepted singleton comes after one that throws. */
  lemma {:induction false} ImplicitSingletonNone(m: Model, p: Property, props: seq<Property>)
    ensures ImplicitSingleton(m, p, props).None? <==> EveryAcceptBlocked(m, p, props)
  {
    if props != [] {
      match Inspect(m, p, props[0])
      case Accept =>
      case Throw =>
      case Skip =>
        ImplicitSingletonNone(m, p, props[1..]);
        EveryAcceptBlockedSkip(m, p, props);
    }
  }

  /** The first service class of the namespace, the one step 2 looks at (`Where(…).First()`). */
  function FirstService(ns: Namespace): (r: Option<Class>)
    ensures r.Some? ==> r.value in ns.classes && IsService(r.value)
    ensures r.Some? ==> exists k :: 0 <= k < |ns.classes| && ns.classes[k] == r.value &&
                                    forall j :: 0 <= j < k ==> !IsService(ns.classes[j])
    ensures r.None? <==> forall c :: c in ns.classes ==> !IsService(c)
  {
    FirstWhere(ns.classes, IsService)
  }

  /**
   * `GetServiceCollectionNavigationPropertyForPropertyType(p)`, where `ns` is the
   * namespace of `p`'s class and `m` the model its types are looked up in.
   */
  function ServiceCollectionNavigationProperty(m: Model, ns: Namespace, p: Property): (r: Result<Property, ResolveError>)
    ensures r.Err? ==> r.error == NoEntitySet(p.name, p.owner.fullName)
    ensures r.Ok? ==> || (r.value in ServiceNavigations(ns) && IsEntitySetFor(p, r.value))
                      || (r.value.kind.Singleton? && Inspect(m, p, r.value) == Accept)
  {
    match ExplicitCollection(ns, p)
    case Some(q) => Ok(q)
    case None =>
      match FirstService(ns)
      case None => Err(NoEntitySet(p.name, p.owner.fullName))
      case Some(service) =>
        match ImplicitSingleton(m, p, service.properties)
        case Some(sg) => Ok(sg)
        case None => Err(NoEntitySet(p.name, p.owner.fullName))
  }

  /** Where a navigation property of a service class sits among the service navigations. */
  lemma IndexOfNavigation(ns: Namespace, s: Class, q: Property) returns (i: nat)
    requires s in ns.classes && IsService(s) && q in s.properties && q.isLink
    ensures i < |ServiceNavigations(ns)| && ServiceNavigations(ns)[i] == q
  {
    var navs := ServiceNavigations(ns);
    assert q in navs;
    i :| 0 <= i < |navs| && navs[i] == q;
  }

  /** An entity set on a service class makes step 1 succeed with the first one. */
  lemma ExplicitCollectionFound(ns: Namespace, p: Property, s: Class, q: Property)
    requires s in ns.classes && IsService(s) && q in s.properties && q.isLink && IsEntitySetFor(p, q)
    ensures var e := ExplicitCollection(ns, p);
            var navs := ServiceNavigations(ns);
            && e.Some?
            && exists k :: 0 <= k < |navs| && navs[k] == e.value && IsEntitySetFor(p, navs[k]) &&
                           forall j :: 0 <= j < k ==> !IsEntitySetFor(p, navs[j])
  {
    var navs := ServiceNavigations(ns);
    var i := IndexOfNavigation(ns, s, q);
    assert IsEntitySetFor(p, navs[i]);
  }

  /** An entity set declared on a service class always wins, whatever singletons exist. */
  lemma ExplicitTakesPrecedence(m: Model, ns: Namespace, p: Property, s: Class, q: Property)
    requires s in ns.classes && IsService(s) && q in s.properties && q.isLink && IsEntitySetFor(p, q)
    ensures var r := ServiceCollectionNavigationProperty(m, ns, p);
            var navs := ServiceNavigations(ns);
            && r.Ok?
            && exists k :: 0 <= k < |navs| && navs[k] == r.value && IsEntitySetFor(p, navs[k]) &&
                           forall j :: 0 <= j < k ==> !IsEntitySetFor(p, navs[j])
  {
    ExplicitCollectionFound(ns, p, s, q);
    assert ServiceCollectionNavigationProperty(m, ns, p) == Ok(ExplicitCollection(ns, p).value);
  }

  /** Without any entity set for `p`, step 1 finds nothing. */
  lemma NoExplicitCollection(ns: Namespace, p: Property)
    requires forall s, q :: s in ns.classes && IsService(s) && q in s.properties && q.isLink ==> !IsEntitySetFor(p, q)
    ensures ExplicitCollection(ns, p).None?
  {
  }

  /**
   * Without an entity set, the result is the first singleton of the first
   * service class that step 2 accepts, provided no singleton before it throws;
   * otherwise (no service class, or no such singleton) resolution fails.
   */
  lemma SingletonFallback(m: Model, ns: Namespace, p: Property)
    requires forall s, q :: s in ns.classes && IsService(s) && q in s.properties && q.isLink ==> !IsEntitySetFor(p, q)
    ensures var r := ServiceCollectionNavigationProperty(m, ns, p);
            var first := FirstService(ns);
            && (r.Ok? ==>
                  && first.Some?
                  && var props := first.value.properties;
                     exists k :: 0 <= k < |props| && props[k] == r.value && Inspect(m, p, props[k]) == Accept &&
                                 forall j :: 0 <= j < k ==> Inspect(m, p, props[j]) == Skip)
            && (r.Ok? <==>
                  && first.Some?
                  && var props := first.value.properties;
                     exists k :: 0 <= k < |props| && Inspect(m, p, props[k]) == Accept &&
                                 forall j :: 0 <= j < k ==> Inspect(m, p, props[j]) != Throw)
  {
    NoExplicitCollection(ns, p);
    var first := FirstService(ns);
    if first.Some? {
      var props := first.value.properties;
      ImplicitSingletonNone(m, p, props);
      if ImplicitSingleton(m, p, props).Some? {
        ImplicitSingletonFirst(m, p, props);
      }
    }
  }

  /**
   * `GetImplicitPropertyName`: the value of the first binding whose key ends with
   * the property's name, or the property's own name when there is none.
   */
  method ImplicitPropertyName(p: Property, singleton: Property) returns (name: string)
    requires singleton.kind.Singleton?
    ensures var b := singleton.kind.bindings;
            (forall i :: 0 <= i < |b| ==> !EndsWith(b[i].key, p.name)) ==> name == p.name
    ensures var b := singleton.kind.bindings;
            forall i ::
              (0 <= i < |b| && EndsWith(b[i].key, p.name) && forall j :: 0 <= j < i ==> !EndsWith(b[j].key, p.name))
              ==> name == b[i].value
  {
    name := p.name;
    var bindings := singleton.kind.bindings;
    if |bindings| > 0 {
      var target := FirstWhere(bindings, (kv: Binding) => EndsWith(kv.key, p.name));
      if target.Some? {
        name := target.value.value;
      }
    }
  }

  /** `s.EndsWith(suffix)`, ordinal. */
  predicate EndsWith(s: string, suffix: string)
  {
    |suffix| <= |s| && s[|s| - |suffix|..] == suffix
  }

  // Two worked examples: an entity set is found directly; a type without one is
  // reached through the singleton `me`, whose type `user` contains `mailFolders`.

  function GraphTypes(): (r: (TypeRef, TypeRef, TypeRef))
  {
    (TypeRef("event", "microsoft.graph.event"),
     TypeRef("user", "microsoft.graph.user"),
     TypeRef("mailFolder", "microsoft.graph.mailFolder"))
  }

  function Nav(name: string, owner: Owner, t: TypeRef, isCollection: bool, containsTarget: bool, kind: PropertyKind): Property
  {
    Property(name, owner, t, t, isCollection, true, containsTarget, kind, None)
  }

  function ExampleNamespace(): Namespace
  {
    var (event, user, mailFolder) := GraphTypes();
    var service := Owner("microsoft.graph.GraphService", Service);
    var userOwner := Owner("microsoft.graph.user", Entity);
    Namespace("microsoft.graph", [
      Class("event", "microsoft.graph.event", Entity, false, None, [], [], [], None),
      Class("mailFolder", "microsoft.graph.mailFolder", Entity, false, None, [], [], [], None),
      Class("user", "microsoft.graph.user", Entity, false, None, [],
            [Nav("mailFolders", userOwner, mailFolder, true, true, Plain)], [], None),
      Class("GraphService", "microsoft.graph.GraphService", Service, false, None, [],
            [Nav("events", service, event, true, false, Plain),
             Nav("me", service, user, false, false, Singleton([]))], [], None)
    ], [])
  }

  /** The service classes and their navigation properties of the example, step by step. */
  lemma ExampleServices()
    ensures var ns := ExampleNamespace();
            Where(ns.classes, IsService) == [ns.classes[3]] &&
            ServiceNavigations(ns) == ns.classes[3].properties
  {
    var cs := ExampleNamespace().classes;
    assert cs[3..][1..] == [];
    assert Where(cs[3..], IsService) == [cs[3]];
    assert cs[2..][1..] == cs[3..];
    assert Where(cs[2..], IsService) == [cs[3]];
    assert cs[1..][1..] == cs[2..];
    assert Where(cs[1..], IsService) == [cs[3]];
    assert Where(cs, IsService) == [cs[3]];
    var ps := cs[3].properties;
    assert ps[1..][1..] == [];
    assert Where(ps[1..], IsNavigation) == [ps[1]];
    assert Where(ps, IsNavigation) == ps;
    assert SelectMany([cs[3]], NavigationProperties) == NavigationProperties(cs[3]) + SelectMany([cs[3]][1..], NavigationProperties);
  }

  lemma ExampleEntitySet()
    ensures var ns := ExampleNamespace();
            var (event, _, _) := GraphTypes();
            var attachments := Nav("attachments", Owner("microsoft.graph.message", Entity), event, true, false, Plain);
            ServiceCollectionNavigationProperty(Model([ns], ns.classes[3]), ns, attachments) == Ok(ns.classes[3].properties[0])
  {
    var ns := ExampleNamespace();
    var (event, _, _) := GraphTypes();
    var attachments := Nav("attachments", Owner("microsoft.graph.message", Entity), event, true, false, Plain);
    ExampleServices();
    var navs := ServiceNavigations(ns);
    FirstWhereIs(navs, (x: Property) => IsEntitySetFor(attachments, x), 0);
  }

  /** `AsOdcmClass()` on the type of `me` finds the class `user`. */
  lemma ExampleLookup()
    ensures var ns := ExampleNamespace();
            ClassNamed(Model([ns], ns.classes[3]), "microsoft.graph.user") == Some(ns.classes[2])
  {
    var ns := ExampleNamespace();
    var m := Model([ns], ns.classes[3]);
    assert [ns][1..] == [];
    assert AllClasses(m) == ClassesOf(ns) + SelectMany([ns][1..], ClassesOf);
    var cs := ns.classes;
    assert cs[0].fullName != "microsoft.graph.user" by {
      assert cs[0].fullName[16] == 'e';
    }
    assert cs[1].fullName != "microsoft.graph.user" by {
      assert cs[1].fullName[16] == 'm';
    }
    FirstWhereIs(AllClasses(m), (c: Class) => c.fullName == "microsoft.graph.user", 2);
  }

  function ExampleFolder(): Property
  {
    Nav("parentFolder", Owner("microsoft.graph.message", Entity), GraphTypes().2, false, false, Plain)
  }

  /** There is no entity set of `mailFolder`. */
  lemma ExampleNoEntitySet()
    ensures ExplicitCollection(ExampleNamespace(), ExampleFolder()).None?
  {
    var ns := ExampleNamespace();
    var folder := ExampleFolder();
    var cs := ns.classes;
    var props := cs[3].properties;
    assert !IsEntitySetFor(folder, props[0]) by {
      assert |props[0].projection.fullName| != |folder.projection.fullName|;
    }
    assert !IsEntitySetFor(folder, props[1]);
    forall s, q | s in cs && IsService(s) && q in s.properties && q.isLink
      ensures !IsEntitySetFor(folder, q)
    {
      assert s == cs[3];
      assert q == props[0] || q == props[1];
    }
    NoExplicitCollection(ns, folder);
  }

  /** Step 2 accepts the singleton `me`: `user` contains `mailFolders`. */
  lemma ExampleMeQualifies()
    ensures var ns := ExampleNamespace();
            Inspect(Model([ns], ns.classes[3]), ExampleFolder(), ns.classes[3].properties[1]) == Accept
  {
    var ns := ExampleNamespace();
    ExampleLookup();
    var user := ns.classes[2];
    var f := (x: Property) => x.containsTarget && x.declaredType.name == ExampleFolder().declaredType.name;
    assert f(user.properties[0]);
  }

  /** Step 2 on the example's service class skips `events` and accepts `me`. */
  lemma ExampleImplicitSingleton()
    ensures var ns := ExampleNamespace();
            ImplicitSingleton(Model([ns], ns.classes[3]), ExampleFolder(), ns.classes[3].properties) == Some(ns.classes[3].properties[1])
  {
    var ns := ExampleNamespace();
    var m := Model([ns], ns.classes[3]);
    ExampleMeQualifies();
    var props := ns.classes[3].properties;
    assert Inspect(m, ExampleFolder(), props[0]) == Skip;
    assert ImplicitSingleton(m, ExampleFolder(), props[1..]) == Some(props[1]);
  }

  lemma ExampleSingleton()
    ensures var ns := ExampleNamespace();
            ServiceCollectionNavigationProperty(Model([ns], ns.classes[3]), ns, ExampleFolder()) == Ok(ns.classes[3].properties[1])
  {
    var cs := ExampleNamespace().classes;
    FirstWhereIs(cs, IsService, 3);
    ExampleNoEntitySet();
    ExampleImplicitSingleton();
  }
}
