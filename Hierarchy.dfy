/**
 * Hierarchy queries: `IsBaseAbstractAndReferencedAsPropertyType`, `BaseClass`
 * and `HasDerived`.
 */
module Hierarchy {
  import opened Wrappers
  import opened Seqs
  import opened Odcm

  /**
   * `IsBaseAbstractAndReferencedAsPropertyType(c)`, where `ns` is the namespace
   * of `c`: the base of `c` is abstract and an entity class of `ns` declares a
   * property typed by the base's short name.
   */
  function IsBaseAbstractAndReferencedAsPropertyType(ns: Namespace, c: Class): (r: bool)
    ensures c.base.None? ==> !r
    ensures c.base.Some? && !c.base.value.isAbstract ==> !r
    ensures c.base.Some? && c.base.value.isAbstract ==>
              (r <==> exists e, x :: e in ns.classes && IsEntityClass(e) && x in e.properties &&
                                     x.declaredType.name == c.base.value.name)
  {
    match c.base
    case None => false
    case Some(b) =>
      var referencing := Where(Where(ns.classes, IsEntityClass),
                               (e: Class) => Any(e.properties, (x: Property) => x.declaredType.name == b.name && b.isAbstract));
      assert forall e :: e in referencing ==>
               exists x :: x in e.properties && x.declaredType.name == b.name && b.isAbstract by {
        forall e | e in referencing
          ensures exists x :: x in e.properties && x.declaredType.name == b.name && b.isAbstract
        {
          var i :| 0 <= i < |e.properties| && e.properties[i].declaredType.name == b.name && b.isAbstract;
          assert e.properties[i] in e.properties;
        }
      }
      assert |referencing| > 0 ==> referencing[0] in referencing;
      assert forall e, x ::
               (e in ns.classes && IsEntityClass(e) && x in e.properties && x.declaredType.name == b.name && b.isAbstract)
               ==> e in referencing by {
        forall e, x | e in ns.classes && IsEntityClass(e) && x in e.properties &&
                      x.declaredType.name == b.name && b.isAbstract
          ensures e in referencing
        {
          var i :| 0 <= i < |e.properties| && e.properties[i] == x;
        }
      }
      |referencing| > 0
  }

  /**
   * `BaseClass(o)`: for a property, the base of its projection type's class; for
   * a class, its own base; in both cases only when that base is not abstract.
   */
  function BaseClass(m: Model, o: OdcmObject): (r: Option<Class>)
    ensures r.Some? ==> !r.value.isAbstract
    ensures o.ClassObject? ==> (r.Some? <==> o.cls.base.Some? && !o.cls.base.value.isAbstract)
    ensures o.ClassObject? && r.Some? ==> r == o.cls.base
    ensures o.PropertyObject? ==>
              (r.Some? <==> exists t :: ClassNamed(m, o.prop.projection.fullName) == Some(t) &&
                                         t.base.Some? && !t.base.value.isAbstract)
    ensures o.PropertyObject? && r.Some? ==>
              exists t :: ClassNamed(m, o.prop.projection.fullName) == Some(t) && t.base == r
    ensures o.MethodObject? || o.EnumObject? ==> r.None?
  {
    match o
    case PropertyObject(p) =>
      (match ClassNamed(m, p.projection.fullName)
       case Some(t) => if t.base.Some? && !t.base.value.isAbstract then t.base else None
       case None => None)   // a property is not a class: the second branch does not apply
    case ClassObject(c) =>
      if c.base.Some? && !c.base.value.isAbstract then c.base else None
    case _ => None
  }

  /**
   * A property's base class is the base class of its projection type's class, and
   * nothing when that type is not a class.
   */
  lemma BaseClassThroughProjection(m: Model, p: Property)
    ensures match ClassNamed(m, p.projection.fullName)
            case Some(t) => BaseClass(m, PropertyObject(p)) == BaseClass(m, ClassObject(t))
            case None => BaseClass(m, PropertyObject(p)).None?
  {
  }

  /**
   * `HasDerived(o)`: the class, the class of a property's projection type or the
   * class of a method's return type has a derived class.
   */
  function HasDerived(m: Model, o: OdcmObject): (r: bool)
    ensures o.ClassObject? ==> (r <==> |o.cls.derived| > 0)
    ensures o.PropertyObject? ==>
              (r <==> exists t :: ClassNamed(m, o.prop.projection.fullName) == Some(t) && |t.derived| > 0)
    ensures o.MethodObject? ==>
              (r <==> exists t :: ClassNamed(m, o.meth.returnType.fullName) == Some(t) && |t.derived| > 0)
    ensures o.EnumObject? ==> !r
  {
    match o
    case ClassObject(c) => |c.derived| > 0
    case PropertyObject(p) =>
      var t := ClassNamed(m, p.projection.fullName);
      t.Some? && |t.value.derived| > 0
    case MethodObject(x) =>
      var t := ClassNamed(m, x.returnType.fullName);
      t.Some? && |t.value.derived| > 0
    case EnumObject(_) => false
  }

  /**
   * A property or method has derived classes exactly when the class of its
   * projection or return type has; a type that is not a class has none.
   */
  lemma HasDerivedThroughType(m: Model, o: OdcmObject)
    requires o.PropertyObject? || o.MethodObject?
    ensures var t := if o.PropertyObject? then o.prop.projection else o.meth.returnType;
            match ClassNamed(m, t.fullName)
            case Some(c) => HasDerived(m, o) == HasDerived(m, ClassObject(c))
            case None => !HasDerived(m, o)
  {
  }
}
