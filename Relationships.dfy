/** The relationship classifier: navigation, reference and containment. */
module Relationships {
  import opened Seqs
  import opened Odcm

  /** `IsNavigation`: the property is a navigation link. */
  predicate IsNavigation(p: Property)
  {
    p.isLink
  }

  /**
   * `IsReference`: a navigation link that does not contain its target and is not
   * declared on the service class. Multiplicity plays no part.
   */
  function IsReference(p: Property): (r: bool)
    ensures r ==> IsNavigation(p)
    ensures p.owner.kind == Service ==> !r
    ensures p.containsTarget ==> !r
    ensures r <== p.owner.kind != Service && IsNavigation(p) && !p.containsTarget
  {
    p.owner.kind != Service && p.isLink && !p.containsTarget
  }

  /**
   * Every navigation is a reference, a navigation that contains its target, or a
   * navigation declared on the service class.
   */
  lemma NavigationKinds(p: Property)
    ensures IsNavigation(p) <==>
              || IsReference(p)
              || (p.isLink && p.containsTarget)
              || (p.isLink && p.owner.kind == Service)
  {
  }

  /** Whether a property is collection-valued does not change its classification. */
  lemma ReferenceIgnoresMultiplicity(p: Property, isCollection: bool)
    ensures IsReference(p.(isCollection := isCollection)) == IsReference(p)
    ensures IsNavigation(p.(isCollection := isCollection)) == IsNavigation(p)
  {
  }

  /** `NavigationProperties`: the class's own navigation properties, in declaration order. */
  function NavigationProperties(c: Class): (r: seq<Property>)
    ensures forall q :: q in r <==> q in c.properties && IsNavigation(q)
    ensures SubsequenceOf(r, c.properties)
  {
    WhereIsSubsequence(c.properties, IsNavigation);
    Where(c.properties, IsNavigation)
  }
}
