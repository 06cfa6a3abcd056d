/**
 * The `HSDS_RELATIONS` table of src/lib/relations.py: for every HSDS 3.1.2
 * entity, the entities it lists as its parents.  The entities are an
 * enumeration so that the shape of the table (closed, acyclic) can be proved
 * by cases; `Name` gives the table's string keys and `Relations` the table
 * itself, in the literal's order.
 */
module Relations {
  import opened Wrappers

  datatype Entity =
    | Organization | Service | Location | ServiceAtLocation | Address | Phone
    | Schedule | ServiceArea | Language | Funding | Accessibility | CostOption
    | Program | RequiredDocument | Contact | OrganizationIdentifier | Unit
    | ServiceCapacity | Attribute | Url | Metadata | MetaTableDescription
    | Taxonomy | TaxonomyTerm

  function Name(e: Entity): string
  {
    match e
    case Organization => "organization"
    case Service => "service"
    case Location => "location"
    case ServiceAtLocation => "service_at_location"
    case Address => "address"
    case Phone => "phone"
    case Schedule => "schedule"
    case ServiceArea => "service_area"
    case Language => "language"
    case Funding => "funding"
    case Accessibility => "accessibility"
    case CostOption => "cost_option"
    case Program => "program"
    case RequiredDocument => "required_document"
    case Contact => "contact"
    case OrganizationIdentifier => "organization_identifier"
    case Unit => "unit"
    case ServiceCapacity => "service_capacity"
    case Attribute => "attribute"
    case Url => "url"
    case Metadata => "metadata"
    case MetaTableDescription => "meta_table_description"
    case Taxonomy => "taxonomy"
    case TaxonomyTerm => "taxonomy_term"
  }

  /** The keys of the literal, in the order written. */
  const Order: seq<Entity> := [
    Organization, Service, Location, ServiceAtLocation, Address, Phone, Schedule,
    ServiceArea, Language, Funding, Accessibility, CostOption, Program,
    RequiredDocument, Contact, OrganizationIdentifier, Unit, ServiceCapacity,
    Attribute, Url, Metadata, MetaTableDescription, Taxonomy, TaxonomyTerm]

  /** The parent list of each entity, in the order written. */
  function Parents(e: Entity): seq<Entity>
  {
    match e
    case Organization => [Service]
    case Service => []
    case Location => [Organization]
    case ServiceAtLocation => [Service, Location]
    case Address => [Location]
    case Phone => [Location, Service, Organization, Contact, ServiceAtLocation]
    case Schedule => [Service, Location, ServiceAtLocation]
    case ServiceArea => [Service, ServiceAtLocation]
    case Language => [Service, Location, Phone]
    case Funding => [Organization, Service]
    case Accessibility => [Location]
    case CostOption => [Service]
    case Program => [Organization, Service]
    case RequiredDocument => [Service]
    case Contact => [Organization, Service, ServiceAtLocation, Location]
    case OrganizationIdentifier => [Organization]
    case Unit => [ServiceCapacity]
    case ServiceCapacity => [Service]
    case Attribute => [
      Organization, Service, Location, ServiceAtLocation, Address, Phone, Schedule,
      ServiceArea, Language, Funding, Accessibility, CostOption, Program,
      RequiredDocument, Contact, OrganizationIdentifier, Unit, Url, MetaTableDescription]
    case Url => [Organization, Service]
    case Metadata => [
      Organization, Service, Location, ServiceAtLocation, Address, Phone, Schedule,
      ServiceArea, Language, Funding, Accessibility, CostOption, Program,
      RequiredDocument, Contact, OrganizationIdentifier, Unit, Attribute, Url,
      MetaTableDescription, Taxonomy]
    case MetaTableDescription => []
    case Taxonomy => []
    case TaxonomyTerm => [Attribute]
  }

  function Names(es: seq<Entity>): (r: seq<string>)
    ensures |r| == |es| && forall i :: 0 <= i < |es| ==> r[i] == Name(es[i])
  {
    seq(|es|, i requires 0 <= i < |es| => Name(es[i]))
  }

  /** `HSDS_RELATIONS`, as the list of its `(key, parents)` items. */
  function Relations(): (r: seq<(string, seq<string>)>)
    ensures |r| == |Order|
    ensures forall i :: 0 <= i < |Order| ==> r[i] == (Name(Order[i]), Names(Parents(Order[i])))
  {
    seq(|Order|, i requires 0 <= i < |Order| => (Name(Order[i]), Names(Parents(Order[i]))))
  }

  /** The key a string names, if any. */
  function FromName(s: string): (r: Option<Entity>)
  {
    if s == "organization" then Some(Organization)
    else if s == "service" then Some(Service)
    else if s == "location" then Some(Location)
    else if s == "service_at_location" then Some(ServiceAtLocation)
    else if s == "address" then Some(Address)
    else if s == "phone" then Some(Phone)
    else if s == "schedule" then Some(Schedule)
    else if s == "service_area" then Some(ServiceArea)
    else if s == "language" then Some(Language)
    else if s == "funding" then Some(Funding)
    else if s == "accessibility" then Some(Accessibility)
    else if s == "cost_option" then Some(CostOption)
    else if s == "program" then Some(Program)
    else if s == "required_document" then Some(RequiredDocument)
    else if s == "contact" then Some(Contact)
    else if s == "organization_identifier" then Some(OrganizationIdentifier)
    else if s == "unit" then Some(Unit)
    else if s == "service_capacity" then Some(ServiceCapacity)
    else if s == "attribute" then Some(Attribute)
    else if s == "url" then Some(Url)
    else if s == "metadata" then Some(Metadata)
    else if s == "meta_table_description" then Some(MetaTableDescription)
    else if s == "taxonomy" then Some(Taxonomy)
    else if s == "taxonomy_term" then Some(TaxonomyTerm)
    else None
  }

  /** `HSDS_RELATIONS.get(name)`. */
  function ParentsOf(name: string): Option<seq<string>>
  {
    match FromName(name)
    case Some(e) => Some(Names(Parents(e)))
    case None => None
  }

  // ---------------------------------------------------------------------------
  // The table's keys

  /** Each key names exactly one entity.  The proof is split by groups of
      entities: each key must be told apart from every key before it. */
  lemma FromNameName(e: Entity)
    ensures FromName(Name(e)) == Some(e)
  {
    match e
    case Organization | Service | Location | ServiceAtLocation | Address | Phone | Schedule | ServiceArea | Language => FromNameGroup1(e);
    case Funding | Accessibility | CostOption | Program => FromNameGroup2(e);
    case RequiredDocument | Contact | OrganizationIdentifier => FromNameGroup3(e);
    case Unit | ServiceCapacity => FromNameGroup4(e);
    case Attribute | Url => FromNameGroup5(e);
    case Metadata => FromNameGroup6(e);
    case MetaTableDescription => FromNameGroup7(e);
    case Taxonomy => FromNameGroup8(e);
    case TaxonomyTerm => FromNameGroup9(e);
  }

  lemma FromNameGroup1(e: Entity)
    requires e.Organization? || e.Service? || e.Location? || e.ServiceAtLocation? || e.Address? || e.Phone? || e.Schedule? || e.ServiceArea? || e.Language?
    ensures FromName(Name(e)) == Some(e)
  {
    match e
    case Organization => assert FromName("organization") == Some(Organization);
    case Service => assert FromName("service") == Some(Service);
    case Location => assert FromName("location") == Some(Location);
    case ServiceAtLocation => assert FromName("service_at_location") == Some(ServiceAtLocation);
    case Address => assert FromName("address") == Some(Address);
    case Phone => assert FromName("phone") == Some(Phone);
    case Schedule => assert FromName("schedule") == Some(Schedule);
    case ServiceArea => assert FromName("service_area") == Some(ServiceArea);
    case Language => assert FromName("language") == Some(Language);
  }

  lemma FromNameGroup2(e: Entity)
    requires e.Funding? || e.Accessibility? || e.CostOption? || e.Program?
    ensures FromName(Name(e)) == Some(e)
  {
    match e
    case Funding => assert FromName("funding") == Some(Funding);
    case Accessibility => assert FromName("accessibility") == Some(Accessibility);
    case CostOption => assert FromName("cost_option") == Some(CostOption);
    case Program => assert FromName("program") == Some(Program);
  }

  lemma FromNameGroup3(e: Entity)
    requires e.RequiredDocument? || e.Contact? || e.OrganizationIdentifier?
    ensures FromName(Name(e)) == Some(e)
  {
    match e
    case RequiredDocument => assert FromName("required_document") == Some(RequiredDocument);
    case Contact => assert FromName("contact") == Some(Contact);
    case OrganizationIdentifier => assert FromName("organization_identifier") == Some(OrganizationIdentifier);
  }

  lemma FromNameGroup4(e: Entity)
    requires e.Unit? || e.ServiceCapacity?
    ensures FromName(Name(e)) == Some(e)
  {
    match e
    case Unit => assert FromName("unit") == Some(Unit);
    case ServiceCapacity => assert FromName("service_capacity") == Some(ServiceCapacity);
  }

  lemma FromNameGroup5(e: Entity)
    requires e.Attribute? || e.Url?
    ensures FromName(Name(e)) == Some(e)
  {
    match e
    case Attribute => assert FromName("attribute") == Some(Attribute);
    case Url => assert FromName("url") == Some(Url);
  }

  lemma FromNameGroup6(e: Entity)
    requires e.Metadata?
    ensures FromName(Name(e)) == Some(e)
  {
    assert FromName("metadata") == Some(Metadata);
  }

  lemma FromNameGroup7(e: Entity)
    requires e.MetaTableDescription?
    ensures FromName(Name(e)) == Some(e)
  {
    assert FromName("meta_table_description") == Some(MetaTableDescription);
  }

  lemma FromNameGroup8(e: Entity)
    requires e.Taxonomy?
    ensures FromName(Name(e)) == Some(e)
  {
    assert FromName("taxonomy") == Some(Taxonomy);
  }

  lemma FromNameGroup9(e: Entity)
    requires e.TaxonomyTerm?
    ensures FromName(Name(e)) == Some(e)
  {
    assert FromName("taxonomy_term") == Some(TaxonomyTerm);
  }

  lemma NameInjective(a: Entity, b: Entity)
    ensures Name(a) == Name(b) ==> a == b
  {
    FromNameName(a);
    FromNameName(b);
  }

  /** Every entity is a key, exactly once. */
  lemma OrderComplete(e: Entity)
    ensures e in Order
  {
  }

  lemma OrderDistinct()
    ensures forall i, j :: 0 <= i < j < |Order| ==> Order[i] != Order[j]
  {
  }

  /** No key is written twice in the literal. */
  lemma RelationsKeysUnique()
    ensures forall i, j :: 0 <= i < j < |Relations()| ==> Relations()[i].0 != Relations()[j].0
  {
    OrderDistinct();
    forall i, j | 0 <= i < j < |Relations()| ensures Relations()[i].0 != Relations()[j].0 {
      NameInjective(Order[i], Order[j]);
    }
  }

  /** Looking a key up in the list of items gives its parents. */
  lemma ParentsOfTable(i: nat)
    requires i < |Relations()|
    ensures ParentsOf(Relations()[i].0) == Some(Relations()[i].1)
  {
    FromNameName(Order[i]);
  }

  /** The table is closed: every parent named is itself a key. */
  lemma ParentsAreKeys(name: string, p: string)
    requires ParentsOf(name).Some? && p in ParentsOf(name).value
    ensures ParentsOf(p).Some?
  {
    var e := FromName(name).value;
    var k :| 0 <= k < |Parents(e)| && Names(Parents(e))[k] == p;
    FromNameName(Parents(e)[k]);
  }

  // ---------------------------------------------------------------------------
  // The documented resolutions

  /** `HSDS_RELATIONS[Name(e)]` lists the names of `e`'s parents. */
  lemma ParentsOfName(e: Entity)
    ensures ParentsOf(Name(e)) == Some(Names(Parents(e)))
  {
    FromNameName(e);
  }

  lemma NamesOne(e: Entity)
    ensures Names([e]) == [Name(e)]
  {
  }

  /** Service is the root: it lists no parents. */
  lemma ServiceIsRoot()
    ensures ParentsOf("service") == Some([])
  {
    ParentsOfName(Service);
  }

  /** The edge of the Service/Organization cycle is kept in one direction only:
      organization's only parent is service. */
  lemma OrganizationBelowService()
    ensures ParentsOf("organization") == Some(["service"])
  {
    ParentsOfName(Organization);
    NamesOne(Service);
  }

  /** A unit comes after its service capacity, which comes after service. */
  lemma UnitBelowServiceCapacity()
    ensures ParentsOf("unit") == Some(["service_capacity"])
    ensures ParentsOf("service_capacity") == Some(["service"])
  {
    ParentsOfName(Unit);
    NamesOne(ServiceCapacity);
    assert Name(Unit) == "unit" && Name(ServiceCapacity) == "service_capacity";
    ParentsOfName(ServiceCapacity);
    NamesOne(Service);
    assert Name(Service) == "service";
  }

  /** Taxonomy and taxonomy term are independent: taxonomy lists nothing, and a
      term only needs attribute. */
  lemma TaxonomyIsRoot()
    ensures ParentsOf("taxonomy") == Some([])
  {
    ParentsOfName(Taxonomy);
    assert Name(Taxonomy) == "taxonomy";
    assert Names(Parents(Taxonomy)) == [];
  }

  lemma TaxonomyTermBelowAttribute()
    ensures ParentsOf("taxonomy_term") == Some(["attribute"])
  {
    ParentsOfName(TaxonomyTerm);
    NamesOne(Attribute);
    assert Name(TaxonomyTerm) == "taxonomy_term" && Name(Attribute) == "attribute";
  }

  // ---------------------------------------------------------------------------
  // The table is a DAG

  /** The length of the longest parent chain below an entity. */
  function Rank(e: Entity): nat
  {
    match e
    case Service => 0
    case MetaTableDescription => 0
    case Taxonomy => 0
    case Organization => 1
    case CostOption => 1
    case RequiredDocument => 1
    case ServiceCapacity => 1
    case Location => 2
    case Funding => 2
    case Program => 2
    case OrganizationIdentifier => 2
    case Unit => 2
    case Url => 2
    case ServiceAtLocation => 3
    case Address => 3
    case Accessibility => 3
    case Contact => 4
    case Schedule => 4
    case ServiceArea => 4
    case Phone => 5
    case Language => 6
    case Attribute => 7
    case Metadata => 8
    case TaxonomyTerm => 8
  }

  /** Every edge goes to an entity of smaller rank. */
  lemma RankDecreases(e: Entity, p: Entity)
    requires p in Parents(e)
    ensures Rank(p) < Rank(e)
  {
  }

  /** A chain of parent edges. */
  predicate IsChain(path: seq<Entity>) {
    forall i :: 0 <= i < |path| - 1 ==> path[i + 1] in Parents(path[i])
  }

  /** Along a chain the rank strictly falls. */
  lemma {:induction false} ChainRank(path: seq<Entity>)
    requires |path| >= 2 && IsChain(path)
    ensures Rank(path[|path| - 1]) < Rank(path[0])
    decreases |path|
  {
    RankDecreases(path[0], path[1]);
    if |path| > 2 {
      var tail := path[1..];
      assert IsChain(tail) by {
        forall i | 0 <= i < |tail| - 1 ensures tail[i + 1] in Parents(tail[i]) {
          assert tail[i] == path[i + 1] && tail[i + 1] == path[i + 2];
        }
      }
      ChainRank(tail);
    }
  }

  /** No chain of parent edges returns to where it started. */
  lemma Acyclic(path: seq<Entity>)
    requires |path| >= 2 && IsChain(path)
    ensures path[|path| - 1] != path[0]
  {
    ChainRank(path);
  }

  /** No entity lists itself. */
  lemma NoSelfEdge(e: Entity)
    ensures e !in Parents(e)
  {
    if e in Parents(e) {
      RankDecreases(e, e);
    }
  }
}
