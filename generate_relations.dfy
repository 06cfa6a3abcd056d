/**
 * src/lib/maintenance/generate_relations.py: the table of HSDS parent
 * entities derived from the JSON schema of an HSDS data package, and the
 * Python literal `HSDS_RELATIONS = {...}` it is written as.
 *
 * The `defaultdict(set)` the Python code fills in place is a
 * `map<string, set<string>>` here, threaded through the calls: a key exists
 * exactly when the Python code has touched `relations[key]`.
 */
module GenerateRelations {
  import opened Wrappers
  import opened Strings
  import opened Json
  import Generator

  // ---------------------------------------------------------------------------
  // _singularize_property_name

  /** The property names mapped to a fixed entity, whatever their ending. */
  function SpecialEntity(name: string): Option<string>
  {
    if name in ["physical_addresses", "addresses", "address"] then Some("address")
    else if name in ["organization_identifiers", "organization_identifier"] then Some("organization_identifier")
    else if name in ["capacities", "capacity", "service_capacities", "service_capacity"] then Some("service_capacity")
    else if name in ["taxonomy_details", "taxonomy_detail"] then Some("taxonomy_term")
    else if name in ["additional_urls", "additional_url", "additional_websites", "additional_website", "url"] then Some("url")
    else None
  }

  /** `_singularize_property_name(prop_name)`. Outside the fixed names it never
      lengthens a name, and it leaves a name unchanged exactly when the name
      does not end in `s` or is `status`. */
  function Singularize(name: string): (r: string)
    ensures SpecialEntity(name).None? ==> |r| <= |name|
    ensures SpecialEntity(name).None? ==> (r == name <==> !EndsWith(name, "s") || name == "status")
  {
    match SpecialEntity(name)
    case Some(entity) => entity
    case None =>
      if EndsWith(name, "ies") then DropLast(name, 3) + "y"
      else if EndsWith(name, "s") && name != "status" then DropLast(name, 1)
      else name
  }

  /** A plural in `s` loses its `s`, unless it is `status`, ends in `ies`, or is
      one of the fixed names. */
  lemma SingularizePlural(x: string)
    requires SpecialEntity(x + "s").None?
    requires !EndsWith(x, "ie") && x != "statu"
    ensures Singularize(x + "s") == x
  {
    var w := x + "s";
    if |x| >= 2 {
      assert w[|w| - 3..] == x[|x| - 2..] + "s";
    }
    assert !EndsWith(w, "ies");
    assert w[|w| - 1..] == "s" && w[..|w| - 1] == x;
  }

  /** A plural in `ies` becomes the singular in `y`. */
  lemma SingularizeIes(x: string)
    requires SpecialEntity(x + "ies").None?
    ensures Singularize(x + "ies") == x + "y"
  {
    var w := x + "ies";
    assert w[|w| - 3..] == "ies" && w[..|w| - 3] == x;
  }

  /** A name that is not one of the fixed ones and does not end in `s` is
      already singular. */
  lemma SingularizeKeeps(name: string)
    requires SpecialEntity(name).None? && !EndsWith(name, "s")
    ensures Singularize(name) == name
  {
  }

  /** The entity a fixed name maps to is left as it is. */
  lemma SpecialEntityFixed(name: string)
    requires SpecialEntity(name).Some?
    ensures Singularize(SpecialEntity(name).value) == SpecialEntity(name).value
  {
    var e := SpecialEntity(name).value;
    if e == "taxonomy_term" {
      TaxonomyTermKept();
    } else {
      FixedNamesKept();
    }
  }

  lemma FixedNamesKept()
    ensures Singularize("address") == "address"
    ensures Singularize("organization_identifier") == "organization_identifier"
    ensures Singularize("service_capacity") == "service_capacity"
    ensures Singularize("url") == "url"
  {
    FixedNameKept("address");
    FixedNameKept("organization_identifier");
    FixedNameKept("service_capacity");
    FixedNameKept("url");
  }

  lemma FixedNameKept(e: string)
    requires SpecialEntity(e) == Some(e)
    ensures Singularize(e) == e
  {
  }

  /** `taxonomy_term` is not a fixed name, and it does not end in `s`. */
  lemma TaxonomyTermKept()
    ensures Singularize("taxonomy_term") == "taxonomy_term"
  {
    var e := "taxonomy_term";
    assert SpecialEntity(e).None?;
    assert e[|e| - 1..] == "m";
    assert e[|e| - 3..] == "erm";
  }

  // ---------------------------------------------------------------------------
  // _traverse_schema

  type Relations = map<string, set<string>>

  /** `relations[k]` read as a set, without creating the key. */
  function ParentsOf(rel: Relations, k: string): set<string>
  {
    if k in rel then rel[k] else {}
  }

  /** `if parent_name: relations[child_name].add(parent_name)`. */
  function AddEdge(rel: Relations, child: string, parent: string): (r: Relations)
  {
    if parent == "" then rel else rel[child := ParentsOf(rel, child) + {parent}]
  }

  /** `properties.items()` on something that is not a dict. */
  datatype TraverseError = AttributeError

  /** `_traverse_schema(node, parent_name, relations)`: the table after the call,
      or the exception it raises. */
  function Traverse(node: Value, parent: string, rel: Relations): Result<Relations, TraverseError>
    decreases Generator.Size(node), 1
  {
    match node
    case Obj(fs) =>
      (match Get(fs, "properties")
       case None => Ok(rel)
       case Some(props) =>
         if props.Obj? then
           Generator.GetSmaller(fs, "properties");
           TraverseProps(props.fields, parent, rel)
         else Err(AttributeError))
    case _ => Ok(rel)
  }

  /** The loop over `properties.items()`, in order. */
  function TraverseProps(ps: Fields, parent: string, rel: Relations): Result<Relations, TraverseError>
    decreases Generator.SizeFields(ps), 0
  {
    if ps == [] then Ok(rel)
    else
      assert Generator.SizeFields(ps) == 1 + Generator.Size(ps[0].1) + Generator.SizeFields(ps[1..]);
      var rel' :- VisitProp(ps[0].0, ps[0].1, parent, rel);
      TraverseProps(ps[1..], parent, rel')
  }

  /** `{}` for a missing key, as in `prop_schema.get("items", {})`. */
  function GetOrEmpty(fs: Fields, k: string): Value
  {
    match Get(fs, k) case Some(v) => v case None => Obj([])
  }

  predicate HasKey(v: Value, k: string) {
    v.Obj? && k in Keys(v.fields)
  }

  predicate TypeIs(v: Value, t: string) {
    v.Obj? && Get(v.fields, "type") == Some(Str(t))
  }

  /** The schema a property leads into, with the edge it adds, if any: the
      `items` of an array of objects, or the property itself when it is an
      object. An array whose items are not objects leads nowhere, even when
      the property also has `properties`. */
  function Child(propSchema: Value): (c: Option<Value>)
    ensures c.Some? ==> Generator.Size(c.value) <= Generator.Size(propSchema)
  {
    if !propSchema.Obj? then None
    else if TypeIs(propSchema, "array") then
      var items := GetOrEmpty(propSchema.fields, "items");
      if items.Obj? && (TypeIs(items, "object") || HasKey(items, "properties")) then
        Generator.GetSmaller(propSchema.fields, "items");
        Some(items)
      else None
    else if TypeIs(propSchema, "object") || HasKey(propSchema, "properties") then Some(propSchema)
    else None
  }

  /** The body of the loop for one `(prop_name, prop_schema)`. */
  function VisitProp(name: string, propSchema: Value, parent: string, rel: Relations): Result<Relations, TraverseError>
    decreases Generator.Size(propSchema), 2
  {
    match Child(propSchema)
    case None => Ok(rel)
    case Some(next) =>
      var child := Singularize(name);
      Traverse(next, child, AddEdge(rel, child, parent))
  }

  // ---------------------------------------------------------------------------
  // What the traversal adds

  /** `rel'` extends `rel`: no key and no parent is lost, every new key comes
      with a parent, and every new parent is a non-empty name. */
  predicate Extends(rel: Relations, rel': Relations) {
    && (forall k :: k in rel ==> k in rel' && rel[k] <= rel'[k])
    && (forall k :: k in rel' && k !in rel ==> rel'[k] != {})
    && (forall k, p :: k in rel' && p in rel'[k] && !(k in rel && p in rel[k]) ==> p != "")
  }

  lemma ExtendsRefl(rel: Relations)
    ensures Extends(rel, rel)
  {
  }

  lemma ExtendsTrans(r0: Relations, r1: Relations, r2: Relations)
    requires Extends(r0, r1) && Extends(r1, r2)
    ensures Extends(r0, r2)
  {
    forall k | k in r2 && k !in r0 ensures r2[k] != {} {
      if k in r1 {
        assert r1[k] != {};
        var p :| p in r1[k];
        assert p in r2[k];
      }
    }
  }

  lemma AddEdgeExtends(rel: Relations, child: string, parent: string)
    ensures Extends(rel, AddEdge(rel, child, parent))
    ensures parent != "" ==> child in AddEdge(rel, child, parent) && parent in AddEdge(rel, child, parent)[child]
  {
    if parent != "" {
      var r := AddEdge(rel, child, parent);
      assert parent in r[child];
    }
  }

  /** The traversal only adds: every edge it adds has a non-empty parent, and a
      key is only created together with an edge. */
  lemma {:induction false} TraverseExtends(node: Value, parent: string, rel: Relations)
    ensures Traverse(node, parent, rel).Ok? ==> Extends(rel, Traverse(node, parent, rel).value)
    decreases Generator.Size(node), 1
  {
    ExtendsRefl(rel);
    if node.Obj? {
      var props := Get(node.fields, "properties");
      if props.Some? && props.value.Obj? {
        Generator.GetSmaller(node.fields, "properties");
        TraversePropsExtends(props.value.fields, parent, rel);
      }
    }
  }

  lemma {:induction false} TraversePropsExtends(ps: Fields, parent: string, rel: Relations)
    ensures TraverseProps(ps, parent, rel).Ok? ==> Extends(rel, TraverseProps(ps, parent, rel).value)
    decreases Generator.SizeFields(ps), 0
  {
    if ps == [] {
      ExtendsRefl(rel);
    } else {
      assert Generator.SizeFields(ps) == 1 + Generator.Size(ps[0].1) + Generator.SizeFields(ps[1..]);
      var r1 := VisitProp(ps[0].0, ps[0].1, parent, rel);
      if r1.Ok? {
        VisitPropExtends(ps[0].0, ps[0].1, parent, rel);
        TraversePropsExtends(ps[1..], parent, r1.value);
        if TraverseProps(ps, parent, rel).Ok? {
          ExtendsTrans(rel, r1.value, TraverseProps(ps, parent, rel).value);
        }
      }
    }
  }

  lemma {:induction false} VisitPropExtends(name: string, propSchema: Value, parent: string, rel: Relations)
    ensures VisitProp(name, propSchema, parent, rel).Ok? ==> Extends(rel, VisitProp(name, propSchema, parent, rel).value)
    decreases Generator.Size(propSchema), 2
  {
    match Child(propSchema)
    case None => ExtendsRefl(rel);
    case Some(next) =>
      var child := Singularize(name);
      var r1 := AddEdge(rel, child, parent);
      AddEdgeExtends(rel, child, parent);
      TraverseExtends(next, child, r1);
      if Traverse(next, child, r1).Ok? {
        ExtendsTrans(rel, r1, Traverse(next, child, r1).value);
      }
  }

  /** A property that leads into a schema adds the edge from its singular name
      to the non-empty parent, and whatever the rest of the loop does keeps it. */
  lemma PropertyEdge(name: string, propSchema: Value, parent: string, rel: Relations)
    requires Child(propSchema).Some? && parent != ""
    requires VisitProp(name, propSchema, parent, rel).Ok?
    ensures var r := VisitProp(name, propSchema, parent, rel).value;
      Singularize(name) in r && parent in r[Singularize(name)]
  {
    var child := Singularize(name);
    var r1 := AddEdge(rel, child, parent);
    AddEdgeExtends(rel, child, parent);
    TraverseExtends(Child(propSchema).value, child, r1);
  }

  // ---------------------------------------------------------------------------
  // Where the traversal's edges come from

  /** The singular names of the object-like properties reachable from `node`:
      an object property, or an array property whose items are objects, and
      then those below the schema it leads into. */
  function ChildNames(node: Value): set<string>
    decreases Generator.Size(node), 1
  {
    match node
    case Obj(fs) =>
      (match Get(fs, "properties")
       case Some(props) =>
         if props.Obj? then
           Generator.GetSmaller(fs, "properties");
           PropsChildNames(props.fields)
         else {}
       case None => {})
    case _ => {}
  }

  function PropsChildNames(ps: Fields): set<string>
    decreases Generator.SizeFields(ps), 0
  {
    if ps == [] then {}
    else
      assert Generator.SizeFields(ps) == 1 + Generator.Size(ps[0].1) + Generator.SizeFields(ps[1..]);
      PropChildNames(ps[0].0, ps[0].1) + PropsChildNames(ps[1..])
  }

  function PropChildNames(name: string, propSchema: Value): set<string>
    decreases Generator.Size(propSchema), 2
  {
    match Child(propSchema)
    case None => {}
    case Some(next) => {Singularize(name)} + ChildNames(next)
  }

  /** Every edge in `rel'` and not in `rel` goes from a name in `keys` to a
      name in `parents`. */
  predicate AddsOnly(rel: Relations, rel': Relations, keys: set<string>, parents: set<string>) {
    forall k, p :: k in rel' && p in rel'[k] && !HasEdge(rel, k, p) ==> k in keys && p in parents
  }

  predicate HasEdge(rel: Relations, k: string, p: string) {
    k in rel && p in rel[k]
  }

  lemma AddsOnlyTrans(r0: Relations, r1: Relations, r2: Relations, k1: set<string>, p1: set<string>, k2: set<string>, p2: set<string>)
    requires AddsOnly(r0, r1, k1, p1) && AddsOnly(r1, r2, k2, p2)
    ensures AddsOnly(r0, r2, k1 + k2, p1 + p2)
  {
    forall k, p | k in r2 && p in r2[k] && !HasEdge(r0, k, p) ensures k in k1 + k2 && p in p1 + p2 {
      if HasEdge(r1, k, p) {
        assert k in k1 && p in p1;
      } else {
        assert k in k2 && p in p2;
      }
    }
  }

  /** Edges come only from object-like properties: every edge the traversal
      adds goes from the singular name of an object or array-of-objects
      property reachable from `node` to the parent or to another such name. */
  lemma {:induction false} TraverseAddsOnly(node: Value, parent: string, rel: Relations)
    ensures Traverse(node, parent, rel).Ok? ==>
      AddsOnly(rel, Traverse(node, parent, rel).value, ChildNames(node), {parent} + ChildNames(node))
    decreases Generator.Size(node), 1
  {
    if node.Obj? {
      var props := Get(node.fields, "properties");
      if props.Some? && props.value.Obj? {
        Generator.GetSmaller(node.fields, "properties");
        TraversePropsAddsOnly(props.value.fields, parent, rel);
      }
    }
  }

  lemma {:induction false} TraversePropsAddsOnly(ps: Fields, parent: string, rel: Relations)
    ensures TraverseProps(ps, parent, rel).Ok? ==>
      AddsOnly(rel, TraverseProps(ps, parent, rel).value, PropsChildNames(ps), {parent} + PropsChildNames(ps))
    decreases Generator.SizeFields(ps), 0
  {
    if ps != [] {
      assert Generator.SizeFields(ps) == 1 + Generator.Size(ps[0].1) + Generator.SizeFields(ps[1..]);
      var r1 := VisitProp(ps[0].0, ps[0].1, parent, rel);
      if r1.Ok? {
        var k1 := PropChildNames(ps[0].0, ps[0].1);
        var k2 := PropsChildNames(ps[1..]);
        VisitPropAddsOnly(ps[0].0, ps[0].1, parent, rel);
        TraversePropsAddsOnly(ps[1..], parent, r1.value);
        if TraverseProps(ps, parent, rel).Ok? {
          AddsOnlyTrans(rel, r1.value, TraverseProps(ps, parent, rel).value, k1, {parent} + k1, k2, {parent} + k2);
          assert k1 + k2 == PropsChildNames(ps);
        }
      }
    }
  }

  lemma {:induction false} VisitPropAddsOnly(name: string, propSchema: Value, parent: string, rel: Relations)
    ensures VisitProp(name, propSchema, parent, rel).Ok? ==>
      AddsOnly(rel, VisitProp(name, propSchema, parent, rel).value,
               PropChildNames(name, propSchema), {parent} + PropChildNames(name, propSchema))
    decreases Generator.Size(propSchema), 2
  {
    match Child(propSchema)
    case None =>
    case Some(next) =>
      var child := Singularize(name);
      var r1 := AddEdge(rel, child, parent);
      assert AddsOnly(rel, r1, {child}, {parent});
      TraverseAddsOnly(next, child, r1);
      if Traverse(next, child, r1).Ok? {
        AddsOnlyTrans(rel, r1, Traverse(next, child, r1).value, {child}, {parent},
                      ChildNames(next), {child} + ChildNames(next));
      }
  }

  /** A schema with no object-like property anywhere leaves the table as it
      was. */
  lemma TraverseNoObjects(node: Value, parent: string, rel: Relations)
    requires ChildNames(node) == {}
    ensures Traverse(node, parent, rel).Ok? ==> Traverse(node, parent, rel).value == rel
  {
    if Traverse(node, parent, rel).Ok? {
      var r := Traverse(node, parent, rel).value;
      TraverseAddsOnly(node, parent, rel);
      TraverseExtends(node, parent, rel);
      forall k | k in r ensures k in rel && r[k] == rel[k] {
        assert k !in rel ==> r[k] != {};
        forall p | p in r[k] ensures HasEdge(rel, k, p) {
          assert !HasEdge(rel, k, p) ==> k in ChildNames(node);
        }
      }
    }
  }

  /** A non-dict node, and a dict without `properties`, add nothing; a
      `properties` that is not a dict raises. */
  lemma TraverseCases(node: Value, parent: string, rel: Relations)
    ensures !node.Obj? ==> Traverse(node, parent, rel) == Ok(rel)
    ensures node.Obj? && "properties" !in Keys(node.fields) ==> Traverse(node, parent, rel) == Ok(rel)
    ensures node.Obj? && "properties" in Keys(node.fields) && !Get(node.fields, "properties").value.Obj? ==>
      Traverse(node, parent, rel) == Err(AttributeError)
  {
  }

  /** The recursion of `_traverse_schema`. */
  method TraverseSchema(node: Value, parentName: string, relations: Relations) returns (r: Result<Relations, TraverseError>)
    ensures r == Traverse(node, parentName, relations)
    decreases Generator.Size(node), 1
  {
    if !node.Obj? {
      return Ok(relations);
    }
    var properties := GetOrEmpty(node.fields, "properties");
    if !properties.Obj? {
      return Err(AttributeError);
    }
    if Get(node.fields, "properties").Some? {
      Generator.GetSmaller(node.fields, "properties");
    }
    var ps := properties.fields;
    var rel := relations;
    var i := 0;
    while i < |ps|
      invariant 0 <= i <= |ps|
      invariant TraverseProps(ps[i..], parentName, rel) == Traverse(node, parentName, relations)
    {
      assert ps[i..][0] == ps[i] && ps[i..][1..] == ps[i + 1..];
      Generator.FieldSmaller(ps, i);
      var step := VisitProperty(ps[i].0, ps[i].1, parentName, rel);
      if step.Err? {
        return Err(step.error);
      }
      rel := step.value;
      i := i + 1;
    }
    return Ok(rel);
  }

  /** One iteration of the loop over `properties.items()`. */
  method VisitProperty(propName: string, propSchema: Value, parentName: string, relations: Relations)
    returns (r: Result<Relations, TraverseError>)
    ensures r == VisitProp(propName, propSchema, parentName, relations)
    decreases Generator.Size(propSchema), 2
  {
    if !propSchema.Obj? {
      return Ok(relations);
    }
    var next: Value;
    if TypeIs(propSchema, "array") {
      var items := GetOrEmpty(propSchema.fields, "items");
      if !(items.Obj? && (TypeIs(items, "object") || HasKey(items, "properties"))) {
        return Ok(relations);
      }
      next := items;
    } else if TypeIs(propSchema, "object") || HasKey(propSchema, "properties") {
      next := propSchema;
    } else {
      return Ok(relations);
    }
    assert Child(propSchema) == Some(next);
    var childName := Singularize(propName);
    var rel := relations;
    if parentName != "" {
      rel := rel[childName := ParentsOf(rel, childName) + {parentName}];
    }
    r := TraverseSchema(next, childName, rel);
  }

  // ---------------------------------------------------------------------------
  // generate_relations_dict: the overrides

  const Root := "organization"
  const CoreKeys: seq<string> := ["organization", "service", "location", "service_at_location"]
  /** The entities `attribute` does not get as parents. */
  const AttributeExcluded: set<string> := {"attribute", "metadata", "taxonomy", "taxonomy_term", "meta_table_description"}
  /** The entities `metadata` does not get as parents. */
  const MetadataExcluded: set<string> := {"metadata", "meta_table_description"}

  /** Dropping every key from its own parents: the loop over `relations.items()`. */
  function NoSelfLoops(rel: Relations): (r: Relations)
  {
    map k | k in rel :: rel[k] - {k}
  }

  /** The table after the manual overrides that follow the traversal, before
      it is sorted. `all` is the key set once the root is present, taken
      before `attribute` and `metadata` are touched. */
  function Overrides(traversed: Relations): Relations
  {
    var rel1 := if Root in traversed then traversed else traversed[Root := {}];
    var all := rel1.Keys;
    var rel2 := rel1["attribute" := ParentsOf(rel1, "attribute") + (all - AttributeExcluded)];
    var rel3 := rel2["metadata" := ParentsOf(rel2, "metadata") + (all - MetadataExcluded)];
    var rel4 := rel3["taxonomy_term" := (ParentsOf(rel3, "taxonomy_term") - {"attribute"}) + {"attribute"}];
    var rel5 := rel4["attribute" := rel4["attribute"] - {"taxonomy_term"}];
    NoSelfLoops(rel5)["service" := {}]
  }

  /** The keys are those of the traversal plus the ones the overrides touch;
      `service` has no parents, no entity is its own parent, `taxonomy_term`
      has `attribute` as a parent and not the other way round. */
  lemma OverridesShape(t: Relations)
    ensures var r := Overrides(t);
      && r.Keys == t.Keys + {Root, "attribute", "metadata", "taxonomy_term", "service"}
      && r["service"] == {}
      && (forall k :: k in r ==> k !in r[k])
      && "attribute" in r["taxonomy_term"]
      && "taxonomy_term" !in r["attribute"]
  {
  }

  /** The parents the overrides give: every entity seen (the root included)
      outside the excluded ones becomes a parent of `attribute` and of
      `metadata`. */
  lemma OverridesPolymorphic(t: Relations)
    ensures var all := t.Keys + {Root};
      && (forall e :: e in all && e !in AttributeExcluded ==> e in Overrides(t)["attribute"])
      && (forall e :: e in all && e !in MetadataExcluded ==> e in Overrides(t)["metadata"])
  {
  }

  /** Nothing the traversal found is lost except `service`'s parents, self
      edges, and `taxonomy_term` as a parent of `attribute`. */
  lemma OverridesKeep(t: Relations)
    ensures forall k, p :: k in t && p in t[k] && p != k && k != "service" && !(k == "attribute" && p == "taxonomy_term") ==>
      k in Overrides(t) && p in Overrides(t)[k]
  {
  }

  /** And nothing else is added. */
  lemma OverridesOnly(t: Relations)
    ensures var all := t.Keys + {Root};
      forall k, p :: k in Overrides(t) && p in Overrides(t)[k] ==>
        || p in ParentsOf(t, k)
        || (k == "attribute" && p in all - AttributeExcluded)
        || (k == "metadata" && p in all - MetadataExcluded)
        || (k == "taxonomy_term" && p == "attribute")
  {
  }

  /** The self-edge loop of `generate_relations_dict`. */
  method RemoveSelfLoops(relations: Relations) returns (r: Relations)
    ensures r == NoSelfLoops(relations)
  {
    r := relations;
    var todo := relations.Keys;
    while todo != {}
      invariant todo <= relations.Keys && r.Keys == relations.Keys
      invariant forall k :: k in relations ==> r[k] == if k in todo then relations[k] else relations[k] - {k}
      decreases todo
    {
      var key :| key in todo;
      if key in r[key] {
        r := r[key := r[key] - {key}];
      }
      todo := todo - {key};
    }
  }

  // ---------------------------------------------------------------------------
  // generate_relations_dict: the sorted result

  /** Some listing of a set, as `list(s)` gives. */
  ghost function Enumerate(s: set<string>): (xs: seq<string>)
    ensures multiset(xs) == multiset(s)
    decreases s
  {
    if s == {} then []
    else
      var x :| x in s;
      assert multiset(s) == multiset(s - {x}) + multiset{x};
      [x] + Enumerate(s - {x})
  }

  /** `sorted(list(s))`. */
  ghost function SortedSet(s: set<string>): (xs: seq<string>)
    ensures Sorted(xs) && multiset(xs) == multiset(s)
  {
    Sort(Enumerate(s))
  }

  /** A sorted listing is determined by its elements. */
  lemma {:induction false} SortedUnique(a: seq<string>, b: seq<string>)
    requires Sorted(a) && Sorted(b) && multiset(a) == multiset(b)
    ensures a == b
    decreases |a|
  {
    if a == [] {
      assert |multiset(b)| == 0;
    } else {
      assert b != [] by { assert a[0] in multiset(b); }
      SortedHeads(a, b);
      MultisetTail(a);
      MultisetTail(b);
      SortedUnique(a[1..], b[1..]);
      assert a == [a[0]] + a[1..] && b == [b[0]] + b[1..];
    }
  }

  /** Two sorted listings of the same elements start alike. */
  lemma SortedHeads(a: seq<string>, b: seq<string>)
    requires a != [] && b != []
    requires Sorted(a) && Sorted(b) && multiset(a) == multiset(b)
    ensures a[0] == b[0]
  {
    assert a[0] in multiset(b) && b[0] in multiset(a);
    var i :| 0 <= i < |b| && b[i] == a[0];
    var j :| 0 <= j < |a| && a[j] == b[0];
    if i > 0 && j > 0 {
      assert Le(b[0], b[i]) && Le(a[0], a[j]);
      LeAntisymmetric(a[0], b[0]);
    }
  }

  lemma MultisetTail(a: seq<string>)
    requires a != []
    ensures multiset(a[1..]) == multiset(a) - multiset{a[0]}
  {
    assert a == [a[0]] + a[1..];
  }

  /** A listing of a set has no repeats. */
  lemma NoRepeats(xs: seq<string>, s: set<string>)
    requires multiset(xs) == multiset(s)
    ensures forall i, j :: 0 <= i < j < |xs| ==> xs[i] != xs[j]
  {
    forall i, j | 0 <= i < j < |xs| ensures xs[i] != xs[j] {
      Twice(xs, i, j);
    }
  }

  lemma Twice(xs: seq<string>, i: nat, j: nat)
    requires i < j < |xs|
    ensures xs[i] == xs[j] ==> multiset(xs)[xs[i]] >= 2
  {
    assert xs == xs[..j] + [xs[j]] + xs[j + 1..];
    assert xs[i] == xs[..j][i];
  }

  /** The sorted list of a set, computed as the Python code does. */
  method SortedList(s: set<string>) returns (xs: seq<string>)
    ensures xs == SortedSet(s)
  {
    var listed := [];
    var rest := s;
    while rest != {}
      invariant rest <= s && multiset(listed) + multiset(rest) == multiset(s)
      decreases rest
    {
      var x :| x in rest;
      assert multiset(rest) == multiset(rest - {x}) + multiset{x};
      listed := listed + [x];
      rest := rest - {x};
    }
    xs := Sort(listed);
    SortedUnique(xs, SortedSet(s));
  }

  type Dict = seq<(string, seq<string>)>

  function DictKeys(d: Dict): (ks: seq<string>)
    ensures |ks| == |d| && forall i :: 0 <= i < |d| ==> ks[i] == d[i].0
  {
    seq(|d|, i requires 0 <= i < |d| => d[i].0)
  }

  /** `final_dict[key]` for the first (and, in a result, only) entry `key`. */
  function Lookup(d: Dict, k: string): (r: Option<seq<string>>)
    ensures r.None? <==> k !in DictKeys(d)
    ensures r.Some? ==> exists i :: 0 <= i < |d| && d[i] == (k, r.value)
  {
    if d == [] then None
    else if d[0].0 == k then Some(d[0].1)
    else
      assert DictKeys(d) == [d[0].0] + DictKeys(d[1..]);
      Lookup(d[1..], k)
  }

  /** The entries one of the two loops of `generate_relations_dict` adds, for
      the keys `ks` in order: the core loop keeps the keys that are present,
      the other loop the ones that are not core keys. */
  ghost function Entries(rel: Relations, ks: seq<string>, core: bool): Dict
    decreases |ks|
  {
    if ks == [] then []
    else
      var k := ks[|ks| - 1];
      Entries(rel, ks[..|ks| - 1], core) + (if k in rel && (core || k !in CoreKeys) then [(k, SortedSet(rel[k]))] else [])
  }

  ghost function FinalDict(rel: Relations): Dict
  {
    Entries(rel, CoreKeys, true) + Entries(rel, SortedSet(rel.Keys), false)
  }

  /** `generate_relations_dict(schema)`. */
  ghost function RelationsDict(schema: Value): Result<Dict, TraverseError>
  {
    var t :- Traverse(schema, Root, map[]);
    Ok(FinalDict(Overrides(t)))
  }

  /** The position of a core key in `core_keys`; 4 for the other keys. */
  function CoreRank(k: string): (r: nat)
    ensures r < |CoreKeys| <==> k in CoreKeys
    ensures r < |CoreKeys| ==> CoreKeys[r] == k
  {
    if k == "organization" then 0
    else if k == "service" then 1
    else if k == "location" then 2
    else if k == "service_at_location" then 3
    else 4
  }

  predicate CoreBefore(a: string, b: string) {
    CoreRank(a) < CoreRank(b)
  }

  predicate Below(a: string, b: string) {
    Le(a, b) && a != b
  }

  /** Every entry of `e` is a kept key of `ks` with its sorted parents. */
  ghost predicate EntriesFrom(rel: Relations, ks: seq<string>, core: bool, e: Dict) {
    forall i :: 0 <= i < |e| ==>
      e[i].0 in ks && e[i].0 in rel && e[i].1 == SortedSet(rel[e[i].0]) && (core || e[i].0 !in CoreKeys)
  }

  /** Every key of `ks` the loop keeps has an entry in `e`. */
  predicate CoversKeys(rel: Relations, ks: seq<string>, core: bool, e: Dict) {
    forall k :: k in ks && k in rel && (core || k !in CoreKeys) ==> k in DictKeys(e)
  }

  predicate OrderedBy(e: Dict, lt: (string, string) -> bool) {
    forall i, j :: 0 <= i < j < |e| ==> lt(e[i].0, e[j].0)
  }

  /** Which entries a loop adds: every key it keeps, with its sorted parents. */
  lemma EntriesShape(rel: Relations, ks: seq<string>, core: bool)
    ensures EntriesFrom(rel, ks, core, Entries(rel, ks, core))
    ensures CoversKeys(rel, ks, core, Entries(rel, ks, core))
  {
    EntriesSound(rel, ks, core);
    EntriesCover(rel, ks, core);
  }

  lemma {:induction false} EntriesSound(rel: Relations, ks: seq<string>, core: bool)
    ensures EntriesFrom(rel, ks, core, Entries(rel, ks, core))
    decreases |ks|
  {
    if ks != [] {
      var init := ks[..|ks| - 1];
      var k := ks[|ks| - 1];
      EntriesSound(rel, init, core);
      var e0 := Entries(rel, init, core);
      var e := Entries(rel, ks, core);
      assert ks == init + [k];
      assert e == e0 + (if k in rel && (core || k !in CoreKeys) then [(k, SortedSet(rel[k]))] else []);
      forall i | 0 <= i < |e0| ensures e[i] == e0[i] && e[i].0 in ks {
        var a :| 0 <= a < |init| && init[a] == e0[i].0;
        assert ks[a] == init[a];
      }
    }
  }

  lemma {:induction false} EntriesCover(rel: Relations, ks: seq<string>, core: bool)
    ensures CoversKeys(rel, ks, core, Entries(rel, ks, core))
    decreases |ks|
  {
    if ks != [] {
      var init := ks[..|ks| - 1];
      var k := ks[|ks| - 1];
      EntriesCover(rel, init, core);
      var e0 := Entries(rel, init, core);
      var e := Entries(rel, ks, core);
      assert ks == init + [k];
      assert e == e0 + (if k in rel && (core || k !in CoreKeys) then [(k, SortedSet(rel[k]))] else []);
      forall k' | k' in ks && k' in rel && (core || k' !in CoreKeys) ensures k' in DictKeys(e) {
        if k' in init {
          var i :| 0 <= i < |e0| && e0[i].0 == k';
          assert e[i].0 == k';
        } else {
          assert e[|e| - 1].0 == k';
        }
      }
    }
  }

  /** The entries come in the order of `ks`, for any strict order `ks` follows. */
  lemma {:induction false} EntriesOrdered(rel: Relations, ks: seq<string>, core: bool, lt: (string, string) -> bool)
    requires forall i, j :: 0 <= i < j < |ks| ==> lt(ks[i], ks[j])
    ensures OrderedBy(Entries(rel, ks, core), lt)
    decreases |ks|
  {
    if ks != [] {
      var init := ks[..|ks| - 1];
      var k := ks[|ks| - 1];
      EntriesOrdered(rel, init, core, lt);
      EntriesShape(rel, init, core);
      var e := Entries(rel, ks, core);
      var e0 := Entries(rel, init, core);
      assert e == e0 + (if k in rel && (core || k !in CoreKeys) then [(k, SortedSet(rel[k]))] else []);
      forall i, j | 0 <= i < j < |e| ensures lt(e[i].0, e[j].0) {
        if j < |e0| {
          assert e[i] == e0[i] && e[j] == e0[j];
        } else {
          assert e[j].0 == k && e[i] == e0[i];
          var a :| 0 <= a < |init| && init[a] == e0[i].0;
          assert ks[a] == init[a];
        }
      }
    }
  }

  /** `d` lists the table `rel`: every key once, each with its parents sorted. */
  ghost predicate ListsTable(d: Dict, rel: Relations) {
    && (forall i :: 0 <= i < |d| ==> d[i].0 in rel && Sorted(d[i].1) && multiset(d[i].1) == multiset(rel[d[i].0]))
    && (forall k :: k in rel ==> k in DictKeys(d))
    && (forall i, j :: 0 <= i < j < |d| ==> d[i].0 != d[j].0)
  }

  /** The core keys come first, in the order of `core_keys`; the other keys
      follow in sorted order. */
  predicate CoreFirst(d: Dict) {
    && (forall i, j :: 0 <= i < j < |d| && d[j].0 in CoreKeys ==> d[i].0 in CoreKeys && CoreBefore(d[i].0, d[j].0))
    && (forall i, j :: 0 <= i < j < |d| && d[i].0 !in CoreKeys ==> d[j].0 !in CoreKeys && Below(d[i].0, d[j].0))
  }

  /** The result of `generate_relations_dict` for the table `rel`. */
  lemma FinalDictShape(rel: Relations)
    ensures ListsTable(FinalDict(rel), rel)
    ensures CoreFirst(FinalDict(rel))
  {
    var sortedKeys := SortedSet(rel.Keys);
    var c := Entries(rel, CoreKeys, true);
    var o := Entries(rel, sortedKeys, false);
    EntriesShape(rel, CoreKeys, true);
    EntriesShape(rel, sortedKeys, false);
    assert forall i, j :: 0 <= i < j < |CoreKeys| ==> CoreBefore(CoreKeys[i], CoreKeys[j]);
    EntriesOrdered(rel, CoreKeys, true, CoreBefore);
    NoRepeats(sortedKeys, rel.Keys);
    EntriesOrdered(rel, sortedKeys, false, Below);
    forall k | k in rel ensures k in sortedKeys {
      assert k in multiset(sortedKeys);
    }
    CombineLists(rel, c, o, sortedKeys);
    CombineOrder(rel, c, o, sortedKeys);
  }

  lemma CombineLists(rel: Relations, c: Dict, o: Dict, sortedKeys: seq<string>)
    requires EntriesFrom(rel, CoreKeys, true, c) && EntriesFrom(rel, sortedKeys, false, o)
    requires CoversKeys(rel, CoreKeys, true, c) && CoversKeys(rel, sortedKeys, false, o)
    requires OrderedBy(c, CoreBefore) && OrderedBy(o, Below)
    requires forall k :: k in rel ==> k in sortedKeys
    ensures ListsTable(c + o, rel)
  {
    CombineEntries(rel, c, o, sortedKeys);
    CombineCovers(rel, c, o, sortedKeys);
    CombineDistinct(rel, c, o, sortedKeys);
  }

  lemma CombineEntries(rel: Relations, c: Dict, o: Dict, sortedKeys: seq<string>)
    requires EntriesFrom(rel, CoreKeys, true, c) && EntriesFrom(rel, sortedKeys, false, o)
    ensures forall i :: 0 <= i < |c + o| ==>
      (c + o)[i].0 in rel && Sorted((c + o)[i].1) && multiset((c + o)[i].1) == multiset(rel[(c + o)[i].0])
  {
    var d := c + o;
    forall i | 0 <= i < |d| ensures d[i].0 in rel && Sorted(d[i].1) && multiset(d[i].1) == multiset(rel[d[i].0]) {
      if i < |c| {
        assert d[i] == c[i];
      } else {
        assert d[i] == o[i - |c|];
      }
    }
  }

  lemma CombineCovers(rel: Relations, c: Dict, o: Dict, sortedKeys: seq<string>)
    requires CoversKeys(rel, CoreKeys, true, c) && CoversKeys(rel, sortedKeys, false, o)
    requires forall k :: k in rel ==> k in sortedKeys
    ensures forall k :: k in rel ==> k in DictKeys(c + o)
  {
    var d := c + o;
    forall k | k in rel ensures k in DictKeys(d) {
      if k in CoreKeys {
        assert k in DictKeys(c);
        var i :| 0 <= i < |c| && c[i].0 == k;
        assert d[i].0 == k;
      } else {
        assert k in DictKeys(o);
        var i :| 0 <= i < |o| && o[i].0 == k;
        assert d[|c| + i].0 == k;
      }
    }
  }

  lemma CombineDistinct(rel: Relations, c: Dict, o: Dict, sortedKeys: seq<string>)
    requires EntriesFrom(rel, CoreKeys, true, c) && EntriesFrom(rel, sortedKeys, false, o)
    requires OrderedBy(c, CoreBefore) && OrderedBy(o, Below)
    ensures forall i, j :: 0 <= i < j < |c + o| ==> (c + o)[i].0 != (c + o)[j].0
  {
    var d := c + o;
    forall i, j | 0 <= i < j < |d| ensures d[i].0 != d[j].0 {
      if j < |c| {
        assert d[i] == c[i] && d[j] == c[j];
        assert CoreBefore(c[i].0, c[j].0);
      } else if i >= |c| {
        assert d[i] == o[i - |c|] && d[j] == o[j - |c|];
        assert Below(o[i - |c|].0, o[j - |c|].0);
      } else {
        assert d[i] == c[i] && d[j] == o[j - |c|];
      }
    }
  }

  lemma CombineOrder(rel: Relations, c: Dict, o: Dict, sortedKeys: seq<string>)
    requires EntriesFrom(rel, CoreKeys, true, c) && EntriesFrom(rel, sortedKeys, false, o)
    requires OrderedBy(c, CoreBefore) && OrderedBy(o, Below)
    ensures CoreFirst(c + o)
  {
    var d := c + o;
    assert forall i :: 0 <= i < |c| ==> d[i] == c[i] && d[i].0 in CoreKeys;
    assert forall i :: 0 <= i < |o| ==> d[|c| + i] == o[i] && o[i].0 !in CoreKeys;
    forall i, j | 0 <= i < j < |d| && d[j].0 in CoreKeys ensures d[i].0 in CoreKeys && CoreBefore(d[i].0, d[j].0) {
      assert j < |c|;
      assert CoreBefore(c[i].0, c[j].0);
    }
    forall i, j | 0 <= i < j < |d| && d[i].0 !in CoreKeys ensures d[j].0 !in CoreKeys && Below(d[i].0, d[j].0) {
      assert i >= |c|;
      assert d[i] == o[i - |c|] && d[j] == o[j - |c|];
      assert Below(o[i - |c|].0, o[j - |c|].0);
    }
  }

  /** What `generate_relations_dict` promises: `organization` and
      `taxonomy_term` are always present, `service` has no parents, no
      entity lists itself, `taxonomy_term` lists `attribute` and `attribute`
      does not list `taxonomy_term`. */
  lemma RelationsDictFacts(schema: Value)
    requires RelationsDict(schema).Ok?
    ensures var d := RelationsDict(schema).value;
      && Lookup(d, "service") == Some([])
      && "organization" in DictKeys(d)
      && (forall i :: 0 <= i < |d| ==> d[i].0 !in d[i].1)
      && Lookup(d, "taxonomy_term").Some? && "attribute" in Lookup(d, "taxonomy_term").value
      && Lookup(d, "attribute").Some? && "taxonomy_term" !in Lookup(d, "attribute").value
  {
    var t := Traverse(schema, Root, map[]).value;
    var r := Overrides(t);
    var d := FinalDict(r);
    OverridesShape(t);
    FinalDictShape(r);
    forall i | 0 <= i < |d| ensures d[i].0 !in d[i].1 {
      InListing(d[i].1, r[d[i].0], d[i].0);
    }
    LookupIn(d, "service", r);
    LookupIn(d, "taxonomy_term", r);
    LookupIn(d, "attribute", r);
    InListing(Lookup(d, "taxonomy_term").value, r["taxonomy_term"], "attribute");
    InListing(Lookup(d, "attribute").value, r["attribute"], "taxonomy_term");
    assert |multiset(Lookup(d, "service").value)| == 0;
  }

  lemma InListing(xs: seq<string>, s: set<string>, x: string)
    requires multiset(xs) == multiset(s)
    ensures x in xs <==> x in s
  {
    assert x in xs <==> x in multiset(xs);
  }

  lemma LookupIn(d: Dict, k: string, rel: Relations)
    requires k in rel
    requires forall i :: 0 <= i < |d| ==> d[i].0 in rel && multiset(d[i].1) == multiset(rel[d[i].0])
    requires forall k :: k in rel ==> k in DictKeys(d)
    ensures Lookup(d, k).Some? && multiset(Lookup(d, k).value) == multiset(rel[k])
  {
  }

  /** `generate_relations_dict(schema)`: the traversal from `organization`, the
      overrides, then the two loops that build `final_dict`. */
  method GenerateRelationsDict(schema: Value) returns (r: Result<Dict, TraverseError>)
    ensures r == RelationsDict(schema)
  {
    var traversed := TraverseSchema(schema, Root, map[]);
    if traversed.Err? {
      return Err(traversed.error);
    }
    var relations := ApplyOverrides(traversed.value);
    var finalDict := BuildFinalDict(relations);
    return Ok(finalDict);
  }

  /** The manual overrides of `generate_relations_dict`. */
  method ApplyOverrides(traversed: Relations) returns (relations: Relations)
    ensures relations == Overrides(traversed)
  {
    relations := traversed;
    if Root !in relations {
      relations := relations[Root := {}];
    }
    var allEntities := relations.Keys;
    relations := relations["attribute" := ParentsOf(relations, "attribute") + (allEntities - AttributeExcluded)];
    relations := relations["metadata" := ParentsOf(relations, "metadata") + (allEntities - MetadataExcluded)];
    ghost var rel3 := relations;
    if "attribute" in ParentsOf(relations, "taxonomy_term") {
      relations := relations["taxonomy_term" := relations["taxonomy_term"] - {"attribute"}];
    } else {
      assert ParentsOf(relations, "taxonomy_term") - {"attribute"} == ParentsOf(relations, "taxonomy_term");
    }
    relations := relations["taxonomy_term" := ParentsOf(relations, "taxonomy_term") + {"attribute"}];
    assert relations == rel3["taxonomy_term" := (ParentsOf(rel3, "taxonomy_term") - {"attribute"}) + {"attribute"}];
    ghost var rel4 := relations;
    if "taxonomy_term" in relations["attribute"] {
      relations := relations["attribute" := relations["attribute"] - {"taxonomy_term"}];
    } else {
      assert relations["attribute"] - {"taxonomy_term"} == relations["attribute"];
    }
    assert relations == rel4["attribute" := rel4["attribute"] - {"taxonomy_term"}];
    relations := RemoveSelfLoops(relations);
    relations := relations["service" := {}];
    assert relations == Overrides(traversed);
  }

  /** The two loops that build `final_dict`: the core keys in order, then the
      sorted keys that are not core keys. */
  method BuildFinalDict(relations: Relations) returns (finalDict: Dict)
    ensures finalDict == FinalDict(relations)
  {
    finalDict := AddEntries(relations, CoreKeys, true, []);
    var keys := SortedList(relations.Keys);
    finalDict := AddEntries(relations, keys, false, finalDict);
  }

  /** One of those loops: `for key in ks`, adding `key` with its sorted parents
      when it is present (the core loop) or not a core key (the other loop,
      whose keys are all present). */
  method AddEntries(relations: Relations, ks: seq<string>, core: bool, start: Dict) returns (finalDict: Dict)
    ensures finalDict == start + Entries(relations, ks, core)
  {
    finalDict := start;
    var i := 0;
    while i < |ks|
      invariant 0 <= i <= |ks|
      invariant finalDict == start + Entries(relations, ks[..i], core)
    {
      var key := ks[i];
      ghost var prev := Entries(relations, ks[..i], core);
      EntriesStep(relations, ks, i, core);
      if key in relations && (core || key !in CoreKeys) {
        var parents := SortedList(relations[key]);
        AppendAssoc(start, prev, [(key, parents)]);
        finalDict := finalDict + [(key, parents)];
      } else {
        AppendEmpty(prev);
      }
      i := i + 1;
    }
    assert ks[..i] == ks;
  }

  /** One more key extends the entries by that key's entry, if it is kept. */
  lemma EntriesStep(rel: Relations, ks: seq<string>, i: nat, core: bool)
    requires i < |ks|
    ensures Entries(rel, ks[..i + 1], core) == Entries(rel, ks[..i], core) +
      (if ks[i] in rel && (core || ks[i] !in CoreKeys) then [(ks[i], SortedSet(rel[ks[i]]))] else [])
  {
    assert ks[..i + 1][..i] == ks[..i];
  }

  // ---------------------------------------------------------------------------
  // write_relations_file: the dictionary literal

  /** Items joined by `sep`, with `last` after the final one: `""` for none. */
  function Terminated(sep: string, last: string, xs: seq<string>): string
  {
    Join(sep, xs) + (if xs == [] then "" else last)
  }

  function ParentLine(parent: string): string
  {
    "        \"" + parent + "\""
  }

  function ParentLines(parents: seq<string>): (r: seq<string>)
    ensures |r| == |parents| && forall j :: 0 <= j < |parents| ==> r[j] == ParentLine(parents[j])
  {
    seq(|parents|, j requires 0 <= j < |parents| => ParentLine(parents[j]))
  }

  function KeyLine(key: string): string
  {
    "    \"" + key + "\": [\n"
  }

  /** One entry: the key line, the quoted parents one per line separated by
      commas, and the closing bracket. */
  function EntryText(key: string, parents: seq<string>): string
  {
    KeyLine(key) + Terminated(",\n", "\n", ParentLines(parents)) + "    ]"
  }

  function EntryTexts(d: Dict): (r: seq<string>)
    ensures |r| == |d| && forall i :: 0 <= i < |d| ==> r[i] == EntryText(d[i].0, d[i].1)
  {
    seq(|d|, i requires 0 <= i < |d| => EntryText(d[i].0, d[i].1))
  }

  const Opening := "HSDS_RELATIONS = {\n"
  const Closing := "}\n"

  /** `dict_content`: the entries separated by a comma and a blank line. */
  function DictContent(d: Dict): string
  {
    Opening + Terminated(",\n\n", "\n", EntryTexts(d)) + Closing
  }

  /** What a loop with `if j < len(xs) - 1: sep else: last` after each item has
      written after `i` items. */
  function Pieces(sep: string, last: string, xs: seq<string>, i: nat): string
    requires i <= |xs|
  {
    if i == 0 then ""
    else Pieces(sep, last, xs, i - 1) + xs[i - 1] + (if i - 1 < |xs| - 1 then sep else last)
  }

  /** Writing one more item and its separator after `prefix` and the first
      `i` pieces gives `prefix` and `i + 1` pieces. */
  lemma PiecesStep(prefix: string, sep: string, last: string, xs: seq<string>, i: nat)
    requires i < |xs|
    ensures prefix + Pieces(sep, last, xs, i) + xs[i] + (if i < |xs| - 1 then sep else last)
         == prefix + Pieces(sep, last, xs, i + 1)
  {
    Assoc3(prefix, Pieces(sep, last, xs, i), xs[i], if i < |xs| - 1 then sep else last);
  }

  /** Such a loop writes the joined items, then `last` once the final item is
      written. */
  lemma {:induction false} PiecesJoin(sep: string, last: string, xs: seq<string>, i: nat)
    requires i <= |xs|
    ensures Pieces(sep, last, xs, i) == if i == 0 then "" else Join(sep, xs[..i]) + (if i < |xs| then sep else last)
  {
    if i > 0 {
      PiecesJoin(sep, last, xs, i - 1);
      assert xs[..i] == xs[..i - 1] + [xs[i - 1]];
      JoinSnoc(sep, xs[..i - 1], xs[i - 1]);
    }
  }

  lemma PiecesTerminated(sep: string, last: string, xs: seq<string>)
    ensures Pieces(sep, last, xs, |xs|) == Terminated(sep, last, xs)
  {
    PiecesJoin(sep, last, xs, |xs|);
    assert xs[..|xs|] == xs;
  }

  /** The literal starts with the assignment and ends with the closing brace;
      with no entries it is just those two lines. */
  lemma DictContentShape(d: Dict)
    ensures StartsWith(DictContent(d), Opening) && EndsWith(DictContent(d), Closing)
    ensures d == [] ==> DictContent(d) == Opening + Closing
  {
    var c := DictContent(d);
    var body := Terminated(",\n\n", "\n", EntryTexts(d));
    assert c == Opening + body + Closing;
    assert c[..|Opening|] == Opening;
    assert c[|c| - |Closing|..] == Closing;
  }

  lemma Assoc3(a: string, b: string, c: string, d: string)
    ensures a + b + c + d == a + (b + c + d)
  {
  }

  /** The `dict_content` loops of `write_relations_file(relations, out_path)`;
      the docstring and the file are left out. */
  method RelationsContent(relations: Dict) returns (content: string)
    ensures content == DictContent(relations)
  {
    ghost var entries := EntryTexts(relations);
    content := Opening;
    var i := 0;
    while i < |relations|
      invariant 0 <= i <= |relations|
      invariant content == Opening + Pieces(",\n\n", "\n", entries, i)
    {
      content := AppendEntry(content, relations[i].0, relations[i].1);
      var sep := if i < |relations| - 1 then ",\n\n" else "\n";
      content := content + sep;
      PiecesStep(Opening, ",\n\n", "\n", entries, i);
      i := i + 1;
    }
    PiecesTerminated(",\n\n", "\n", entries);
    content := content + Closing;
  }

  /** The body of the outer loop for one `(key, parents)`, up to the separator. */
  method AppendEntry(content: string, key: string, parents: seq<string>) returns (r: string)
    ensures r == content + EntryText(key, parents)
  {
    ghost var lines := ParentLines(parents);
    ghost var prefix := content + KeyLine(key);
    r := content + KeyLine(key);
    var j := 0;
    while j < |parents|
      invariant 0 <= j <= |parents|
      invariant r == prefix + Pieces(",\n", "\n", lines, j)
    {
      r := r + ParentLine(parents[j]);
      var sep := if j < |parents| - 1 then ",\n" else "\n";
      r := r + sep;
      PiecesStep(prefix, ",\n", "\n", lines, j);
      j := j + 1;
    }
    ghost var t := Terminated(",\n", "\n", lines);
    PiecesTerminated(",\n", "\n", lines);
    r := r + "    ]";
    Assoc3(content, KeyLine(key), t, "    ]");
  }
}
