/** `createRelationTriple` and `toSafeIRI` (utils/createRelationTriple.js): the six triples
    that declare a "contains<Object>" object property for one business process. The writer
    is replaced by the sequence of triples handed to it so far (`sink`). */
module RelationTriple {
  import opened JsValues
  import opened Seqs
  import opened JsText
  import opened Sanitize
  import opened Rdf
  import opened Collector
  import OwlClasses

  /** `toSafeIRI`: the same falsy guard and the same trim/replace/split/capitalise/join
      chain as `sanitizeClassName`. */
  function ToSafeIri(v: JsValue): (r: Option<string>)
    ensures r == SanitizeClassName(v)
  {
    if v.NonString? || v.s == "" then None
    else Some(PascalCase(v.s))
  }

  /** A template literal `${x}`: a `null` renders as the text "null". */
  function Template(o: Option<string>): string {
    match o
    case None => "null"
    case Some(s) => s
  }

  /** The predicates are handed to the factory as prefixed names and kept verbatim. */
  const RdfTypeName: string := "rdf:type"
  const OwlObjectPropertyName: string := "owl:ObjectProperty"
  const RdfsDomainName: string := "rdfs:domain"
  const RdfsRangeName: string := "rdfs:range"
  const RdfsLabelName: string := "rdfs:label"

  /** `${prefix}contains${toSafeIRI(value.connectedBusinessObject)}`. */
  function PropertyIri(value: Relation, prefix: string): string {
    prefix + ("contains" + Template(ToSafeIri(Str(value.connectedBusinessObject))))
  }

  /** The six triples `createRelationTriple` hands to the writer, in order. */
  function PropertyDeclaration(value: Relation, key: string, prefix: string): (t: seq<Triple>)
    ensures |t| == 6
  {
    var subjectIri := Template(ToSafeIri(Str(key)));
    var objectIri := Template(ToSafeIri(Str(value.connectedBusinessObject)));
    Declaration(Named(PropertyIri(value, prefix)), Named(prefix + subjectIri), Named(prefix + objectIri),
                key, value.connectedBusinessObject)
  }

  /** The six triples for a property, its domain and range classes, and the two names:
      the property is typed an `owl:ObjectProperty` and given its domain, range and label,
      and the domain and range classes are labelled with the names. */
  function Declaration(property: Term, domain: Term, range: Term, key: string, objectName: string): (t: seq<Triple>)
    ensures |t| == 6
    ensures t[0] == Triple(property, Named(RdfTypeName), Named(OwlObjectPropertyName))
    ensures t[1].subj == property && t[2].subj == property && t[3].subj == property
    ensures && t[1].pred == Named(RdfsDomainName) && t[2].pred == Named(RdfsRangeName)
            && t[3].pred == Named(RdfsLabelName) && t[4].pred == Named(RdfsLabelName)
            && t[5].pred == Named(RdfsLabelName)
    ensures t[1].obj == domain && t[4].subj == domain && t[2].obj == range && t[5].subj == range
    ensures t[3].obj == Literal("contains " + objectName)
    ensures t[4].obj == Literal(key) && t[5].obj == Literal(objectName)
  {
    [ Triple(property, Named(RdfTypeName), Named(OwlObjectPropertyName)),
      Triple(property, Named(RdfsDomainName), domain),
      Triple(property, Named(RdfsRangeName), range),
      Triple(property, Named(RdfsLabelName), Literal("contains " + objectName)),
      Triple(domain, Named(RdfsLabelName), Literal(key)),
      Triple(range, Named(RdfsLabelName), Literal(objectName)) ]
  }

  /** The text `toSafeIRI` puts into an IRI for a non-empty name is its identifier. */
  lemma IriOfName(name: string)
    ensures name != "" ==> Template(ToSafeIri(Str(name))) == WordCase(name, true)
  {
  }

  /** `createRelationTriple({ writer, value, key, prefix })`: the writer's triples so far,
      followed by the six new ones. */
  function CreateRelationTriple(sink: seq<Triple>, value: Relation, key: string, prefix: string): (r: seq<Triple>)
    ensures |r| == |sink| + 6 && r[..|sink|] == sink
    ensures r[|sink|] == Triple(Named(PropertyIri(value, prefix)), Named(RdfTypeName), Named(OwlObjectPropertyName))
    ensures && r[|sink| + 1].subj == r[|sink|].subj && r[|sink| + 2].subj == r[|sink|].subj
            && r[|sink| + 3].subj == r[|sink|].subj
    ensures && r[|sink| + 1].pred == Named(RdfsDomainName) && r[|sink| + 2].pred == Named(RdfsRangeName)
            && r[|sink| + 3].pred == Named(RdfsLabelName) && r[|sink| + 4].pred == Named(RdfsLabelName)
            && r[|sink| + 5].pred == Named(RdfsLabelName)
    ensures key != "" ==>
      && r[|sink| + 1].obj == Named(prefix + WordCase(key, true))
      && r[|sink| + 4].subj == Named(prefix + WordCase(key, true))
    ensures value.connectedBusinessObject != "" ==>
      && r[|sink| + 2].obj == Named(prefix + WordCase(value.connectedBusinessObject, true))
      && r[|sink| + 5].subj == Named(prefix + WordCase(value.connectedBusinessObject, true))
    ensures r[|sink| + 3].obj == Literal("contains " + value.connectedBusinessObject)
    ensures r[|sink| + 4].obj == Literal(key) && r[|sink| + 5].obj == Literal(value.connectedBusinessObject)
  {
    var t := PropertyDeclaration(value, key, prefix);
    IriOfName(key);
    IriOfName(value.connectedBusinessObject);
    AppendedAt(sink, t);
    sink + t
  }

  /** The element at position `i` of an appended sequence sits at `|s| + i`. */
  lemma AppendedAt(s: seq<Triple>, t: seq<Triple>)
    ensures (s + t)[..|s|] == s
    ensures forall i :: 0 <= i < |t| ==> (s + t)[|s| + i] == t[i]
  {
  }

  /** The property is named after the connected object's identifier. */
  lemma PropertyNamedAfterObject(sink: seq<Triple>, value: Relation, key: string, prefix: string)
    requires value.connectedBusinessObject != ""
    ensures var r, p := CreateRelationTriple(sink, value, key, prefix),
                        Named(prefix + "contains" + WordCase(value.connectedBusinessObject, true));
      r[|sink|].subj == p && r[|sink| + 1].subj == p && r[|sink| + 2].subj == p && r[|sink| + 3].subj == p
  {
    PropertyIriIsIdentifier(value, prefix);
  }

  lemma PropertyIriIsIdentifier(value: Relation, prefix: string)
    requires value.connectedBusinessObject != ""
    ensures PropertyIri(value, prefix) == prefix + "contains" + WordCase(value.connectedBusinessObject, true)
  {
    var c := WordCase(value.connectedBusinessObject, true);
    assert prefix + ("contains" + c) == prefix + "contains" + c;
  }

  /** The property, its range and its label depend on the connected object only: two
      processes linked to the same object declare the same property, each adding its own
      `rdfs:domain`. */
  lemma PropertyIgnoresProcess(sink: seq<Triple>, a: Relation, b: Relation, keyA: string, keyB: string, prefix: string)
    requires a.connectedBusinessObject == b.connectedBusinessObject
    ensures var ra, rb := CreateRelationTriple(sink, a, keyA, prefix), CreateRelationTriple(sink, b, keyB, prefix);
      && ra[|sink|] == rb[|sink|]
      && ra[|sink| + 2] == rb[|sink| + 2]
      && ra[|sink| + 3] == rb[|sink| + 3]
      && ra[|sink| + 5] == rb[|sink| + 5]
      && ra[|sink| + 1].subj == rb[|sink| + 1].subj
  {
  }

  /** A missing name still yields six triples: `toSafeIRI` returns `null`, which the
      template renders as "null". */
  lemma EmptyNamesRenderNull(sink: seq<Triple>, value: Relation, prefix: string)
    requires value.connectedBusinessObject == ""
    ensures var r := CreateRelationTriple(sink, value, "", prefix);
      && r[|sink|].subj == Named(prefix + "containsnull")
      && r[|sink| + 1].obj == Named(prefix + "null")
      && r[|sink| + 2].obj == Named(prefix + "null")
  {
  }

  /** Every predicate `createTriples` uses is a full IRI. */
  lemma {:induction false} BlocksPredicates(names: seq<string>)
    ensures forall t :: t in OwlClasses.Blocks(names) ==>
      t.pred in [Named(OwlClasses.RdfType), Named(OwlClasses.RdfsSubClassOf), Named(OwlClasses.RdfsLabel)]
  {
    if |names| > 0 {
      BlocksPredicates(names[..|names| - 1]);
    }
  }

  lemma CreateTriplesPredicates(objs: seq<JsValue>)
    ensures forall t :: t in OwlClasses.CreateTriples(objs) ==>
      t.pred in [Named(OwlClasses.RdfType), Named(OwlClasses.RdfsSubClassOf), Named(OwlClasses.RdfsLabel)]
  {
    OwlClasses.CreateTriplesIsBlocks(objs);
    BlocksPredicates(OwlClasses.DeclaredNames(objs));
  }

  /** None of the six triples coincides with a triple of `createTriples`, not even the
      labels: the prefixed predicate names are not the IRIs they abbreviate. */
  lemma RelationTriplesAreNew(objs: seq<JsValue>, sink: seq<Triple>, value: Relation, key: string, prefix: string)
    ensures var r := CreateRelationTriple(sink, value, key, prefix);
      forall k :: |sink| <= k < |r| ==> r[k] !in OwlClasses.CreateTriples(objs)
  {
    CreateTriplesPredicates(objs);
    RelationPredicates(sink, value, key, prefix);
    DisjointByPredicate(CreateRelationTriple(sink, value, key, prefix), |sink|, OwlClasses.CreateTriples(objs));
  }

  lemma RelationPredicates(sink: seq<Triple>, value: Relation, key: string, prefix: string)
    ensures var r := CreateRelationTriple(sink, value, key, prefix);
      forall k :: |sink| <= k < |r| ==>
        r[k].pred in [Named(RdfTypeName), Named(RdfsDomainName), Named(RdfsRangeName), Named(RdfsLabelName)]
  {
    var r := CreateRelationTriple(sink, value, key, prefix);
    forall k | |sink| <= k < |r|
      ensures r[k].pred in [Named(RdfTypeName), Named(RdfsDomainName), Named(RdfsRangeName), Named(RdfsLabelName)]
    {
      assert k - |sink| in {0, 1, 2, 3, 4, 5};
    }
  }

  lemma DisjointByPredicate(r: seq<Triple>, from: nat, c: seq<Triple>)
    requires from <= |r|
    requires forall k :: from <= k < |r| ==>
      r[k].pred in [Named(RdfTypeName), Named(RdfsDomainName), Named(RdfsRangeName), Named(RdfsLabelName)]
    requires forall t :: t in c ==>
      t.pred in [Named(OwlClasses.RdfType), Named(OwlClasses.RdfsSubClassOf), Named(OwlClasses.RdfsLabel)]
    ensures forall k :: from <= k < |r| ==> r[k] !in c
  {
    assert |RdfTypeName| == 8 && |RdfsDomainName| == 11 && |RdfsRangeName| == 10 && |RdfsLabelName| == 10;
    assert |OwlClasses.RdfType| == 47 && |OwlClasses.RdfsSubClassOf| == 47 && |OwlClasses.RdfsLabel| == 42;
  }

  /** A contributing entry's name is among the contributed names. */
  lemma {:induction false} ContributionListed(objs: seq<JsValue>, v: JsValue)
    requires v in objs && OwlClasses.Contribution(v).Some?
    ensures OwlClasses.Contribution(v).value in OwlClasses.ContributedNames(objs)
  {
    var p := objs[..|objs| - 1];
    OwlClasses.ContributedSnoc(p, objs[|objs| - 1]);
    SplitLast(objs);
    if v != objs[|objs| - 1] {
      ContributionListed(p, v);
    }
  }

  /** With the ontology's prefix, the range of the property is the class that
      `createTriples` declares for the connected object, when that object is one of
      the entries it was given and yields a class name. */
  lemma RangeIsDeclaredClass(objs: seq<JsValue>, sink: seq<Triple>, value: Relation, key: string)
    requires Str(value.connectedBusinessObject) in objs
    requires OwlClasses.Contribution(Str(value.connectedBusinessObject)).Some?
    ensures var n := OwlClasses.Contribution(Str(value.connectedBusinessObject)).value;
      && CreateRelationTriple(sink, value, key, OwlClasses.Prefix)[|sink| + 2].obj == Named(OwlClasses.Prefix + n)
      && Triple(Named(OwlClasses.Prefix + n), Named(OwlClasses.RdfType), Named(OwlClasses.OwlClass)) in OwlClasses.CreateTriples(objs)
  {
    var c := Str(value.connectedBusinessObject);
    ContributionListed(objs, c);
    RangeIsContribution(sink, value, key);
    ContributedIsDeclared(objs, OwlClasses.Contribution(c).value);
  }

  lemma RangeIsContribution(sink: seq<Triple>, value: Relation, key: string)
    requires OwlClasses.Contribution(Str(value.connectedBusinessObject)).Some?
    ensures CreateRelationTriple(sink, value, key, OwlClasses.Prefix)[|sink| + 2].obj
      == Named(OwlClasses.Prefix + OwlClasses.Contribution(Str(value.connectedBusinessObject)).value)
  {
  }

  /** Every contributed name gets its `owl:Class` declaration. */
  lemma ContributedIsDeclared(objs: seq<JsValue>, n: string)
    requires n in OwlClasses.ContributedNames(objs)
    ensures Triple(Named(OwlClasses.Prefix + n), Named(OwlClasses.RdfType), Named(OwlClasses.OwlClass)) in OwlClasses.CreateTriples(objs)
  {
    OwlClasses.DeclaredNamesFirstSeen(objs);
    DeclaredInLayout(OwlClasses.CreateTriples(objs), OwlClasses.DeclaredNames(objs), n);
  }

  lemma DeclaredInLayout(r: seq<Triple>, names: seq<string>, n: string)
    requires n in names && |r| == 2 + 3 * |names|
    requires forall k :: 0 <= k < |names| ==> r[2 + 3 * k .. 5 + 3 * k] == OwlClasses.ClassTriples(names[k])
    ensures Triple(Named(OwlClasses.Prefix + n), Named(OwlClasses.RdfType), Named(OwlClasses.OwlClass)) in r
  {
    var i := FirstIndex(names, n);
    assert r[2 + 3 * i] == r[2 + 3 * i .. 5 + 3 * i][0];
  }
}
