/** `createTriples` (utils/createOwlClasses.js): the ontology header and one class per
    distinct usable business-object name. The N3 writer is replaced by the sequence of
    triples it would have been handed, in order. */
module OwlClasses {
  import opened JsValues
  import opened Seqs
  import opened JsText
  import opened Sanitize
  import opened Rdf

  const Prefix: string := "http://example.org/standardOntology#"
  const RdfType: string := "http://www.w3.org/1999/02/22-rdf-syntax-ns#type"
  const RdfsSubClassOf: string := "http://www.w3.org/2000/01/rdf-schema#subClassOf"
  const RdfsLabel: string := "http://www.w3.org/2000/01/rdf-schema#label"
  const OwlOntology: string := "http://www.w3.org/2002/07/owl#Ontology"
  const OwlClass: string := "http://www.w3.org/2002/07/owl#Class"

  /** `prefix.slice(0, -1)`: the prefix without its trailing '#'. */
  function OntologyIri(): (iri: string)
    ensures iri + "#" == Prefix
  {
    Prefix[..|Prefix| - 1]
  }

  /** The ontology declaration and the `BusinessObject` class. */
  function Header(): seq<Triple> {
    [ Triple(Named(OntologyIri()), Named(RdfType), Named(OwlOntology)),
      Triple(Named(Prefix + "BusinessObject"), Named(RdfType), Named(OwlClass)) ]
  }

  /** The three triples for one class name: class declaration, subclass of
      `BusinessObject`, and a label holding the name itself. */
  function ClassTriples(name: string): seq<Triple> {
    var c := Named(Prefix + name);
    [ Triple(c, Named(RdfType), Named(OwlClass)),
      Triple(c, Named(RdfsSubClassOf), Named(Prefix + "BusinessObject")),
      Triple(c, Named(RdfsLabel), Literal(name)) ]
  }

  /** `.filter(obj => obj && typeof obj === 'string' && obj.trim().length > 0).map(obj => obj.trim())`. */
  function NonBlankTrimmed(objs: seq<JsValue>): seq<string> {
    if |objs| == 0 then []
    else
      var v := objs[|objs| - 1];
      NonBlankTrimmed(objs[..|objs| - 1]) + (if v.Str? && |Trim(v.s)| > 0 then [Trim(v.s)] else [])
  }

  /** `.filter(obj => obj !== 'undefined' && obj !== 'null')`. */
  function WithoutNullWords(ts: seq<string>): seq<string> {
    if |ts| == 0 then []
    else
      var t := ts[|ts| - 1];
      WithoutNullWords(ts[..|ts| - 1]) + (if t != "undefined" && t != "null" then [t] else [])
  }

  /** `.map(obj => sanitizeClassName(obj))`. */
  function SanitizeEach(ts: seq<string>): seq<Option<string>> {
    if |ts| == 0 then []
    else SanitizeEach(ts[..|ts| - 1]) + [SanitizeClassName(Str(ts[|ts| - 1]))]
  }

  /** `validBusinessObjects`. */
  function ValidBusinessObjects(objs: seq<JsValue>): seq<Option<string>> {
    SanitizeEach(WithoutNullWords(NonBlankTrimmed(objs)))
  }

  /** `uniqueBusinessObjects.forEach(...)`: three triples for each entry that is a
      non-empty string (`object && object.length > 0`). */
  function DeclareEach(unique: seq<Option<string>>): seq<Triple> {
    if |unique| == 0 then []
    else
      var u := unique[|unique| - 1];
      DeclareEach(unique[..|unique| - 1]) + (if u.Some? && |u.value| > 0 then ClassTriples(u.value) else [])
  }

  /** `createTriples(businessObjects)` up to the hand-over to the writer. */
  function CreateTriples(objs: seq<JsValue>): (r: seq<Triple>)
    ensures |r| == 2 + 3 * |DeclaredNames(objs)|
    ensures r[..2] == Header()
    ensures forall i :: 0 <= i < |DeclaredNames(objs)| ==>
      r[2 + 3 * i .. 5 + 3 * i] == ClassTriples(DeclaredNames(objs)[i])
  {
    CreateTriplesLayout(objs);
    Header() + DeclareEach(Distinct(ValidBusinessObjects(objs)))
  }

  // ---------------------------------------------------------------------------
  // A reference reading of the filters, one array entry at a time.

  /** The class name one array entry contributes, if any: a string that is neither blank
      nor, once trimmed, "undefined" or "null", and whose identifier is not empty. */
  function Contribution(v: JsValue): Option<string> {
    match v
    case NonString => None
    case Str(s) =>
      var t := Trim(s);
      if t == "" || t == "undefined" || t == "null" then None
      else if WordCase(s, true) == "" then None
      else Some(WordCase(s, true))
  }

  /** The contributed names, entry by entry, repeats included. */
  function ContributedNames(objs: seq<JsValue>): seq<string> {
    if |objs| == 0 then []
    else
      var c := Contribution(objs[|objs| - 1]);
      ContributedNames(objs[..|objs| - 1]) + (if c.Some? then [c.value] else [])
  }

  /** The names that get a class, in the order they are declared. */
  function DeclaredNames(objs: seq<JsValue>): seq<string> {
    Distinct(ContributedNames(objs))
  }

  /** The class triples of each name in turn. */
  function Blocks(names: seq<string>): seq<Triple> {
    if |names| == 0 then []
    else Blocks(names[..|names| - 1]) + ClassTriples(names[|names| - 1])
  }

  /** The usable names among sanitised entries: the non-empty strings. */
  function Usable(u: seq<Option<string>>): seq<string> {
    if |u| == 0 then []
    else
      var x := u[|u| - 1];
      Usable(u[..|u| - 1]) + (if x.Some? && |x.value| > 0 then [x.value] else [])
  }

  // ---------------------------------------------------------------------------
  // Proof that the pipeline declares exactly `DeclaredNames`.

  lemma {:induction false} BlocksShape(names: seq<string>)
    ensures |Blocks(names)| == 3 * |names|
    ensures forall i :: 0 <= i < |names| ==> Blocks(names)[3 * i .. 3 * i + 3] == ClassTriples(names[i])
  {
    if |names| > 0 {
      var p := names[..|names| - 1];
      BlocksShape(p);
      forall i | 0 <= i < |names|
        ensures Blocks(names)[3 * i .. 3 * i + 3] == ClassTriples(names[i])
      {
        if i < |p| {
          assert Blocks(names)[3 * i .. 3 * i + 3] == Blocks(p)[3 * i .. 3 * i + 3];
        }
      }
    }
  }

  lemma {:induction false} DeclareEachIsBlocks(u: seq<Option<string>>)
    ensures DeclareEach(u) == Blocks(Usable(u))
  {
    if |u| > 0 {
      var p, x := u[..|u| - 1], u[|u| - 1];
      DeclareEachIsBlocks(p);
      if x.Some? && |x.value| > 0 {
        var us := Usable(u);
        assert us == Usable(p) + [x.value];
        assert us[..|us| - 1] == Usable(p) && us[|us| - 1] == x.value;
        assert Blocks(us) == Blocks(Usable(p)) + ClassTriples(x.value);
      } else {
        assert DeclareEach(u) == DeclareEach(p);
        assert Usable(u) == Usable(p);
      }
    }
  }

  lemma {:induction false} UsableConcat(a: seq<Option<string>>, b: seq<Option<string>>)
    ensures Usable(a + b) == Usable(a) + Usable(b)
  {
    if |b| == 0 {
      assert a + b == a;
    } else {
      assert (a + b)[..|a + b| - 1] == a + b[..|b| - 1];
      UsableConcat(a, b[..|b| - 1]);
    }
  }

  lemma {:induction false} UsableMembership(u: seq<Option<string>>, n: string)
    ensures n in Usable(u) <==> |n| > 0 && Some(n) in u
  {
    if |u| > 0 {
      var p := u[..|u| - 1];
      UsableMembership(p, n);
      assert u == p + [u[|u| - 1]];
    }
  }

  /** Keeping the usable names commutes with removing repeats. */
  lemma {:induction false} UsableDistinct(u: seq<Option<string>>)
    ensures Usable(Distinct(u)) == Distinct(Usable(u))
  {
    if |u| > 0 {
      var p, x := u[..|u| - 1], u[|u| - 1];
      UsableDistinct(p);
      DistinctFirstSeen(p);
      DistinctFirstSeen(Usable(p));
      var d := Distinct(p);
      if x.Some? && |x.value| > 0 {
        UsableMembership(p, x.value);
        assert Usable(u) == Usable(p) + [x.value];
        assert Usable(u)[..|Usable(u)| - 1] == Usable(p);
        if x !in d {
          UsableConcat(d, [x]);
        }
      } else {
        assert Usable(u) == Usable(p);
        if x !in d {
          UsableConcat(d, [x]);
        }
      }
    }
  }

  lemma {:induction false} WithoutNullWordsConcat(a: seq<string>, b: seq<string>)
    ensures WithoutNullWords(a + b) == WithoutNullWords(a) + WithoutNullWords(b)
  {
    if |b| == 0 {
      assert a + b == a;
    } else {
      assert (a + b)[..|a + b| - 1] == a + b[..|b| - 1];
      WithoutNullWordsConcat(a, b[..|b| - 1]);
    }
  }

  lemma {:induction false} SanitizeEachConcat(a: seq<string>, b: seq<string>)
    ensures SanitizeEach(a + b) == SanitizeEach(a) + SanitizeEach(b)
  {
    if |b| == 0 {
      assert a + b == a;
    } else {
      assert (a + b)[..|a + b| - 1] == a + b[..|b| - 1];
      SanitizeEachConcat(a, b[..|b| - 1]);
    }
  }

  /** One entry at a time, the pipeline's usable names are the contributed names. */
  lemma {:induction false} UsableValidIsContributed(objs: seq<JsValue>)
    ensures Usable(ValidBusinessObjects(objs)) == ContributedNames(objs)
  {
    if |objs| > 0 {
      var p, v := objs[..|objs| - 1], objs[|objs| - 1];
      UsableValidIsContributed(p);
      UsableValidSnoc(p, v);
      SplitLast(objs);
    }
  }

  /** The step of `UsableValidIsContributed`: one more entry adds its contribution. */
  lemma UsableValidSnoc(p: seq<JsValue>, v: JsValue)
    requires Usable(ValidBusinessObjects(p)) == ContributedNames(p)
    ensures Usable(ValidBusinessObjects(p + [v])) == ContributedNames(p + [v])
  {
    ValidSnoc(p, v);
    UsableConcat(ValidBusinessObjects(p), ValidBusinessObjects([v]));
    OneEntryUsable(v);
    ContributedSnoc(p, v);
  }

  /** The filter-and-map pipeline works entry by entry. */
  lemma ValidSnoc(p: seq<JsValue>, v: JsValue)
    ensures ValidBusinessObjects(p + [v]) == ValidBusinessObjects(p) + ValidBusinessObjects([v])
  {
    NonBlankTrimmedSnoc(p, v);
    WithoutNullWordsConcat(NonBlankTrimmed(p), NonBlankTrimmed([v]));
    SanitizeEachConcat(WithoutNullWords(NonBlankTrimmed(p)), WithoutNullWords(NonBlankTrimmed([v])));
  }

  lemma NonBlankTrimmedSnoc(p: seq<JsValue>, v: JsValue)
    ensures NonBlankTrimmed(p + [v]) == NonBlankTrimmed(p) + NonBlankTrimmed([v])
  {
    assert (p + [v])[..|p|] == p;
    assert [v][..0] == [];
  }

  /** A single entry's usable name is its contribution. */
  lemma OneEntryUsable(v: JsValue)
    ensures Usable(ValidBusinessObjects([v])) == if Contribution(v).Some? then [Contribution(v).value] else []
  {
    NonBlankTrimmedOne(v);
    if v.Str? && |Trim(v.s)| > 0 {
      TrimmedEntryUsable(v.s);
    }
  }

  lemma NonBlankTrimmedOne(v: JsValue)
    ensures NonBlankTrimmed([v]) == if v.Str? && |Trim(v.s)| > 0 then [Trim(v.s)] else []
  {
    assert [v][..0] == [];
  }

  /** A string entry that is not blank: its usable name is its contribution. */
  lemma TrimmedEntryUsable(s: string)
    requires Trim(s) != ""
    ensures Usable(SanitizeEach(WithoutNullWords([Trim(s)]))) ==
      if Contribution(Str(s)).Some? then [Contribution(Str(s)).value] else []
  {
    SanitizeIgnoresSurroundingSpace(s);
    OneWordUsable(Trim(s));
  }

  /** A single trimmed word's usable name: none for the null words, its sanitised form
      otherwise, when that is non-empty. */
  lemma OneWordUsable(t: string)
    requires t != ""
    ensures Usable(SanitizeEach(WithoutNullWords([t]))) ==
      if t == "undefined" || t == "null" || WordCase(t, true) == "" then [] else [WordCase(t, true)]
  {
    WithoutNullWordsOne(t);
    if t != "undefined" && t != "null" {
      SanitizeEachOne(t);
      UsableOne(SanitizeClassName(Str(t)));
    }
  }

  lemma WithoutNullWordsOne(t: string)
    ensures WithoutNullWords([t]) == if t == "undefined" || t == "null" then [] else [t]
  {
    assert [t][..0] == [];
  }

  lemma SanitizeEachOne(t: string)
    ensures SanitizeEach([t]) == [SanitizeClassName(Str(t))]
  {
    assert [t][..0] == [];
  }

  lemma UsableOne(x: Option<string>)
    ensures Usable([x]) == if x.Some? && |x.value| > 0 then [x.value] else []
  {
    assert [x][..0] == [];
  }

  /** The triples are the header followed by the class triples of each declared name. */
  lemma CreateTriplesByContributions(objs: seq<JsValue>)
    ensures Header() + DeclareEach(Distinct(ValidBusinessObjects(objs))) == Header() + Blocks(DeclaredNames(objs))
  {
    var v := ValidBusinessObjects(objs);
    DeclareEachIsBlocks(Distinct(v));
    UsableDistinct(v);
    UsableValidIsContributed(objs);
  }

  /** A two-triple header followed by one three-triple block per name. */
  lemma HeaderThenBlocks(h: seq<Triple>, names: seq<string>, r: seq<Triple>)
    requires |h| == 2 && r == h + Blocks(names)
    ensures |r| == 2 + 3 * |names|
    ensures r[..2] == h
    ensures forall i :: 0 <= i < |names| ==> r[2 + 3 * i .. 5 + 3 * i] == ClassTriples(names[i])
  {
    BlocksShape(names);
    PrefixThenChunks(h, Blocks(names), names);
  }

  lemma PrefixThenChunks(h: seq<Triple>, b: seq<Triple>, names: seq<string>)
    requires |h| == 2 && |b| == 3 * |names|
    requires forall i :: 0 <= i < |names| ==> b[3 * i .. 3 * i + 3] == ClassTriples(names[i])
    ensures (h + b)[..2] == h
    ensures forall i :: 0 <= i < |names| ==> (h + b)[2 + 3 * i .. 5 + 3 * i] == ClassTriples(names[i])
  {
    forall i | 0 <= i < |names|
      ensures (h + b)[2 + 3 * i .. 5 + 3 * i] == ClassTriples(names[i])
    {
      ShiftSlice(h, b, 3 * i, 3 * i + 3);
    }
  }

  lemma ShiftSlice<T>(h: seq<T>, b: seq<T>, i: nat, j: nat)
    requires i <= j <= |b|
    ensures (h + b)[|h| + i .. |h| + j] == b[i..j]
  {
  }

  lemma CreateTriplesLayout(objs: seq<JsValue>)
    ensures var r := Header() + DeclareEach(Distinct(ValidBusinessObjects(objs)));
      && |r| == 2 + 3 * |DeclaredNames(objs)|
      && r[..2] == Header()
      && forall i :: 0 <= i < |DeclaredNames(objs)| ==>
           r[2 + 3 * i .. 5 + 3 * i] == ClassTriples(DeclaredNames(objs)[i])
  {
    CreateTriplesByContributions(objs);
    HeaderThenBlocks(Header(), DeclaredNames(objs), Header() + DeclareEach(Distinct(ValidBusinessObjects(objs))));
  }

  // ---------------------------------------------------------------------------
  // What the triples contain.

  /** Each declared class name is contributed by some entry, each contributed name is
      declared, no name twice, in the order the entries first contribute them. */
  lemma DeclaredNamesFirstSeen(objs: seq<JsValue>)
    ensures FirstSeenOrder(DeclaredNames(objs), ContributedNames(objs))
    ensures forall n :: n in DeclaredNames(objs) <==> n in ContributedNames(objs)
  {
    DistinctFirstSeen(ContributedNames(objs));
  }

  lemma PrefixCancels(a: string, b: string)
    requires Prefix + a == Prefix + b
    ensures a == b
  {
    assert a == (Prefix + a)[|Prefix|..];
    assert b == (Prefix + b)[|Prefix|..];
  }

  /** No class IRI is declared twice after the header. */
  lemma ClassesDeclaredOnce(objs: seq<JsValue>, i: nat, j: nat)
    requires i < j < |DeclaredNames(objs)|
    ensures CreateTriples(objs)[2 + 3 * i].subj != CreateTriples(objs)[2 + 3 * j].subj
  {
    DistinctFirstSeen(ContributedNames(objs));
    DistinctBlocksDistinctSubjects(CreateTriples(objs), DeclaredNames(objs), i, j);
  }

  lemma DistinctBlocksDistinctSubjects(r: seq<Triple>, names: seq<string>, i: nat, j: nat)
    requires i < j < |names| && NoDup(names)
    requires |r| == 2 + 3 * |names|
    requires forall k :: 0 <= k < |names| ==> r[2 + 3 * k .. 5 + 3 * k] == ClassTriples(names[k])
    ensures r[2 + 3 * i].subj != r[2 + 3 * j].subj
  {
    BlockSubject(r, 2 + 3 * i, names[i]);
    BlockSubject(r, 2 + 3 * j, names[j]);
    if Prefix + names[i] == Prefix + names[j] {
      PrefixCancels(names[i], names[j]);
    }
  }

  lemma BlockSubject(r: seq<Triple>, k: nat, n: string)
    requires k + 3 <= |r| && r[k .. k + 3] == ClassTriples(n)
    ensures r[k].subj == Named(Prefix + n)
  {
    assert r[k] == r[k .. k + 3][0];
  }

  lemma CreateTriplesIsBlocks(objs: seq<JsValue>)
    ensures CreateTriples(objs) == Header() + Blocks(DeclaredNames(objs))
  {
    CreateTriplesByContributions(objs);
  }

  /** An empty array yields the header alone. */
  lemma NoObjectsGiveHeaderOnly()
    ensures CreateTriples([]) == Header()
  {
    CreateTriplesIsBlocks([]);
  }

  /** The names contributed by one more entry. */
  lemma ContributedSnoc(objs: seq<JsValue>, v: JsValue)
    ensures ContributedNames(objs + [v]) ==
      ContributedNames(objs) + (if Contribution(v).Some? then [Contribution(v).value] else [])
  {
    assert (objs + [v])[..|objs|] == objs;
  }

  lemma DistinctSnocSeen(c: seq<string>, n: string)
    requires n in c
    ensures Distinct(c + [n]) == Distinct(c)
  {
    DistinctFirstSeen(c);
    assert (c + [n])[..|c|] == c;
  }

  lemma DistinctSnocNew(c: seq<string>, n: string)
    requires n !in c
    ensures Distinct(c + [n]) == Distinct(c) + [n]
  {
    DistinctFirstSeen(c);
    assert (c + [n])[..|c|] == c;
  }

  lemma BlocksSnoc(d: seq<string>, n: string)
    ensures Blocks(d + [n]) == Blocks(d) + ClassTriples(n)
  {
    assert (d + [n])[..|d|] == d;
  }

  /** The triples depend on the array only through the contributed names. */
  lemma SameContributionsSameTriples(a: seq<JsValue>, b: seq<JsValue>)
    requires ContributedNames(a) == ContributedNames(b)
    ensures CreateTriples(a) == CreateTriples(b)
  {
    CreateTriplesIsBlocks(a);
    CreateTriplesIsBlocks(b);
  }

  lemma AppendedNameAppendsClass(a: seq<JsValue>, b: seq<JsValue>, n: string)
    requires ContributedNames(b) == ContributedNames(a) + [n]
    requires n !in ContributedNames(a)
    ensures CreateTriples(b) == CreateTriples(a) + ClassTriples(n)
  {
    CreateTriplesIsBlocks(a);
    CreateTriplesIsBlocks(b);
    EmitNewName(ContributedNames(a), n);
  }

  lemma EmitNewName(c: seq<string>, n: string)
    requires n !in c
    ensures Header() + Blocks(Distinct(c + [n])) == Header() + Blocks(Distinct(c)) + ClassTriples(n)
  {
    var h := Header();
    DistinctSnocNew(c, n);
    BlocksSnoc(Distinct(c), n);
    assert h + (Blocks(Distinct(c)) + ClassTriples(n)) == (h + Blocks(Distinct(c))) + ClassTriples(n);
  }

  /** An entry that contributes no name (not a string, blank, "undefined", "null", or
      punctuation only) leaves the triples as they were. */
  lemma ExcludedEntryAddsNothing(objs: seq<JsValue>, v: JsValue)
    requires Contribution(v).None?
    ensures CreateTriples(objs + [v]) == CreateTriples(objs)
  {
    ContributedSnoc(objs, v);
    SameContributionsSameTriples(objs + [v], objs);
  }

  /** An entry whose name an earlier entry already contributed adds nothing either:
      after sanitisation, repeats collapse into one class. */
  lemma RepeatedNameAddsNothing(objs: seq<JsValue>, v: JsValue)
    requires Contribution(v).Some? && Contribution(v).value in ContributedNames(objs)
    ensures CreateTriples(objs + [v]) == CreateTriples(objs)
  {
    ContributedSnoc(objs, v);
    DistinctSnocSeen(ContributedNames(objs), Contribution(v).value);
    CreateTriplesIsBlocks(objs);
    CreateTriplesIsBlocks(objs + [v]);
  }

  /** An entry with a name not seen before appends exactly that name's three triples. */
  lemma NewNameAppendsClass(objs: seq<JsValue>, v: JsValue)
    requires Contribution(v).Some? && Contribution(v).value !in ContributedNames(objs)
    ensures CreateTriples(objs + [v]) == CreateTriples(objs) + ClassTriples(Contribution(v).value)
  {
    ContributedSnoc(objs, v);
    AppendedNameAppendsClass(objs, objs + [v], Contribution(v).value);
  }
}
