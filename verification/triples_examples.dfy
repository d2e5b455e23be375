/** Worked inputs for the two triple builders, derived through the general lemmas. */
module TriplesExamples {
  import opened JsValues
  import opened Seqs
  import opened JsText
  import opened Sanitize
  import opened Rdf
  import opened Collector
  import opened OwlClasses
  import opened RelationTriple
  import opened SanitizeExamples

  /** A string with no surrounding white space is its own trim. */
  lemma TrimUnpadded(s: string)
    requires |s| > 0 && !IsSpace(s[0]) && !IsSpace(s[|s| - 1])
    ensures Trim(s) == s
  {
  }

  lemma QualityControlContributes()
    ensures Contribution(Str("Quality Control")) == Some("QualityControl")
  {
    TrimUnpadded("Quality Control");
    QualityControlWords();
  }

  lemma CostAnalysisContributes()
    ensures Contribution(Str("Cost Analysis")) == Some("CostAnalysis")
  {
    TrimUnpadded("Cost Analysis");
    CostAnalysisWords();
  }

  lemma NullWordContributesNothing()
    ensures Contribution(Str("null")) == None
  {
    TrimUnpadded("null");
  }

  lemma BlankContributesNothing()
    ensures Contribution(Str(" \t")) == None
  {
  }

  /** Blank, "null" and non-string entries are dropped and the repeated name collapses:
      two classes after the header, in first-seen order. */
  lemma SampleObjects()
    ensures CreateTriples([Str("Quality Control"), Str("null"), NonString, Str(" \t"), Str("Cost Analysis"), Str("Quality Control")])
      == Header() + ClassTriples("QualityControl") + ClassTriples("CostAnalysis")
  {
    QualityControlContributes();
    CostAnalysisContributes();
    NullWordContributesNothing();
    BlankContributesNothing();
    SixEntries(Str("Quality Control"), Str("null"), NonString, Str(" \t"), Str("Cost Analysis"), "QualityControl", "CostAnalysis");
  }

  /** The shape of the sample: a name, three entries without one, a second name, the
      first again. */
  lemma SixEntries(a: JsValue, b: JsValue, c: JsValue, d: JsValue, e: JsValue, n: string, m: string)
    requires Contribution(a) == Some(n) && Contribution(e) == Some(m) && n != m
    requires Contribution(b).None? && Contribution(c).None? && Contribution(d).None?
    ensures CreateTriples([a, b, c, d, e, a]) == Header() + ClassTriples(n) + ClassTriples(m)
  {
    SixNames(a, b, c, d, e, n, m);
    TriplesFromNames([a, b, c, d, e, a], [n, m, n]);
    TwoDistinct(n, m);
  }

  /** The triples depend on the entries only through their contributed names. */
  lemma TriplesFromNames(objs: seq<JsValue>, names: seq<string>)
    requires ContributedNames(objs) == names
    ensures CreateTriples(objs) == Header() + Blocks(Distinct(names))
  {
    CreateTriplesIsBlocks(objs);
  }

  lemma TwoDistinct(n: string, m: string)
    requires n != m
    ensures Blocks(Distinct([n, m, n])) == ClassTriples(n) + ClassTriples(m)
  {
    assert [n][..0] == [];
    assert Distinct([n]) == [n];
    assert [n, m][..1] == [n];
    assert Distinct([n, m]) == [n, m];
    assert [n, m, n][..2] == [n, m];
    assert Distinct([n, m, n]) == [n, m];
    assert Blocks([n]) == ClassTriples(n);
    assert Blocks([n, m]) == Blocks([n]) + ClassTriples(m);
  }

  lemma SixNames(a: JsValue, b: JsValue, c: JsValue, d: JsValue, e: JsValue, n: string, m: string)
    requires Contribution(a) == Some(n) && Contribution(e) == Some(m)
    requires Contribution(b).None? && Contribution(c).None? && Contribution(d).None?
    ensures ContributedNames([a, b, c, d, e, a]) == [n, m, n]
  {
    FiveNames(a, b, c, d, e, n, m);
    NameStep([a, b, c, d, e], [n, m], a, n);
    assert [a, b, c, d, e] + [a] == [a, b, c, d, e, a];
  }

  lemma FiveNames(a: JsValue, b: JsValue, c: JsValue, d: JsValue, e: JsValue, n: string, m: string)
    requires Contribution(a) == Some(n) && Contribution(e) == Some(m)
    requires Contribution(b).None? && Contribution(c).None? && Contribution(d).None?
    ensures ContributedNames([a, b, c, d, e]) == [n, m]
  {
    FourNames(a, b, c, d, n);
    NameStep([a, b, c, d], [n], e, m);
    assert [a, b, c, d] + [e] == [a, b, c, d, e];
  }

  lemma FourNames(a: JsValue, b: JsValue, c: JsValue, d: JsValue, n: string)
    requires Contribution(a) == Some(n)
    requires Contribution(b).None? && Contribution(c).None? && Contribution(d).None?
    ensures ContributedNames([a, b, c, d]) == [n]
  {
    ThreeNames(a, b, c, n);
    SkipStep([a, b, c], [n], d);
    assert [a, b, c] + [d] == [a, b, c, d];
  }

  lemma ThreeNames(a: JsValue, b: JsValue, c: JsValue, n: string)
    requires Contribution(a) == Some(n)
    requires Contribution(b).None? && Contribution(c).None?
    ensures ContributedNames([a, b, c]) == [n]
  {
    FirstName(a, n);
    SkipStep([a], [n], b);
    assert [a] + [b] == [a, b];
    SkipStep([a, b], [n], c);
    assert [a, b] + [c] == [a, b, c];
  }

  lemma FirstName(a: JsValue, n: string)
    requires Contribution(a) == Some(n)
    ensures ContributedNames([a]) == [n]
  {
    ContributedSnoc([], a);
    assert [] + [a] == [a];
  }

  lemma SkipStep(objs: seq<JsValue>, names: seq<string>, v: JsValue)
    requires ContributedNames(objs) == names && Contribution(v).None?
    ensures ContributedNames(objs + [v]) == names
  {
    ContributedSnoc(objs, v);
  }

  lemma NameStep(objs: seq<JsValue>, names: seq<string>, v: JsValue, n: string)
    requires ContributedNames(objs) == names && Contribution(v) == Some(n)
    ensures ContributedNames(objs + [v]) == names + [n]
  {
    ContributedSnoc(objs, v);
  }

  /** The "Cost Analysis" process linked to "Quality Control" declares the property
      `containsQualityControl` from class `CostAnalysis` to class `QualityControl`. */
  lemma CostAnalysisContainsQualityControl()
    ensures var r := CreateRelationTriple([], Relation([], "Quality Control"), "Cost Analysis", Prefix);
      && r[0].subj == Named(Prefix + "contains" + "QualityControl")
      && r[1].obj == Named(Prefix + "CostAnalysis")
      && r[2].obj == Named(Prefix + "QualityControl")
  {
    QualityControlWords();
    CostAnalysisWords();
    KnownIdentifiers([], Relation([], "Quality Control"), "Cost Analysis", Prefix, "QualityControl", "CostAnalysis");
  }

  lemma KnownIdentifiers(sink: seq<Triple>, value: Relation, key: string, prefix: string, objectId: string, keyId: string)
    requires value.connectedBusinessObject != "" && key != ""
    requires WordCase(value.connectedBusinessObject, true) == objectId && WordCase(key, true) == keyId
    ensures var r := CreateRelationTriple(sink, value, key, prefix);
      && r[|sink|].subj == Named(prefix + "contains" + objectId)
      && r[|sink| + 1].obj == Named(prefix + keyId)
      && r[|sink| + 2].obj == Named(prefix + objectId)
  {
    PropertyNamedAfterObject(sink, value, key, prefix);
  }
}
