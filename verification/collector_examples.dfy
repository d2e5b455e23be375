/** A worked run of the entity collector on one record with one subprocess. */
module CollectorExamples {
  import opened OrderedMap
  import opened Collector

  /** "Pave Road" acts on "Road Surface" and has the subprocess "Compact Subgrade", which
      acts on "Subgrade": both objects and both names are collected in that order, the
      record keeps its subprocess list and the subprocess gets an empty one. */
  lemma PaveRoadExample()
    ensures var sp := Subprocess("Compact Subgrade", "Subgrade");
      var c := CollectEntities([Record("Pave Road", "Road Surface", [sp])]);
      && c.businessObjects == ["Road Surface", "Subgrade"]
      && c.businessProcesses == ["Pave Road", "Compact Subgrade"]
      && c.relations == [("Pave Road", Relation([sp], "Road Surface")), ("Compact Subgrade", Relation([], "Subgrade"))]
  {
    var sp := Subprocess("Compact Subgrade", "Subgrade");
    var r := Record("Pave Road", "Road Surface", [sp]);
    assert [r][..0] == [];
    assert SubprocessObjects([sp]) == [("Subgrade", true)];
    assert SubprocessRelations([sp]) == [("Compact Subgrade", Relation([], "Subgrade"))];
  }
}
