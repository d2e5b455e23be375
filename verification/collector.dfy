/** The entity collector: the loop in `main` (index.js) that scans the process records and
    fills `businessObjectMap` and `businessProcessMap`. */
module Collector {
  import opened JsValues
  import opened Seqs
  import opened OrderedMap

  /** A subprocess of a record; it carries no subprocesses of its own. */
  datatype Subprocess = Subprocess(name: string, businessObject: string)

  /** One element of the input array: a process, the business object it acts on, and its
      subprocesses. */
  datatype Record = Record(name: string, businessObject: string, subprocesses: seq<Subprocess>)

  /** The value `businessProcessMap` holds for a process name. */
  datatype Relation = Relation(subprocesses: seq<Subprocess>, connectedBusinessObject: string)

  /** The two maps the loop fills: object name to `true`, process name to its relation. */
  datatype Maps = Maps(businessObjectMap: AssocList<string, bool>, businessProcessMap: AssocList<string, Relation>)

  /** What the loop hands on: the key lists of both maps and the process map itself. */
  datatype Collected = Collected(businessObjects: seq<string>, businessProcesses: seq<string>, relations: AssocList<string, Relation>)

  /** The object entries the first `forEach` over the subprocesses registers. */
  function SubprocessObjects(sps: seq<Subprocess>): seq<(string, bool)> {
    seq(|sps|, i requires 0 <= i < |sps| => (sps[i].businessObject, true))
  }

  /** The process entries the second `forEach` over the subprocesses registers: a
      subprocess is a leaf, so its list of subprocesses is empty. */
  function SubprocessRelations(sps: seq<Subprocess>): seq<(string, Relation)> {
    seq(|sps|, i requires 0 <= i < |sps| => (sps[i].name, Relation([], sps[i].businessObject)))
  }

  /** One pass of the loop body for `element`. */
  function Visit(maps: Maps, element: Record): Maps {
    var objects := SetIfAbsent(maps.businessObjectMap, element.businessObject, true);
    var objects' := SetEachIfAbsent(objects, SubprocessObjects(element.subprocesses));
    var processes := SetIfAbsent(maps.businessProcessMap, element.name, Relation(element.subprocesses, element.businessObject));
    var processes' := SetEachIfAbsent(processes, SubprocessRelations(element.subprocesses));
    Maps(objects', processes')
  }

  /** The loop over all records, starting from two empty maps. */
  function VisitAll(records: seq<Record>): Maps {
    if |records| == 0 then Maps([], [])
    else Visit(VisitAll(records[..|records| - 1]), records[|records| - 1])
  }

  /** `main` up to the call that consumes the maps. */
  function CollectEntities(records: seq<Record>): (c: Collected)
    ensures c.businessProcesses == Keys(c.relations)
    ensures NoDup(c.businessObjects) && NoDup(c.businessProcesses)
    ensures forall x :: x in c.businessObjects <==> MentionsObject(records, x)
    ensures forall x :: x in c.businessProcesses <==> MentionsProcess(records, x)
  {
    var maps := VisitAll(records);
    VisitAllRegistersEntries(records);
    SetEachIfAbsentFromEmpty(ObjectEntries(records));
    SetEachIfAbsentFromEmpty(RelationEntries(records));
    ObjectEntriesMentioned(records);
    RelationEntriesMentioned(records);
    Collected(Keys(maps.businessObjectMap), Keys(maps.businessProcessMap), maps.businessProcessMap)
  }

  /** Some record or subprocess acts on object `x`. */
  predicate MentionsObject(records: seq<Record>, x: string) {
    exists i :: 0 <= i < |records| && (records[i].businessObject == x || SubprocessMentionsObject(records[i].subprocesses, x))
  }

  predicate SubprocessMentionsObject(sps: seq<Subprocess>, x: string) {
    exists j :: 0 <= j < |sps| && sps[j].businessObject == x
  }

  /** Some record or subprocess is named `x`. */
  predicate MentionsProcess(records: seq<Record>, x: string) {
    exists i :: 0 <= i < |records| && (records[i].name == x || SubprocessMentionsName(records[i].subprocesses, x))
  }

  predicate SubprocessMentionsName(sps: seq<Subprocess>, x: string) {
    exists j :: 0 <= j < |sps| && sps[j].name == x
  }

  /** The object entries one record offers, in the order the loop body offers them. */
  function RecordObjects(r: Record): seq<(string, bool)> {
    [(r.businessObject, true)] + SubprocessObjects(r.subprocesses)
  }

  /** The process entries one record offers, in the order the loop body offers them. */
  function RecordRelations(r: Record): seq<(string, Relation)> {
    [(r.name, Relation(r.subprocesses, r.businessObject))] + SubprocessRelations(r.subprocesses)
  }

  /** All object entries of the input, record by record. */
  function ObjectEntries(records: seq<Record>): seq<(string, bool)> {
    if |records| == 0 then []
    else ObjectEntries(records[..|records| - 1]) + RecordObjects(records[|records| - 1])
  }

  /** All process entries of the input, record by record. */
  function RelationEntries(records: seq<Record>): seq<(string, Relation)> {
    if |records| == 0 then []
    else RelationEntries(records[..|records| - 1]) + RecordRelations(records[|records| - 1])
  }

  /** The loop registers the entries of the input one after another, first one wins. */
  lemma {:induction false} VisitAllRegistersEntries(records: seq<Record>)
    ensures VisitAll(records).businessObjectMap == SetEachIfAbsent([], ObjectEntries(records))
    ensures VisitAll(records).businessProcessMap == SetEachIfAbsent([], RelationEntries(records))
  {
    if |records| > 0 {
      var p, r := records[..|records| - 1], records[|records| - 1];
      VisitAllRegistersEntries(p);
      var m := VisitAll(p);
      assert [(r.businessObject, true)][..0] == [];
      SetEachIfAbsentConcat([], ObjectEntries(p), RecordObjects(r));
      SetEachIfAbsentConcat(m.businessObjectMap, [(r.businessObject, true)], SubprocessObjects(r.subprocesses));
      assert [(r.name, Relation(r.subprocesses, r.businessObject))][..0] == [];
      SetEachIfAbsentConcat([], RelationEntries(p), RecordRelations(r));
      SetEachIfAbsentConcat(m.businessProcessMap, [(r.name, Relation(r.subprocesses, r.businessObject))], SubprocessRelations(r.subprocesses));
    }
  }

  lemma {:induction false} ObjectEntriesMentioned(records: seq<Record>)
    ensures forall x :: x in Keys(ObjectEntries(records)) <==> MentionsObject(records, x)
  {
    if |records| > 0 {
      var p, r := records[..|records| - 1], records[|records| - 1];
      ObjectEntriesMentioned(p);
      KeysConcat(ObjectEntries(p), RecordObjects(r));
      forall x
        ensures x in Keys(ObjectEntries(records)) <==> MentionsObject(records, x)
      {
        var ks := Keys(RecordObjects(r));
        assert x in ks <==> r.businessObject == x || SubprocessMentionsObject(r.subprocesses, x) by {
          assert ks[0] == r.businessObject;
          if SubprocessMentionsObject(r.subprocesses, x) {
            var j :| 0 <= j < |r.subprocesses| && r.subprocesses[j].businessObject == x;
            assert RecordObjects(r)[j + 1] == SubprocessObjects(r.subprocesses)[j];
            assert ks[j + 1] == x;
          }
          if x in ks {
            var j :| 0 <= j < |ks| && ks[j] == x;
            if j > 0 {
              assert RecordObjects(r)[j] == SubprocessObjects(r.subprocesses)[j - 1];
              assert r.subprocesses[j - 1].businessObject == x;
            }
          }
        }
        if MentionsObject(records, x) {
          var i :| 0 <= i < |records| && (records[i].businessObject == x || SubprocessMentionsObject(records[i].subprocesses, x));
          if i < |p| {
            assert p[i] == records[i];
          }
        }
        if MentionsObject(p, x) {
          var i :| 0 <= i < |p| && (p[i].businessObject == x || SubprocessMentionsObject(p[i].subprocesses, x));
          assert records[i] == p[i];
        }
      }
    }
  }

  lemma {:induction false} RelationEntriesMentioned(records: seq<Record>)
    ensures forall x :: x in Keys(RelationEntries(records)) <==> MentionsProcess(records, x)
  {
    if |records| > 0 {
      var p, r := records[..|records| - 1], records[|records| - 1];
      RelationEntriesMentioned(p);
      KeysConcat(RelationEntries(p), RecordRelations(r));
      forall x
        ensures x in Keys(RelationEntries(records)) <==> MentionsProcess(records, x)
      {
        var ks := Keys(RecordRelations(r));
        assert x in ks <==> r.name == x || SubprocessMentionsName(r.subprocesses, x) by {
          assert ks[0] == r.name;
          if SubprocessMentionsName(r.subprocesses, x) {
            var j :| 0 <= j < |r.subprocesses| && r.subprocesses[j].name == x;
            assert RecordRelations(r)[j + 1] == SubprocessRelations(r.subprocesses)[j];
            assert ks[j + 1] == x;
          }
          if x in ks {
            var j :| 0 <= j < |ks| && ks[j] == x;
            if j > 0 {
              assert RecordRelations(r)[j] == SubprocessRelations(r.subprocesses)[j - 1];
              assert r.subprocesses[j - 1].name == x;
            }
          }
        }
        if MentionsProcess(records, x) {
          var i :| 0 <= i < |records| && (records[i].name == x || SubprocessMentionsName(records[i].subprocesses, x));
          if i < |p| {
            assert p[i] == records[i];
          }
        }
        if MentionsProcess(p, x) {
          var i :| 0 <= i < |p| && (p[i].name == x || SubprocessMentionsName(p[i].subprocesses, x));
          assert records[i] == p[i];
        }
      }
    }
  }

  /** The business-object and business-process lists hold every mentioned name once, in the
      order the loop first meets it: within a record, its own object or name comes before
      those of its subprocesses, and records are taken in input order. */
  lemma CollectedInFirstSeenOrder(records: seq<Record>)
    ensures FirstSeenOrder(CollectEntities(records).businessObjects, Keys(ObjectEntries(records)))
    ensures FirstSeenOrder(CollectEntities(records).businessProcesses, Keys(RelationEntries(records)))
  {
    VisitAllRegistersEntries(records);
    SetEachIfAbsentFromEmpty(ObjectEntries(records));
    SetEachIfAbsentFromEmpty(RelationEntries(records));
  }

  /** Each name maps to the relation of the entry that first registered it. */
  lemma RelationIsFirstEntry(records: seq<Record>, k: string)
    ensures Get(CollectEntities(records).relations, k) == FirstValue(RelationEntries(records), k)
  {
    VisitAllRegistersEntries(records);
    SetEachIfAbsentValues(RelationEntries(records), k);
  }

  lemma {:induction false} RelationEntriesConcat(a: seq<Record>, b: seq<Record>)
    ensures RelationEntries(a + b) == RelationEntries(a) + RelationEntries(b)
  {
    if |b| == 0 {
      assert a + b == a;
    } else {
      assert (a + b)[..|a + b| - 1] == a + b[..|b| - 1];
      RelationEntriesConcat(a, b[..|b| - 1]);
    }
  }

  lemma {:induction false} ObjectEntriesConcat(a: seq<Record>, b: seq<Record>)
    ensures ObjectEntries(a + b) == ObjectEntries(a) + ObjectEntries(b)
  {
    if |b| == 0 {
      assert a + b == a;
    } else {
      assert (a + b)[..|a + b| - 1] == a + b[..|b| - 1];
      ObjectEntriesConcat(a, b[..|b| - 1]);
    }
  }

  /** The entry list seen from record `i`: what came before, then the record's own entries,
      then the rest. */
  lemma SplitRelationEntries(records: seq<Record>, i: nat)
    requires i < |records|
    ensures RelationEntries(records) ==
      RelationEntries(records[..i]) + RecordRelations(records[i]) + RelationEntries(records[i + 1..])
  {
    SplitAround(records, i);
    RelationEntriesConcat(records[..i + 1], records[i + 1..]);
    RelationEntriesSnoc(records[..i], records[i]);
  }

  lemma RelationEntriesSnoc(records: seq<Record>, r: Record)
    ensures RelationEntries(records + [r]) == RelationEntries(records) + RecordRelations(r)
  {
    assert (records + [r])[..|records|] == records;
  }

  /** A name first registered by a top-level record maps to that record's object and its
      subprocess list, verbatim. */
  lemma RecordRegistrationWins(records: seq<Record>, i: nat)
    requires i < |records|
    requires !MentionsProcess(records[..i], records[i].name)
    ensures Get(CollectEntities(records).relations, records[i].name)
      == Some(Relation(records[i].subprocesses, records[i].businessObject))
  {
    var r, k := records[i], records[i].name;
    var pre, rest := RelationEntries(records[..i]), RecordRelations(r) + RelationEntries(records[i + 1..]);
    SplitRelationEntries(records, i);
    RelationEntriesMentioned(records[..i]);
    assert RelationEntries(records) == pre + rest;
    FirstValueBehind(pre, rest, k, 0);
    RelationIsFirstEntry(records, k);
  }

  /** A name first registered by a subprocess maps to the subprocess's object and an empty
      subprocess list. */
  lemma SubprocessRegistrationWins(records: seq<Record>, i: nat, j: nat)
    requires i < |records| && j < |records[i].subprocesses|
    requires !MentionsProcess(records[..i], records[i].subprocesses[j].name)
    requires records[i].name != records[i].subprocesses[j].name
    requires !SubprocessMentionsName(records[i].subprocesses[..j], records[i].subprocesses[j].name)
    ensures Get(CollectEntities(records).relations, records[i].subprocesses[j].name)
      == Some(Relation([], records[i].subprocesses[j].businessObject))
  {
    var r, k := records[i], records[i].subprocesses[j].name;
    var pre, rest := RelationEntries(records[..i]), RecordRelations(r) + RelationEntries(records[i + 1..]);
    SplitRelationEntries(records, i);
    RelationEntriesMentioned(records[..i]);
    assert RelationEntries(records) == pre + rest;
    SubprocessPosition(r, j, RelationEntries(records[i + 1..]));
    FirstValueBehind(pre, rest, k, j + 1);
    RelationIsFirstEntry(records, k);
  }

  /** Within a record's own entries, subprocess `j` sits at position `j + 1`, behind the
      record itself and the subprocesses before it. */
  lemma SubprocessPosition(r: Record, j: nat, tail: seq<(string, Relation)>)
    requires j < |r.subprocesses|
    requires r.name != r.subprocesses[j].name
    requires !SubprocessMentionsName(r.subprocesses[..j], r.subprocesses[j].name)
    ensures var rest, k := RecordRelations(r) + tail, r.subprocesses[j].name;
      && rest[j + 1] == (k, Relation([], r.subprocesses[j].businessObject))
      && forall f :: 0 <= f < j + 1 ==> rest[f].0 != k
  {
    var rest, k := RecordRelations(r) + tail, r.subprocesses[j].name;
    forall f | 0 <= f < j + 1
      ensures rest[f].0 != k
    {
      if f > 0 {
        assert rest[f] == SubprocessRelations(r.subprocesses)[f - 1];
        assert r.subprocesses[..j][f - 1] == r.subprocesses[f - 1];
      }
    }
  }

  /** Later records only add business objects: the list for a prefix of the input is a
      prefix of the list for the whole input. */
  lemma LaterRecordsOnlyAppendObjects(records: seq<Record>, more: seq<Record>)
    ensures var c, c' := CollectEntities(records), CollectEntities(records + more);
      |c.businessObjects| <= |c'.businessObjects| && c'.businessObjects[..|c.businessObjects|] == c.businessObjects
  {
    VisitAllRegistersEntries(records);
    VisitAllRegistersEntries(records + more);
    ObjectEntriesConcat(records, more);
    MoreEntriesOnlyAppend(ObjectEntries(records), ObjectEntries(more));
  }

  /** Later records only add processes, and never overwrite one: the relation map of a
      prefix of the input is a prefix of that of the whole input, so a name already
      registered keeps its relation. */
  lemma LaterRecordsOnlyAppendRelations(records: seq<Record>, more: seq<Record>)
    ensures var c, c' := CollectEntities(records), CollectEntities(records + more);
      && |c.relations| <= |c'.relations| && c'.relations[..|c.relations|] == c.relations
      && c'.businessProcesses[..|c.businessProcesses|] == c.businessProcesses
      && forall k :: k in c.businessProcesses ==> Get(c'.relations, k) == Get(c.relations, k)
  {
    VisitAllRegistersEntries(records);
    VisitAllRegistersEntries(records + more);
    RelationEntriesConcat(records, more);
    MoreEntriesOnlyAppend(RelationEntries(records), RelationEntries(more));
  }

  /** For a single record, its own object and name are registered before anything its
      subprocesses bring, and its name maps to its own object and subprocess list. */
  lemma OwnEntryComesFirst(r: Record)
    ensures var c := CollectEntities([r]);
      && |c.businessObjects| > 0 && c.businessObjects[0] == r.businessObject
      && |c.businessProcesses| > 0 && c.businessProcesses[0] == r.name
      && Get(c.relations, r.name) == Some(Relation(r.subprocesses, r.businessObject))
  {
    assert [r][..0] == [];
    var mo := SetIfAbsent([], r.businessObject, true);
    var mp := SetIfAbsent([], r.name, Relation(r.subprocesses, r.businessObject));
    SetEachIfAbsentExtends(mo, SubprocessObjects(r.subprocesses));
    SetEachIfAbsentExtends(mp, SubprocessRelations(r.subprocesses));
    var mo' := SetEachIfAbsent(mo, SubprocessObjects(r.subprocesses));
    var mp' := SetEachIfAbsent(mp, SubprocessRelations(r.subprocesses));
    assert mo == [(r.businessObject, true)] && mo'[0] == mo'[..|mo|][0];
    assert mp == [(r.name, Relation(r.subprocesses, r.businessObject))] && mp'[0] == mp'[..|mp|][0];
    GetInPrefix(mp, mp', r.name);
    assert VisitAll([r]) == Maps(mo', mp');
    assert Keys(mo')[0] == r.businessObject;
  }
}
