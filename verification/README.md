# Business-process ontology builder, modelled in Dafny

The repository turns a list of business-process records into an OWL ontology. Each record
names a process, the business object the process acts on, and its subprocesses. The
ontology is written as RDF triples.

This project models the core of that pipeline as pure functions over immutable data.

- **The entity collector** is the loop in `main` (index.js). It fills `businessObjectMap`
  and `businessProcessMap` and hands on their key lists and the process map.
  `Collector.CollectEntities` models it. A JavaScript `Map` is modelled as an association
  list (`OrderedMap`).
- **The name sanitiser** is `sanitizeClassName` (utils/createOwlClasses.js) and its copy
  `toSafeIRI` (utils/createRelationTriple.js). `Sanitize.SanitizeClassName` models it as
  trim, delete special characters, split on white space, capitalise, and join (module
  `JsText`). A one-pass scanner, `Sanitize.WordCase`, is an independent reference
  definition of the same result.
- **The class synthesiser** is `createTriples`. `OwlClasses.CreateTriples` models it as the
  sequence of triples it hands to the N3 writer, in order: the ontology header, then three
  triples per distinct usable name. `OwlClasses.Contribution` gives an independent reading
  of the name one array entry contributes.
- **The property synthesiser** is `createRelationTriple`. `RelationTriple.CreateRelationTriple`
  models it: it takes the writer's triples so far (`sink`) and appends the six triples that
  declare a `contains<Object>` object property.

The modules are `JsValues`, `Seqs`, `JsText`, `Sanitize`, `OrderedMap`, `Collector`,
`Rdf`, `OwlClasses` and `RelationTriple`. Worked values live in `SanitizeExamples`,
`CollectorExamples` and `TriplesExamples`.

### Behaviour of the code worth knowing

Some of the code's behaviour is easy to misread. The lemmas named here pin it down.

- **Sanitisation is not idempotent.** "Quality Control" gives "QualityControl", and
  sanitising that again gives "Qualitycontrol". An inner capital is read as part of one
  word and lower-cased (`SanitizeExamples.SanitizeIsNotIdempotent`).
- **A hyphen does not separate words.** The special characters are deleted before the
  split, so "Cost-Analysis" gives "Costanalysis" and "Cost Analysis" gives "CostAnalysis".
  The two names do not collide (`SanitizeExamples.HyphenJoinsWords`).
- **A name of punctuation alone gives the empty identifier, not null.** `createTriples`
  then skips it at utils/createOwlClasses.js:55 (`Sanitize.SanitizeNoAlnum`,
  `OwlClasses.ExcludedEntryAddsNothing`).
- **`createTriples` declares only `BusinessObject` subclasses.** It emits no
  `BusinessProcess` class, no class for the standard, and no process or property triples.
  `createRelationTriple` is never called by `main` or by `createTriples`; it is modelled on
  its own.
- **`createRelationTriple` uses prefixed predicate names** such as "rdf:type" and
  "rdfs:label". The N3 data factory keeps them verbatim, so its triples never coincide
  with those of `createTriples`, which uses full IRIs (`RelationTriple.RelationTriplesAreNew`).
- **A missing name renders "null" inside an IRI.** `toSafeIRI` returns `null` for an
  empty name, and the template literal renders it as "null"
  (`RelationTriple.EmptyNamesRenderNull`).

JavaScript strings are UTF-16 code units, while the model uses Unicode scalar values. The
sanitiser deletes every character outside ASCII letters, digits and white space, and the
two encodings agree on those characters, so identifiers are unaffected. The white-space
set is the ECMAScript WhiteSpace and LineTerminator set, which both `trim` and `\s` use.

## Model

| member | source | states |
|---|---|---|
| JsText.Trim | utils/createOwlClasses.js:110 | The trimmed name is empty exactly when the name is all white space; otherwise it neither starts nor ends with white space and is no longer than the name. |
| JsText.TrimKeepsMiddle | utils/createOwlClasses.js:110 | The trimmed name is the slice of the name between its leading and its trailing white space. Only white space lies before and after that slice. |
| JsText.RemoveSpecial | utils/createOwlClasses.js:111 | Exactly the ASCII letters, digits and white-space characters of the name survive; every surviving character is one of those. |
| JsText.RemoveSpecialConcat | utils/createOwlClasses.js:111 | The deletion distributes over concatenation: the result for `a + b` is the result for `a` followed by the result for `b`. So the kept characters stay in order with their repeats. |
| JsText.RemoveSpecialChar | utils/createOwlClasses.js:111 | A single character is kept unchanged when it is an ASCII letter, digit or white space, and deleted otherwise. |
| JsText.SplitOnSpace | utils/createOwlClasses.js:112 | There is at least one piece (`"".split(/\s+/)` is `[""]`), no piece contains white space, and the pieces joined back give the name's non-space characters in order. |
| JsText.SplitOnSpaceJoinsSpaced | utils/createOwlClasses.js:112 | The pieces break exactly at the maximal runs of white space. Joined with one space between neighbours, they give the name with each such run squeezed to one space. |
| JsText.SplitOnSpaceIsUnique | utils/createOwlClasses.js:112 | Any non-empty list of space-free pieces whose single-space join is the squeezed name is the split, so the properties above determine it. |
| JsText.SplitTwoChars | utils/createOwlClasses.js:112 | Two non-space characters around one space split into two one-character pieces. |
| JsText.Capitalize | utils/createOwlClasses.js:113-116 | A word keeps its length; its first character is upper-cased and every later one lower-cased. |
| Sanitize.SanitizeClassName | utils/createOwlClasses.js:103-118 | The result is null exactly for a non-string or the empty string. Otherwise it equals the one-pass reference reading of the name, is no longer than the name, and consists of ASCII letters and digits only. |
| Sanitize.PascalCaseIsWordCase | utils/createOwlClasses.js:109-117 | For every string, the trim/replace/split/capitalise/join chain gives the same identifier as the one-pass reference scanner. |
| Sanitize.WordCaseConcat | utils/createOwlClasses.js:109-117 | The identifier of a concatenation is the identifier of the first part followed by that of the second part, read from the word state the first part leaves. |
| Sanitize.SanitizeIgnoresCase | utils/createOwlClasses.js:109-117 | Names that differ only in the case of ASCII letters get the same identifier. |
| Sanitize.SanitizeIgnoresSurroundingSpace | utils/createOwlClasses.js:44-46 | For a non-blank name, trimming it before sanitising (as `createTriples` does) does not change its identifier. |
| Sanitize.SanitizeNoAlnum | utils/createOwlClasses.js:104-117 | A non-empty name without ASCII letters or digits gives the empty identifier rather than null. |
| SanitizeExamples.SanitizeSamples | utils/createOwlClasses.js:103-118 | "Quality Control" gives "QualityControl", "" and non-strings give null, and " - " gives "". |
| SanitizeExamples.HyphenJoinsWords | utils/createOwlClasses.js:111-112 | "Cost Analysis" gives "CostAnalysis" but "Cost-Analysis" gives "Costanalysis": a deleted hyphen does not start a new word. |
| SanitizeExamples.SanitizeIsNotIdempotent | utils/createOwlClasses.js:113-116 | Sanitising "QualityControl" again gives "Qualitycontrol", which differs from it. |
| RelationTriple.ToSafeIri | utils/createRelationTriple.js:52-63 | The copy of the sanitiser in createRelationTriple.js agrees with `sanitizeClassName` on every value. |
| OrderedMap.Set | index.js:15-17 | After `set`, the key maps to the new value and every other key keeps its value. The key list grows by the key exactly when it was absent. |
| OrderedMap.SetEachIfAbsentFromEmpty | index.js:19-23 | Registering entries in order, each only if its key is absent, lists every key once in first-seen order and gives each key the value of its first entry. |
| OrderedMap.MoreEntriesOnlyAppend | index.js:9-41 | Registering more entries only appends to the map: the earlier map is a prefix of the later one and keeps every value. |
| Collector.CollectEntities | index.js:6-46 | The process list is the key list of the relation map, and neither list repeats a name. A name is listed as an object exactly when some record or subprocess acts on it, and as a process exactly when some record or subprocess bears it. |
| Collector.CollectedInFirstSeenOrder | index.js:9-41 | Both lists hold the names in the order they were first registered: record by record, each record's own entry before those of its subprocesses. |
| Collector.RelationIsFirstEntry | index.js:26-40 | Each process name maps to the relation of the entry that first registered it; later entries never overwrite it. |
| Collector.RecordRegistrationWins | index.js:26-31 | A name first seen as a top-level record maps to that record's subprocess list and business object. |
| Collector.SubprocessRegistrationWins | index.js:33-40 | A name first seen as a subprocess maps to an empty subprocess list and the subprocess's business object. |
| Collector.LaterRecordsOnlyAppendObjects | index.js:15-23 | The object list for a prefix of the input is a prefix of the list for the whole input. |
| Collector.LaterRecordsOnlyAppendRelations | index.js:26-40 | The relation map for a prefix of the input is a prefix of the whole input's map. Every process already registered keeps its relation. |
| Collector.OwnEntryComesFirst | index.js:9-40 | For a single record, its own object and name come first in the lists, ahead of its subprocesses' entries, and its name maps to its own relation. |
| CollectorExamples.PaveRoadExample | index.js:9-46 | "Pave Road" on "Road Surface", with subprocess "Compact Subgrade" on "Subgrade", collects both objects and both names in that order. The record keeps its subprocess list and the subprocess gets an empty one. |
| Seqs.DistinctFirstSeen | utils/createOwlClasses.js:49 | `[...new Set(xs)]` lists every element of `xs` exactly once, ordered by where it first occurs. |
| Seqs.FirstSeenOrderIsUnique | utils/createOwlClasses.js:49 | Two sequences that both list the elements of `xs` in first-seen order are equal. |
| OwlClasses.OntologyIri | utils/createOwlClasses.js:9-23 | The ontology IRI followed by '#' is the class prefix. |
| OwlClasses.CreateTriples | utils/createOwlClasses.js:4-85 | The result is two header triples followed by three triples per declared name, in order. Block i is the class declaration, subclass-of and label of the i-th declared name. |
| OwlClasses.UsableValidIsContributed | utils/createOwlClasses.js:40-46 | The blank/type filter, trim, null-word filter, sanitisation and the `object.length > 0` guard together keep exactly what each entry contributes on its own, in entry order. |
| OwlClasses.DeclaredNamesFirstSeen | utils/createOwlClasses.js:40-49 | Every contributed name is declared and every declared name is contributed. None is declared twice, and they come in first-contributed order. |
| OwlClasses.CreateTriplesIsBlocks | utils/createOwlClasses.js:22-85 | The triples are the header followed by the class blocks of the declared names. |
| OwlClasses.ClassesDeclaredOnce | utils/createOwlClasses.js:49-65 | No two class blocks declare the same IRI. |
| OwlClasses.NoObjectsGiveHeaderOnly | utils/createOwlClasses.js:22-37 | An empty array yields only the ontology declaration and the `BusinessObject` class. |
| OwlClasses.SameContributionsSameTriples | utils/createOwlClasses.js:40-85 | Two arrays whose entries contribute the same names yield the same triples. |
| OwlClasses.ExcludedEntryAddsNothing | utils/createOwlClasses.js:40-55 | Appending an entry that contributes nothing leaves the triples unchanged. Such an entry is a non-string, blank, "undefined", "null", or punctuation only. |
| OwlClasses.RepeatedNameAddsNothing | utils/createOwlClasses.js:49 | Appending an entry whose identifier was already contributed leaves the triples unchanged. |
| OwlClasses.NewNameAppendsClass | utils/createOwlClasses.js:54-85 | Appending an entry with a new identifier appends exactly that identifier's three class triples. |
| TriplesExamples.SampleObjects | utils/createOwlClasses.js:40-85 | Six entries yield the header and then the classes QualityControl and CostAnalysis. The entries are "Quality Control", "null", a non-string, a blank, "Cost Analysis" and "Quality Control" again. |
| RelationTriple.CreateRelationTriple | utils/createRelationTriple.js:3-49 | Six triples are appended and the earlier ones kept. The first types the property IRI as `owl:ObjectProperty`. The next three share its subject, with predicates `rdfs:domain`, `rdfs:range` and `rdfs:label`, and the last two are `rdfs:label` triples. For non-empty names, domain and range are the prefix plus the identifiers of the process and of the object, and those classes head the last two triples. The labels carry the original names, and the property label reads "contains <object>". |
| RelationTriple.PropertyNamedAfterObject | utils/createRelationTriple.js:4-36 | The four property triples share the subject prefix + "contains" + the object's identifier. |
| RelationTriple.PropertyIgnoresProcess | utils/createRelationTriple.js:3-48 | Two processes linked to the same object declare the same property, with the same type, range, property label and object label. Only the domain and the process label differ. |
| RelationTriple.EmptyNamesRenderNull | utils/createRelationTriple.js:4-27 | With an empty process and object name, the property is "containsnull" and domain and range are the prefix + "null". |
| RelationTriple.CreateTriplesPredicates | utils/createOwlClasses.js:57-83 | Every predicate `createTriples` emits is the full IRI of rdf:type, rdfs:subClassOf or rdfs:label. |
| RelationTriple.RelationTriplesAreNew | utils/createRelationTriple.js:9-48 | None of the six appended triples is among the triples of `createTriples`, whatever its input. |
| RelationTriple.RangeIsDeclaredClass | utils/createRelationTriple.js:23-27 | With the ontology's prefix, the range of the property is a class that `createTriples` declares when given an array holding the object's name. |
| RelationTriple.ContributedIsDeclared | utils/createOwlClasses.js:54-65 | Every contributed name gets its `owl:Class` declaration. |
| TriplesExamples.CostAnalysisContainsQualityControl | utils/createRelationTriple.js:3-27 | Process "Cost Analysis" linked to "Quality Control" declares `containsQualityControl` with domain `CostAnalysis` and range `QualityControl`. |

## Left out

- The N3 writer: `writer.addPrefix`, `writer.end`, and Turtle serialisation. The model
  stops at the sequence of triples handed to `addQuad`; the graph part of a quad is the
  default graph and is not modelled.
- File and console I/O (`fs.writeFileSync`, `console.log`) and the JSON `require` of the
  input. The input array is a parameter of `CollectEntities`.
- `main`'s call `createTriples({...})` at index.js:43-48. It passes an object where
  `createTriples` iterates an array, so no code path consumes the collector's output. The
  model stops at the three values the call hands on (index.js:44-46).
- `testOntology` (utils/createOwlClasses.js:121-136). Two of its sample names are used in
  the worked values.
- The `async` wrapper of `main`, which awaits nothing.
- Collector.CollectEntities: records are assumed to have string `name` and `object` fields
  and an array of subprocesses, as the input file provides. A missing `subprocesses` field
  would throw in the source and is not modelled.
- Sanitize.SanitizeClassName: case mapping is modelled for ASCII only. Only ASCII letters
  reach `toUpperCase`/`toLowerCase` after the special characters are deleted, so nothing
  is lost.
- RelationTriple.CreateRelationTriple: `key` and `connectedBusinessObject` are modelled as
  strings, so a non-string value (which `toSafeIRI` also maps to null) is not represented.
  An empty string covers the null path.
