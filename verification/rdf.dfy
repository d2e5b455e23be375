/** RDF terms and triples, as the N3 data factory builds them. Only the triples are
    modelled; how a writer serialises them is not. */
module Rdf {

  /** `namedNode(iri)` or `literal(text)`. An IRI is kept as the exact string handed to
      the factory: the factory does not expand a prefixed name such as "rdf:type". */
  datatype Term = Named(iri: string) | Literal(text: string)

  /** One statement `subject predicate object` (the graph part of an N3 quad). */
  datatype Triple = Triple(subj: Term, pred: Term, obj: Term)
}
