/**
 * Java annotations as the JAX-RS metamodel sees them: values identified by
 * their fully qualified class name and by the handle identifier of the JDT
 * annotation they were read from, plus the class names the metamodel knows.
 */
module Annotations {

  datatype Option<+T> = None | Some(value: T)

  /** Fully qualified names of the annotation classes the metamodel reacts to. */
  const PATH := "javax.ws.rs.Path"
  const APPLICATION_PATH := "javax.ws.rs.ApplicationPath"
  const HTTP_METHOD := "javax.ws.rs.HttpMethod"
  const TARGET := "java.lang.annotation.Target"
  const RETENTION := "java.lang.annotation.Retention"
  const PROVIDER := "javax.ws.rs.ext.Provider"
  const PATH_PARAM := "javax.ws.rs.PathParam"
  const QUERY_PARAM := "javax.ws.rs.QueryParam"
  const MATRIX_PARAM := "javax.ws.rs.MatrixParam"
  const DEFAULT_VALUE := "javax.ws.rs.DefaultValue"
  const CONSUMES := "javax.ws.rs.Consumes"
  const PRODUCES := "javax.ws.rs.Produces"

  /**
   * An annotation on a Java member: its class name, the handle identifier of
   * the underlying JDT annotation, and its element values.
   */
  datatype Annotation = Annotation(
    qualifiedName: string,
    handleId: string,
    elements: map<string, seq<string>>)

  /**
   * `Annotation.update`: the stored annotation takes on the incoming one, and
   * the call reports whether anything differed.
   */
  function Update(stored: Annotation, incoming: Annotation): (r: (bool, Annotation))
    ensures r.1 == incoming
    ensures r.0 <==> stored != incoming
  {
    (stored != incoming, incoming)
  }

  /** `Map.get`, with None standing for Java's null. */
  function Lookup(annotations: map<string, Annotation>, className: string): (r: Option<Annotation>)
    ensures r.Some? <==> className in annotations
    ensures r.Some? ==> r.value == annotations[className]
  {
    if className in annotations then Some(annotations[className]) else None
  }

  /** `CollectionUtils.difference`: the entries of `m` whose key is not in `n`. */
  function Difference(m: map<string, Annotation>, n: map<string, Annotation>): (r: map<string, Annotation>)
    ensures r.Keys == m.Keys - n.Keys
    ensures forall k :: k in r ==> r[k] == m[k]
  {
    map k | k in m && k !in n :: m[k]
  }

  /** `CollectionUtils.intersection`: the entries of `m` whose key is also in `n`. */
  function Intersection(m: map<string, Annotation>, n: map<string, Annotation>): (r: map<string, Annotation>)
    ensures r.Keys == m.Keys * n.Keys
    ensures forall k :: k in r ==> r[k] == m[k]
  {
    map k | k in m && k in n :: m[k]
  }

  /** Every entry is filed under its own annotation's class name. */
  ghost predicate WellKeyed(annotations: map<string, Annotation>)
  {
    forall k :: k in annotations ==> annotations[k].qualifiedName == k
  }

  /** No two entries share a JDT handle identifier. */
  ghost predicate DistinctHandles(annotations: map<string, Annotation>)
  {
    forall k, l :: k in annotations && l in annotations && annotations[k].handleId == annotations[l].handleId ==> k == l
  }

  /** Every entry of `m` is also an entry of `n`. */
  ghost predicate SubMap(m: map<string, Annotation>, n: map<string, Annotation>)
  {
    forall k :: k in m ==> k in n && n[k] == m[k]
  }
}
