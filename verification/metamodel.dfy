/**
 * The part of the JAX-RS metamodel that an element talks to: the class names
 * of the HTTP methods it knows, and its index of annotated elements.
 */
module Metamodels {
  import opened Annotations

  class Metamodel {
    /** Java class names of all the HTTP methods the metamodel knows, in its own order. */
    var httpMethods: seq<string>
    /** The index, seen as the (element, annotation handle identifier) pairs it holds. */
    ghost var index: set<(object, string)>

    /** A metamodel that knows these HTTP methods and has indexed nothing yet. */
    constructor (httpMethods: seq<string>)
      ensures this.httpMethods == httpMethods && index == {}
    {
      this.httpMethods := httpMethods;
      index := {};
    }

    /** `indexElement`: files `element` under `annotation`. */
    ghost method IndexElement(element: object, annotation: Annotation)
      modifies this`index
      ensures index == old(index) + {(element, annotation.handleId)}
    {
      index := index + {(element, annotation.handleId)};
    }

    /** `unindexElement`: drops the entry of `element` under the annotation with that handle. */
    ghost method UnindexElement(element: object, handleIdentifier: string)
      modifies this`index
      ensures index == old(index) - {(element, handleIdentifier)}
    {
      index := index - {(element, handleIdentifier)};
    }
  }
}
