/**
 * The base of every element of the JAX-RS metamodel: a Java member together
 * with the annotations found on it, filed by annotation class name. Adding,
 * updating and removing annotations returns delta flags that say which
 * annotation changed and whether the element's kind changed with it.
 */
module JaxrsJavaElements {
  import opened Annotations
  import opened DeltaFlags
  import opened Metamodels

  /** The annotation `a` makes a difference to `before`: new, or `Annotation.update` reports a change. */
  predicate Changes(before: map<string, Annotation>, a: Annotation)
  {
    a.qualifiedName !in before || Update(before[a.qualifiedName], a).0
  }

  /**
   * One call of `addOrUpdateAnnotation(a)` takes the annotations from `before`
   * to `after` and returns `flag`: `a` is filed under its class name, and the
   * flag qualifies the change when there was one and is F_NONE otherwise.
   */
  ghost predicate AddOrUpdateStep<K>(kindOf: map<string, Annotation> -> K, httpMethods: seq<string>,
                                         before: map<string, Annotation>, a: Annotation,
                                         after: map<string, Annotation>, flag: bv32)
  {
    && after == before[a.qualifiedName := a]
    && flag == (if Changes(before, a) then ChangeFlag(a.qualifiedName, httpMethods, kindOf(before) != kindOf(after))
                else F_NONE)
  }

  /**
   * One call of `removeAnnotation(handleId)` takes the annotations from
   * `before` to `after` and returns `flag`: when `removed` is a key, it is a
   * key whose annotation has that handle and it is the only entry dropped;
   * when it is None, no annotation has that handle and nothing changes.
   */
  ghost predicate RemoveStep<K>(kindOf: map<string, Annotation> -> K, httpMethods: seq<string>,
                                    before: map<string, Annotation>, handleId: string, removed: Option<string>,
                                    after: map<string, Annotation>, flag: bv32)
  {
    match removed
    case None =>
      && (forall k :: k in before ==> before[k].handleId != handleId)
      && after == before
      && flag == F_NONE
    case Some(key) =>
      && key in before
      && before[key].handleId == handleId
      && after == before - {key}
      && flag == ChangeFlag(key, httpMethods, kindOf(before) != kindOf(after))
  }

  /**
   * `addOrUpdateAnnotation(a)` files `a` under its name and leaves every other
   * entry alone; a name the element did not have always counts as a change,
   * and an annotation equal to the one already filed raises no flag and
   * changes nothing.
   */
  lemma AddOrUpdateStepEffect<K>(kindOf: map<string, Annotation> -> K, httpMethods: seq<string>,
                                 before: map<string, Annotation>, a: Annotation,
                                 after: map<string, Annotation>, flag: bv32)
    requires AddOrUpdateStep(kindOf, httpMethods, before, a, after, flag)
    ensures a.qualifiedName in after && after[a.qualifiedName] == a
    ensures forall k :: k != a.qualifiedName ==> (k in after <==> k in before)
    ensures forall k :: k != a.qualifiedName && k in before ==> after[k] == before[k]
    ensures a.qualifiedName !in before ==>
              flag == ChangeFlag(a.qualifiedName, httpMethods, kindOf(before) != kindOf(after))
    ensures a.qualifiedName in before && before[a.qualifiedName] == a ==> flag == F_NONE && after == before
  {
  }

  /**
   * `removeAnnotation(handleId)` drops at most one entry, one that has the
   * handle, and keeps every other entry as it was; when no entry has the
   * handle it raises no flag and changes nothing.
   */
  lemma RemoveStepEffect<K>(kindOf: map<string, Annotation> -> K, httpMethods: seq<string>,
                            before: map<string, Annotation>, handleId: string, removed: Option<string>,
                            after: map<string, Annotation>, flag: bv32)
    requires RemoveStep(kindOf, httpMethods, before, handleId, removed, after, flag)
    ensures SubMap(after, before)
    ensures |before.Keys - after.Keys| <= 1
    ensures forall k :: k in before && k !in after ==> before[k].handleId == handleId
    ensures (forall k :: k in before ==> before[k].handleId != handleId) ==> after == before && flag == F_NONE
  {
    if removed.Some? {
      assert before.Keys - after.Keys == {removed.value};
    } else {
      assert before.Keys - after.Keys == {};
    }
  }

  /** A call made on the element's annotations. */
  datatype Op = Upsert(annotation: Annotation) | Remove(handleId: string)

  /** One call, the key it removed (if it removes), the annotations before and after, and the flag it returned. */
  datatype Transition = Transition(
    op: Op,
    removed: Option<string>,
    before: map<string, Annotation>,
    after: map<string, Annotation>,
    flag: bv32)

  ghost predicate ValidStep<K>(kindOf: map<string, Annotation> -> K, httpMethods: seq<string>, t: Transition)
  {
    match t.op
    case Upsert(a) => AddOrUpdateStep(kindOf, httpMethods, t.before, a, t.after, t.flag)
    case Remove(h) => RemoveStep(kindOf, httpMethods, t.before, h, t.removed, t.after, t.flag)
  }

  /** The transitions follow one another, from the annotations `from` to the annotations `to`. */
  ghost predicate Chained(trace: seq<Transition>, from: map<string, Annotation>, to: map<string, Annotation>)
  {
    if |trace| == 0 then from == to
    else
      && trace[0].before == from
      && trace[|trace| - 1].after == to
      && forall i :: 0 <= i < |trace| - 1 ==> trace[i].after == trace[i + 1].before
  }

  function Flags(trace: seq<Transition>): (r: seq<bv32>)
    ensures |r| == |trace|
    ensures forall i :: 0 <= i < |trace| ==> r[i] == trace[i].flag
  {
    if |trace| == 0 then [] else Flags(trace[..|trace| - 1]) + [trace[|trace| - 1].flag]
  }

  function Ops(trace: seq<Transition>): seq<Op>
  {
    if |trace| == 0 then [] else Ops(trace[..|trace| - 1]) + [trace[|trace| - 1].op]
  }

  /** The calls of a chain, one per transition, in order. */
  lemma {:induction false} OpsOfTrace(trace: seq<Transition>)
    ensures |Ops(trace)| == |trace|
    ensures forall i :: 0 <= i < |trace| ==> Ops(trace)[i] == trace[i].op
  {
    if |trace| > 0 {
      OpsOfTrace(trace[..|trace| - 1]);
    }
  }

  /** `addOrUpdateAnnotation` of the entries of `m` under `keys`, in that order. */
  function Upserts(m: map<string, Annotation>, keys: seq<string>): seq<Op>
    requires forall k :: k in keys ==> k in m
  {
    if |keys| == 0 then [] else Upserts(m, keys[..|keys| - 1]) + [Upsert(m[keys[|keys| - 1]])]
  }

  /** `removeAnnotation` of the entries of `m` under `keys`, in that order. */
  function Removals(m: map<string, Annotation>, keys: seq<string>): seq<Op>
    requires forall k :: k in keys ==> k in m
  {
    if |keys| == 0 then [] else Removals(m, keys[..|keys| - 1]) + [Remove(m[keys[|keys| - 1]].handleId)]
  }

  /** `keys` visits every element of `s` exactly once: an iteration order of `s`. */
  ghost predicate Enumerates(keys: seq<string>, s: set<string>)
  {
    && (forall i, j :: 0 <= i < j < |keys| ==> keys[i] != keys[j])
    && (forall k :: k in s <==> k in keys)
  }

  /**
   * What `updateAnnotations(other)` does to annotations `before`, in some
   * iteration order of the three maps it computes: first every added entry
   * (key in `other` only), then every entry in both (value of `other`) goes
   * through `addOrUpdateAnnotation`; then every dropped entry (key in `before`
   * only) goes through `removeAnnotation`; the calls lead from `before` to `after`.
   */
  ghost predicate UpdateAnnotationsTrace<K>(kindOf: map<string, Annotation> -> K, httpMethods: seq<string>,
                                                before: map<string, Annotation>, other: map<string, Annotation>,
                                                addedOrder: seq<string>, commonOrder: seq<string>,
                                                removedOrder: seq<string>, trace: seq<Transition>,
                                                after: map<string, Annotation>)
  {
    && Enumerates(addedOrder, Difference(other, before).Keys)
    && Enumerates(commonOrder, Intersection(other, before).Keys)
    && Enumerates(removedOrder, Difference(before, other).Keys)
    && Ops(trace) == Upserts(Difference(other, before), addedOrder) + Upserts(Intersection(other, before), commonOrder)
                     + Removals(Difference(before, other), removedOrder)
    && Chained(trace, before, after)
    && AllValid(kindOf, httpMethods, trace)
  }

  /**
   * The metamodel's index after one call on `element`: an `addOrUpdateAnnotation`
   * that made a difference files the element under the annotation's handle,
   * and a `removeAnnotation` that found an entry drops it from under that handle.
   */
  ghost function IndexStep(element: object, index: set<(object, string)>, t: Transition): set<(object, string)>
  {
    match t.op
    case Upsert(a) => if Changes(t.before, a) then index + {(element, a.handleId)} else index
    case Remove(h) => if t.removed.Some? then index - {(element, h)} else index
  }

  /** The metamodel's index after the calls of `trace` on `element`, starting from `index`. */
  ghost function IndexAfter(element: object, index: set<(object, string)>, trace: seq<Transition>): set<(object, string)>
  {
    if |trace| == 0 then index
    else IndexStep(element, IndexAfter(element, index, trace[..|trace| - 1]), trace[|trace| - 1])
  }

  lemma IndexAfterStep(element: object, index: set<(object, string)>, trace: seq<Transition>, t: Transition)
    ensures IndexAfter(element, index, trace + [t]) == IndexStep(element, IndexAfter(element, index, trace), t)
  {
    assert (trace + [t])[..|trace|] == trace;
  }

  /** The calls on one element leave the index entries of every other element as they were. */
  lemma {:induction false} IndexAfterTouchesOnlyElement(element: object, index: set<(object, string)>,
                                                         trace: seq<Transition>)
    ensures forall e: object, h: string :: e != element ==>
              ((e, h) in IndexAfter(element, index, trace) <==> (e, h) in index)
  {
    if |trace| > 0 {
      IndexAfterTouchesOnlyElement(element, index, trace[..|trace| - 1]);
    }
  }

  /** Every step raises F_ELEMENT_KIND exactly when it changed the element's kind. */
  lemma StepReportsKindChange<K>(kindOf: map<string, Annotation> -> K, httpMethods: seq<string>, t: Transition)
    requires ValidStep(kindOf, httpMethods, t)
    ensures Carries(t.flag, F_ELEMENT_KIND) <==> kindOf(t.before) != kindOf(t.after)
  {
    match t.op
    case Upsert(a) =>
      if Changes(t.before, a) {
        ChangeFlagDecodes(a.qualifiedName, httpMethods, kindOf(t.before) != kindOf(t.after));
      } else {
        assert t.after == t.before;
      }
    case Remove(h) =>
      if t.removed.Some? {
        ChangeFlagDecodes(t.removed.value, httpMethods, kindOf(t.before) != kindOf(t.after));
      }
  }

  /**
   * Combined with `|=` instead of `+=`, the flags of a chain of calls carry
   * F_ELEMENT_KIND whenever the kind at the end differs from the kind at the
   * start, and only when some call changed the kind.
   */
  lemma CombinedTraceReportsKindChange<K>(kindOf: map<string, Annotation> -> K, httpMethods: seq<string>,
                                             trace: seq<Transition>, from: map<string, Annotation>,
                                             to: map<string, Annotation>)
    requires Chained(trace, from, to)
    requires forall i :: 0 <= i < |trace| ==> ValidStep(kindOf, httpMethods, trace[i])
    ensures kindOf(from) != kindOf(to) ==> Carries(CombineFlags(Flags(trace)), F_ELEMENT_KIND)
    ensures Carries(CombineFlags(Flags(trace)), F_ELEMENT_KIND) ==>
              exists i :: 0 <= i < |trace| && kindOf(trace[i].before) != kindOf(trace[i].after)
  {
    var kinds := KindsAlong(kindOf, from, trace);
    var flags := Flags(trace);
    forall i | 0 <= i < |flags|
      ensures Carries(flags[i], F_ELEMENT_KIND) <==> kinds[i] != kinds[i + 1]
    {
      StepReportsKindChange(kindOf, httpMethods, trace[i]);
    }
    CombinedFlagsReportKindChange(kinds, flags);
    if Carries(CombineFlags(flags), F_ELEMENT_KIND) {
      var i :| 0 <= i < |flags| && kinds[i] != kinds[i + 1];
      assert kindOf(trace[i].before) != kindOf(trace[i].after);
    }
  }

  /** The kinds of the element along a chain of calls: at the start, then after each call. */
  ghost function KindsAlong<K>(kindOf: map<string, Annotation> -> K, from: map<string, Annotation>,
                               trace: seq<Transition>): (kinds: seq<K>)
    requires Chained(trace, from, if |trace| == 0 then from else trace[|trace| - 1].after)
    ensures |kinds| == |trace| + 1
    ensures forall i :: 0 <= i < |trace| ==> kinds[i] == kindOf(trace[i].before) && kinds[i + 1] == kindOf(trace[i].after)
    ensures kinds[0] == kindOf(from) && kinds[|trace|] == kindOf(if |trace| == 0 then from else trace[|trace| - 1].after)
  {
    if |trace| == 0 then [kindOf(from)]
    else
      var prefix := trace[..|trace| - 1];
      var kinds := KindsAlong(kindOf, from, prefix) + [kindOf(trace[|trace| - 1].after)];
      kinds
  }

  /** `singleToMap`: a null annotation gives the empty map, any other one a map filing it under its name. */
  function SingleToMap(annotation: Option<Annotation>): (m: map<string, Annotation>)
    ensures WellKeyed(m)
    ensures annotation.None? ==> m == map[]
    ensures annotation.Some? ==> m.Keys == {annotation.value.qualifiedName} && annotation.value in m.Values
  {
    match annotation
    case None => map[]
    case Some(a) => map[a.qualifiedName := a]
  }

  /** Java `int` arithmetic is arithmetic modulo 2^32; a hash is kept here as its residue. */
  const INT_MODULUS: int := 0x1_0000_0000

  function Pow31(n: nat): (r: nat)
    ensures r >= 1
  {
    if n == 0 then 1 else 31 * Pow31(n - 1)
  }

  /**
   * The hash the Java documentation gives for a string of length n before it
   * wraps around: s[0]*31^(n-1) + s[1]*31^(n-2) + ... + s[n-1].
   */
  ghost function StringHashPolynomial(s: string): int
  {
    if |s| == 0 then 0 else (s[0] as int) * Pow31(|s| - 1) + StringHashPolynomial(s[1..])
  }

  lemma {:induction false} StringHashPolynomialAppend(s: string, c: char)
    ensures StringHashPolynomial(s + [c]) == 31 * StringHashPolynomial(s) + c as int
  {
    if |s| > 0 {
      assert (s + [c])[1..] == s[1..] + [c];
      StringHashPolynomialAppend(s[1..], c);
      assert (s[0] as int) * Pow31(|s|) == 31 * ((s[0] as int) * Pow31(|s| - 1));
    }
  }

  /** Reducing modulo 2^32 before `31 * h + c` or after gives the same residue. */
  lemma ScaledResidue(p: int, c: int)
    ensures (31 * (p % INT_MODULUS) + c) % INT_MODULUS == (31 * p + c) % INT_MODULUS
  {
    var q := p / INT_MODULUS;
    assert 31 * p + c == (31 * (p % INT_MODULUS) + c) + INT_MODULUS * (31 * q);
  }

  /** Reducing modulo 2^32 before adding `a` or after gives the same residue. */
  lemma ShiftedResidue(p: int, a: int)
    ensures (a + p % INT_MODULUS) % INT_MODULUS == (a + p) % INT_MODULUS
  {
    assert a + p == (a + p % INT_MODULUS) + INT_MODULUS * (p / INT_MODULUS);
  }

  /**
   * Java's `String.hashCode`, `h = 31 * h + c` over the characters in `int`
   * arithmetic: the documented polynomial, wrapped to 32 bits.
   */
  function JavaStringHash(s: string): (h: int)
    ensures 0 <= h < INT_MODULUS
    ensures h == StringHashPolynomial(s) % INT_MODULUS
  {
    if |s| == 0 then 0
    else
      var prefix, c := s[..|s| - 1], s[|s| - 1];
      assert s == prefix + [c];
      StringHashPolynomialAppend(prefix, c);
      ScaledResidue(StringHashPolynomial(prefix), c as int);
      (31 * JavaStringHash(prefix) + c as int) % INT_MODULUS
  }

  /** What `equals` and `hashCode` look at: the runtime class and the Java member's handle (None for null). */
  datatype ElementIdentity = ElementIdentity(runtimeClass: string, handleId: Option<string>)

  /** The outcome of a Java call that may throw. */
  datatype Outcome<T> = Normal(value: T) | Thrown(exception: JavaException)

  datatype JavaException = NullPointerException

  /**
   * `equals` as written: with a member on this side and none on the other,
   * it dereferences the other side's null member. (The `this == obj` shortcut
   * is left out: on the same object the comparison below returns true anyway.)
   */
  function EqualsAsWritten(self: ElementIdentity, obj: Option<ElementIdentity>): (r: Outcome<bool>)
    ensures r.Thrown? <==> obj.Some? && obj.value.runtimeClass == self.runtimeClass
                           && self.handleId.Some? && obj.value.handleId.None?
  {
    match obj
    case None => Normal(false)
    case Some(other) =>
      if self.runtimeClass != other.runtimeClass then Normal(false)
      else if self.handleId.None? then Normal(other.handleId.None?)
      else if other.handleId.None? then Thrown(NullPointerException)
      else Normal(self.handleId.value == other.handleId.value)
  }

  /** `equals` as intended: same runtime class, and both members null or both with the same handle. */
  function Equals(self: ElementIdentity, obj: Option<ElementIdentity>): (r: bool)
    ensures r <==> obj.Some? && obj.value.runtimeClass == self.runtimeClass && obj.value.handleId == self.handleId
    ensures EqualsAsWritten(self, obj).Normal? ==> EqualsAsWritten(self, obj).value == r
  {
    match obj
    case None => false
    case Some(other) =>
      && self.runtimeClass == other.runtimeClass
      && (if self.handleId.None? then other.handleId.None?
          else other.handleId.Some? && self.handleId.value == other.handleId.value)
  }

  /**
   * `hashCode`: `31 * 1` plus the hash of the member's handle identifier, 0 for
   * a null member, in `int` arithmetic. The element's annotations and class
   * play no part.
   */
  function HashCode(self: ElementIdentity): (r: int)
    ensures 0 <= r < INT_MODULUS
    ensures self.handleId.None? ==> r == 31
    ensures self.handleId.Some? ==> r == (31 + StringHashPolynomial(self.handleId.value)) % INT_MODULUS
  {
    match self.handleId
    case None => (31 * 1 + 0) % INT_MODULUS
    case Some(id) =>
      ShiftedResidue(StringHashPolynomial(id), 31 * 1);
      (31 * 1 + JavaStringHash(id)) % INT_MODULUS
  }

  /** `equals` is an equivalence relation and `hashCode` agrees with it. */
  lemma EqualsIsEquivalenceAndHashConsistent(a: ElementIdentity, b: ElementIdentity, c: ElementIdentity)
    ensures Equals(a, Some(a))
    ensures Equals(a, Some(b)) ==> Equals(b, Some(a))
    ensures Equals(a, Some(b)) && Equals(b, Some(c)) ==> Equals(a, Some(c))
    ensures Equals(a, Some(b)) ==> HashCode(a) == HashCode(b)
    ensures !Equals(a, None)
  {
  }

  /**
   * The as-written `equals` throws where the intended one answers false: an
   * element whose member has a handle, compared with an element of the same
   * class whose member is null; the reverse comparison answers false.
   */
  lemma EqualsAsWrittenThrowsOnNullMember()
    ensures var withMember := ElementIdentity("JaxrsResourceField", Some("=project/src<p{R.java[R^field"));
            var withoutMember := ElementIdentity("JaxrsResourceField", None);
            && EqualsAsWritten(withMember, Some(withoutMember)) == Thrown(NullPointerException)
            && EqualsAsWritten(withoutMember, Some(withMember)) == Normal(false)
            && !Equals(withMember, Some(withoutMember))
  {
  }

  /**
   * Two elements are equal exactly when they have the same runtime class and
   * the same Java member, whatever their annotations, and equal elements hash
   * alike.
   */
  lemma ElementEqualityIgnoresAnnotations<K>(x: JaxrsJavaElement<K>, y: JaxrsJavaElement<K>)
    ensures Equals(x.Identity(), Some(y.Identity())) <==>
              x.runtimeClass == y.runtimeClass && x.javaElement == y.javaElement
    ensures Equals(x.Identity(), Some(y.Identity())) ==> HashCode(x.Identity()) == HashCode(y.Identity())
  {
    EqualsIsEquivalenceAndHashConsistent(x.Identity(), y.Identity(), y.Identity());
  }

  /** "ab" hashes to 97 * 31 + 98, and an element over a null member hashes to 31. */
  lemma HashExamples()
    ensures JavaStringHash("ab") == 3105
    ensures HashCode(ElementIdentity("JaxrsResourceField", None)) == 31
  {
    assert "ab"[..1] == "a" && "a"[..0] == "";
  }

  class JaxrsJavaElement<K(==)> {
    /** The handle identifier of the underlying Java member; None for a null member. */
    const javaElement: Option<string>
    /** The element's runtime class, which `equals` compares. */
    const runtimeClass: string
    /** The subclass's `getElementKind`, as a function of the annotations. */
    const kindOf: map<string, Annotation> -> K
    const metamodel: Metamodel
    /** The annotations on the Java member, filed by annotation class name. */
    var annotations: map<string, Annotation>

    /** A null annotation map gives an element without annotations; otherwise the element starts with a copy of it. */
    constructor (element: Option<string>, annotations: Option<map<string, Annotation>>, metamodel: Metamodel,
                 runtimeClass: string, kindOf: map<string, Annotation> -> K)
      ensures this.javaElement == element && this.metamodel == metamodel
      ensures this.runtimeClass == runtimeClass && this.kindOf == kindOf
      ensures annotations.None? ==> this.annotations == map[]
      ensures annotations.Some? ==> this.annotations == annotations.value
    {
      this.javaElement := element;
      this.runtimeClass := runtimeClass;
      this.kindOf := kindOf;
      this.metamodel := metamodel;
      this.annotations := map[];
      if annotations.Some? {
        this.annotations := this.annotations + annotations.value;
      }
    }

    /** The annotation filed under `className`, None when there is none. */
    function GetAnnotation(className: string): (r: Option<Annotation>)
      reads this
      ensures r.Some? <==> className in annotations
      ensures r.Some? ==> r.value == annotations[className] && r.value in annotations.Values
    {
      Lookup(annotations, className)
    }

    function HasAnnotation(className: string): (b: bool)
      reads this
      ensures b <==> GetAnnotation(className).Some?
      ensures b <==> className in annotations
    {
      Lookup(annotations, className) != None
    }

    /** The subclass's `getElementKind` on the current annotations. */
    function CurrentKind(): K
      reads this
    {
      kindOf(annotations)
    }

    /** What `equals` and `hashCode` see of this element. */
    function Identity(): (id: ElementIdentity)
      ensures id.runtimeClass == runtimeClass && id.handleId == javaElement
    {
      ElementIdentity(runtimeClass, javaElement)
    }

    /**
     * `qualifyChange`: the flag of the annotation `annotationName`, plus
     * F_ELEMENT_KIND when the kind now differs from `previousKind`.
     */
    method QualifyChange(annotationName: string, previousKind: K) returns (flag: bv32)
      ensures flag == ChangeFlag(annotationName, metamodel.httpMethods, previousKind != CurrentKind())
    {
      flag := F_NONE;
      var currentKind := CurrentKind();
      if annotationName == PATH {
        flag := F_PATH_ANNOTATION;
      } else if annotationName == APPLICATION_PATH {
        flag := F_APPLICATION_PATH_ANNOTATION;
      } else if annotationName == HTTP_METHOD {
        flag := F_HTTP_METHOD_ANNOTATION;
      } else if annotationName == TARGET {
        flag := F_TARGET_ANNOTATION;
      } else if annotationName == RETENTION {
        flag := F_RETENTION_ANNOTATION;
      } else if annotationName == PROVIDER {
        flag := F_PROVIDER_ANNOTATION;
      } else if annotationName == PATH_PARAM {
        flag := F_PATH_PARAM_ANNOTATION;
      } else if annotationName == QUERY_PARAM {
        flag := F_QUERY_PARAM_ANNOTATION;
      } else if annotationName == MATRIX_PARAM {
        flag := F_MATRIX_PARAM_ANNOTATION;
      } else if annotationName == DEFAULT_VALUE {
        flag := F_DEFAULT_VALUE_ANNOTATION;
      } else if annotationName == CONSUMES {
        flag := F_CONSUMES_ANNOTATION;
      } else if annotationName == PRODUCES {
        flag := F_PRODUCES_ANNOTATION;
      } else {
        var httpMethods := metamodel.httpMethods;
        for i := 0 to |httpMethods|
          invariant annotationName !in httpMethods[..i]
          invariant flag == F_NONE
        {
          if httpMethods[i] == annotationName {
            flag := F_HTTP_METHOD_ANNOTATION;
            break;
          }
        }
      }
      if currentKind != previousKind {
        flag := Plus(flag, F_ELEMENT_KIND);
      }
    }

    /**
     * `addOrUpdateAnnotation`: a null annotation changes nothing; otherwise
     * the annotation is filed under its class name, the element is indexed
     * under it when it made a difference, and the change is qualified.
     */
    method AddOrUpdateAnnotation(annotation: Option<Annotation>) returns (flag: bv32)
      modifies this, metamodel`index
      ensures annotation.None? ==> flag == F_NONE && annotations == old(annotations)
      ensures annotation.Some? ==>
                AddOrUpdateStep(kindOf, metamodel.httpMethods, old(annotations), annotation.value, annotations, flag)
      ensures metamodel.index == if annotation.Some? && Changes(old(annotations), annotation.value)
                                 then old(metamodel.index) + {(this as object, annotation.value.handleId)}
                                 else old(metamodel.index)
    {
      if annotation.None? {
        return F_NONE;
      }
      var a := annotation.value;
      var changed := false;
      var previousKind := CurrentKind();
      var annotationName := a.qualifiedName;
      if annotationName in annotations {
        var update := Update(annotations[annotationName], a);
        changed := update.0;
        annotations := annotations[annotationName := update.1];
      } else {
        annotations := annotations[annotationName := a];
        changed := true;
      }
      if changed {
        metamodel.IndexElement(this, a);
        flag := QualifyChange(annotationName, previousKind);
        return;
      }
      return F_NONE;
    }

    /** `removeAnnotation(Annotation)`: removes by the handle of the annotation's JDT element. */
    method RemoveAnnotation(annotation: Annotation) returns (flag: bv32, ghost removed: Option<string>)
      modifies this, metamodel`index
      ensures RemoveStep(kindOf, metamodel.httpMethods, old(annotations), annotation.handleId, removed, annotations, flag)
      ensures metamodel.index == if removed.Some? then old(metamodel.index) - {(this as object, annotation.handleId)}
                                 else old(metamodel.index)
    {
      flag, removed := RemoveAnnotationByHandle(annotation.handleId);
    }

    /**
     * `removeAnnotation(String)`: walks the entries in the map's iteration
     * order and removes the first one whose annotation has the handle,
     * qualifying the change; with no such entry nothing changes.
     */
    method RemoveAnnotationByHandle(handleIdentifier: string) returns (flag: bv32, ghost removed: Option<string>)
      modifies this, metamodel`index
      ensures RemoveStep(kindOf, metamodel.httpMethods, old(annotations), handleIdentifier, removed, annotations, flag)
      ensures metamodel.index == if removed.Some? then old(metamodel.index) - {(this as object, handleIdentifier)}
                                 else old(metamodel.index)
    {
      flag := F_NONE;
      removed := None;
      var unvisited := annotations.Keys;
      while unvisited != {}
        invariant unvisited <= annotations.Keys
        invariant annotations == old(annotations) && metamodel.index == old(metamodel.index)
        invariant forall k :: k in annotations && k !in unvisited ==> annotations[k].handleId != handleIdentifier
        decreases unvisited
      {
        var key :| key in unvisited;
        if annotations[key].handleId == handleIdentifier {
          metamodel.UnindexElement(this, handleIdentifier);
          var previousKind := CurrentKind();
          var annotationName := key;
          annotations := annotations - {key};
          flag := QualifyChange(annotationName, previousKind);
          removed := Some(key);
          return;
        }
        unvisited := unvisited - {key};
      }
    }

    /**
     * `updateAnnotations`: reconciles the annotations with `otherAnnotations`
     * and returns the sum of the flags of every call it makes. When `other`
     * files each annotation under its own name, the element ends up with
     * exactly `other`'s annotations (as long as no two annotations share a
     * handle), and reconciling with an equal such map changes nothing.
     */
    method UpdateAnnotations(otherAnnotations: map<string, Annotation>)
      returns (flags: bv32, ghost addedOrder: seq<string>, ghost commonOrder: seq<string>,
               ghost removedOrder: seq<string>, ghost trace: seq<Transition>)
      modifies this, metamodel`index
      ensures UpdateAnnotationsTrace(kindOf, metamodel.httpMethods, old(annotations), otherAnnotations,
                                     addedOrder, commonOrder, removedOrder, trace, annotations)
      ensures flags == SumFlags(Flags(trace))
      ensures WellKeyed(otherAnnotations) && DistinctHandles(old(annotations) + otherAnnotations) ==>
                annotations == otherAnnotations
      ensures WellKeyed(otherAnnotations) && otherAnnotations == old(annotations) ==>
                flags == F_NONE && annotations == old(annotations)
      ensures metamodel.index == IndexAfter(this, old(metamodel.index), trace)
      ensures WellKeyed(otherAnnotations) && otherAnnotations == old(annotations) ==>
                metamodel.index == old(metamodel.index)
    {
      flags := F_NONE;
      var addedAnnotations := Difference(otherAnnotations, annotations);
      var removedAnnotations := Difference(annotations, otherAnnotations);
      var changedAnnotations := Intersection(otherAnnotations, annotations);
      ghost var initial, initialIndex := annotations, metamodel.index;
      flags, addedOrder, trace := AddOrUpdateEach(addedAnnotations, flags, [], initial, initialIndex);
      ghost var afterAdding, flagsAdding, traceAdding, indexAdding := annotations, flags, trace, metamodel.index;
      flags, commonOrder, trace := AddOrUpdateEach(changedAnnotations, flags, trace, initial, initialIndex);
      ghost var afterUpdating, flagsUpdating, traceUpdating, indexUpdating := annotations, flags, trace, metamodel.index;
      flags, removedOrder, trace := RemoveEach(removedAnnotations, flags, trace, initial, initialIndex);
      if WellKeyed(otherAnnotations) && otherAnnotations == initial {
        ReconcileWithEqualKeepsIndex(initial, otherAnnotations, afterAdding, initialIndex, indexAdding, indexUpdating,
                                     metamodel.index);
      }
      UpdateAnnotationsComposes(kindOf, metamodel.httpMethods, initial, otherAnnotations, afterAdding, afterUpdating,
                                annotations, flagsAdding, flagsUpdating, flags, traceAdding, traceUpdating, trace,
                                addedOrder, commonOrder, removedOrder);
    }

    /**
     * The first two loops of `updateAnnotations`: `addOrUpdateAnnotation` of
     * every entry of `entries`, in some iteration order, adding each flag to
     * the running sum. Entries filed under their own names are merged into
     * the annotations, and when the element already holds them all they
     * change nothing.
     */
    method AddOrUpdateEach(entries: map<string, Annotation>, flags0: bv32,
                           ghost trace0: seq<Transition>, ghost from: map<string, Annotation>,
                           ghost index0: set<(object, string)>)
      returns (flags: bv32, ghost order: seq<string>, ghost trace: seq<Transition>)
      modifies this, metamodel`index
      requires Chained(trace0, from, annotations)
      requires AllValid(kindOf, metamodel.httpMethods, trace0)
      requires flags0 == SumFlags(Flags(trace0))
      requires metamodel.index == IndexAfter(this, index0, trace0)
      ensures Enumerates(order, entries.Keys)
      ensures Ops(trace) == Ops(trace0) + Upserts(entries, order)
      ensures Chained(trace, from, annotations)
      ensures AllValid(kindOf, metamodel.httpMethods, trace)
      ensures flags == SumFlags(Flags(trace))
      ensures WellKeyed(entries) ==> annotations == old(annotations) + entries
      ensures WellKeyed(entries) && SubMap(entries, old(annotations)) ==>
                annotations == old(annotations) && flags == flags0
      ensures metamodel.index == IndexAfter(this, index0, trace)
      ensures WellKeyed(entries) && SubMap(entries, old(annotations)) ==> metamodel.index == old(metamodel.index)
    {
      flags, order, trace := flags0, [], trace0;
      var toDo := entries.Keys;
      UpsertProgressStart(kindOf, metamodel.httpMethods, entries, annotations, from, trace0, flags0);
      while toDo != {}
        invariant UpsertProgress(kindOf, metamodel.httpMethods, entries, old(annotations), from, trace0, flags0,
                                 toDo, order, trace, flags, annotations)
        invariant metamodel.index == IndexAfter(this, index0, trace)
        invariant WellKeyed(entries) && SubMap(entries, old(annotations)) ==> metamodel.index == old(metamodel.index)
        decreases toDo
      {
        var key :| key in toDo;
        ghost var before := annotations;
        var flag := AddOrUpdateAnnotation(Some(entries[key]));
        ghost var step := Transition(Upsert(entries[key]), None, before, annotations, flag);
        IndexAfterStep(this, index0, trace, step);
        UpsertProgressStep(kindOf, metamodel.httpMethods, entries, old(annotations), from, trace0, flags0,
                           toDo, order, trace, flags, key, step);
        trace := trace + [step];
        flags := Plus(flags, flag);
        order := order + [key];
        toDo := toDo - {key};
      }
      UpsertProgressDone(kindOf, metamodel.httpMethods, entries, old(annotations), from, trace0, flags0,
                         order, trace, flags, annotations);
    }

    /**
     * The third loop of `updateAnnotations`: `removeAnnotation` of every entry
     * of `entries`, in some iteration order, adding each flag to the running
     * sum. When the entries are entries of the element and no two of its
     * annotations share a handle, exactly their keys are dropped.
     */
    method RemoveEach(entries: map<string, Annotation>, flags0: bv32,
                      ghost trace0: seq<Transition>, ghost from: map<string, Annotation>,
                      ghost index0: set<(object, string)>)
      returns (flags: bv32, ghost order: seq<string>, ghost trace: seq<Transition>)
      modifies this, metamodel`index
      requires Chained(trace0, from, annotations)
      requires AllValid(kindOf, metamodel.httpMethods, trace0)
      requires flags0 == SumFlags(Flags(trace0))
      requires metamodel.index == IndexAfter(this, index0, trace0)
      ensures Enumerates(order, entries.Keys)
      ensures Ops(trace) == Ops(trace0) + Removals(entries, order)
      ensures Chained(trace, from, annotations)
      ensures AllValid(kindOf, metamodel.httpMethods, trace)
      ensures flags == SumFlags(Flags(trace))
      ensures DistinctHandles(old(annotations)) && SubMap(entries, old(annotations)) ==>
                annotations == old(annotations) - entries.Keys
      ensures entries.Keys == {} ==> annotations == old(annotations) && flags == flags0
      ensures metamodel.index == IndexAfter(this, index0, trace)
      ensures entries.Keys == {} ==> metamodel.index == old(metamodel.index)
    {
      flags, order, trace := flags0, [], trace0;
      var toDo := entries.Keys;
      RemovalProgressStart(kindOf, metamodel.httpMethods, entries, annotations, from, trace0, flags0);
      while toDo != {}
        invariant RemovalProgress(kindOf, metamodel.httpMethods, entries, old(annotations), from, trace0, flags0,
                                  toDo, order, trace, flags, annotations)
        invariant metamodel.index == IndexAfter(this, index0, trace)
        invariant entries.Keys == {} ==> metamodel.index == old(metamodel.index)
        decreases toDo
      {
        var key :| key in toDo;
        ghost var before := annotations;
        var flag;
        ghost var removedKey;
        flag, removedKey := RemoveAnnotation(entries[key]);
        ghost var step := Transition(Remove(entries[key].handleId), removedKey, before, annotations, flag);
        IndexAfterStep(this, index0, trace, step);
        RemovalProgressStep(kindOf, metamodel.httpMethods, entries, old(annotations), from, trace0, flags0,
                            toDo, order, trace, flags, key, step);
        trace := trace + [step];
        flags := Plus(flags, flag);
        order := order + [key];
        toDo := toDo - {key};
      }
      RemovalProgressDone(kindOf, metamodel.httpMethods, entries, old(annotations), from, trace0, flags0,
                          order, trace, flags, annotations);
    }
  }

  /**
   * Where the `addOrUpdateAnnotation` loop over `entries` stands, starting from
   * the annotations `start`: the keys in `order` are done, those in `toDo`
   * are left, and the calls so far extend `trace0` to `trace`.
   */
  ghost predicate UpsertProgress<K>(kindOf: map<string, Annotation> -> K, httpMethods: seq<string>,
                                    entries: map<string, Annotation>, start: map<string, Annotation>,
                                    from: map<string, Annotation>, trace0: seq<Transition>, flags0: bv32,
                                    toDo: set<string>, order: seq<string>, trace: seq<Transition>, flags: bv32,
                                    current: map<string, Annotation>)
  {
    && toDo <= entries.Keys
    && Enumerates(order, entries.Keys - toDo)
    && Ops(trace) == Ops(trace0) + Upserts(entries, order)
    && Chained(trace, from, current)
    && AllValid(kindOf, httpMethods, trace)
    && flags == SumFlags(Flags(trace))
    && (WellKeyed(entries) ==> current == start + Restrict(entries, entries.Keys - toDo))
    && (WellKeyed(entries) && SubMap(entries, start) ==> current == start && flags == flags0)
  }

  /** The entries of `m` under the keys in `keys`. */
  ghost function Restrict(m: map<string, Annotation>, keys: set<string>): (r: map<string, Annotation>)
    ensures r.Keys == m.Keys * keys
    ensures SubMap(r, m)
  {
    map k | k in m && k in keys :: m[k]
  }

  lemma UpsertProgressStart<K>(kindOf: map<string, Annotation> -> K, httpMethods: seq<string>,
                               entries: map<string, Annotation>, start: map<string, Annotation>,
                               from: map<string, Annotation>, trace0: seq<Transition>, flags0: bv32)
    requires Chained(trace0, from, start)
    requires AllValid(kindOf, httpMethods, trace0)
    requires flags0 == SumFlags(Flags(trace0))
    ensures UpsertProgress(kindOf, httpMethods, entries, start, from, trace0, flags0,
                           entries.Keys, [], trace0, flags0, start)
  {
    NothingDoneYet(entries.Keys, Ops(trace0));
    assert Upserts(entries, []) == [];
    NothingMergedYet(start, entries);
  }

  /** Before a loop: no key visited, no call added. */
  lemma NothingDoneYet(keys: set<string>, ops: seq<Op>)
    ensures Enumerates([], keys - keys)
    ensures ops + [] == ops
  {
    assert keys - keys == {};
  }

  lemma NothingMergedYet(start: map<string, Annotation>, entries: map<string, Annotation>)
    ensures start + Restrict(entries, entries.Keys - entries.Keys) == start
  {
    assert Restrict(entries, entries.Keys - entries.Keys) == map[];
  }

  lemma UpsertProgressStep<K>(kindOf: map<string, Annotation> -> K, httpMethods: seq<string>,
                              entries: map<string, Annotation>, start: map<string, Annotation>,
                              from: map<string, Annotation>, trace0: seq<Transition>, flags0: bv32,
                              toDo: set<string>, order: seq<string>, trace: seq<Transition>, flags: bv32,
                              key: string, step: Transition)
    requires UpsertProgress(kindOf, httpMethods, entries, start, from, trace0, flags0,
                            toDo, order, trace, flags, step.before)
    requires key in toDo
    requires step.op == Upsert(entries[key])
    requires ValidStep(kindOf, httpMethods, step)
    ensures UpsertProgress(kindOf, httpMethods, entries, start, from, trace0, flags0,
                           toDo - {key}, order + [key], trace + [step], Plus(flags, step.flag), step.after)
  {
    TraceStep(kindOf, httpMethods, trace, step, from, flags);
    EnumeratesStep(order, entries.Keys, toDo, key);
    UpsertsStep(entries, order, key);
    OpsExtend(trace, step, Ops(trace0), Upserts(entries, order));
    if WellKeyed(entries) {
      MergeListedEntry(start, entries, toDo, key);
      if SubMap(entries, start) && step.before == start {
        UpsertOfHeldEntry(kindOf, httpMethods, start, entries[key], step, flags);
      }
    }
  }

  /** Filing an annotation the element already holds under its name changes nothing and raises no flag. */
  lemma UpsertOfHeldEntry<K>(kindOf: map<string, Annotation> -> K, httpMethods: seq<string>,
                             start: map<string, Annotation>, a: Annotation, step: Transition, flags: bv32)
    requires a.qualifiedName in start && start[a.qualifiedName] == a
    requires step.before == start && step.op == Upsert(a)
    requires ValidStep(kindOf, httpMethods, step)
    ensures step.after == start && Plus(flags, step.flag) == flags
  {
    assert !Changes(start, a);
    assert step.after == step.before && step.flag == F_NONE;
  }

  /** One more call at the end of a chain: the chain, its validity, its flag sum and its calls all grow by it. */
  lemma TraceStep<K>(kindOf: map<string, Annotation> -> K, httpMethods: seq<string>,
                     trace: seq<Transition>, step: Transition, from: map<string, Annotation>, flags: bv32)
    requires Chained(trace, from, step.before)
    requires AllValid(kindOf, httpMethods, trace) && ValidStep(kindOf, httpMethods, step)
    requires flags == SumFlags(Flags(trace))
    ensures Chained(trace + [step], from, step.after)
    ensures AllValid(kindOf, httpMethods, trace + [step])
    ensures Plus(flags, step.flag) == SumFlags(Flags(trace + [step]))
    ensures Ops(trace + [step]) == Ops(trace) + [step.op]
  {
    AppendStep(trace, step, from);
    AppendValidStep(kindOf, httpMethods, trace, step);
  }

  lemma OpsExtend(trace: seq<Transition>, step: Transition, earlier: seq<Op>, done: seq<Op>)
    requires Ops(trace) == earlier + done
    ensures Ops(trace + [step]) == earlier + (done + [step.op])
  {
    assert (trace + [step])[..|trace|] == trace;
    assert Ops(trace + [step]) == (earlier + done) + [step.op];
  }

  lemma EnumeratesStep(order: seq<string>, s: set<string>, toDo: set<string>, key: string)
    requires toDo <= s && key in toDo
    requires Enumerates(order, s - toDo)
    ensures Enumerates(order + [key], s - (toDo - {key}))
  {
  }

  /** Filing one more listed entry under its own name extends the merged part by that entry. */
  lemma MergeListedEntry(start: map<string, Annotation>, entries: map<string, Annotation>, toDo: set<string>,
                         key: string)
    requires WellKeyed(entries) && key in toDo && key in entries
    ensures (start + Restrict(entries, entries.Keys - toDo))[entries[key].qualifiedName := entries[key]]
              == start + Restrict(entries, entries.Keys - (toDo - {key}))
  {
    assert Restrict(entries, entries.Keys - (toDo - {key})) == Restrict(entries, entries.Keys - toDo)[key := entries[key]];
    MergeOne(start, Restrict(entries, entries.Keys - toDo), key, entries[key]);
  }

  lemma UpsertProgressDone<K>(kindOf: map<string, Annotation> -> K, httpMethods: seq<string>,
                              entries: map<string, Annotation>, start: map<string, Annotation>,
                              from: map<string, Annotation>, trace0: seq<Transition>, flags0: bv32,
                              order: seq<string>, trace: seq<Transition>, flags: bv32,
                              current: map<string, Annotation>)
    requires UpsertProgress(kindOf, httpMethods, entries, start, from, trace0, flags0,
                            {}, order, trace, flags, current)
    ensures Enumerates(order, entries.Keys)
    ensures WellKeyed(entries) ==> current == start + entries
  {
    assert entries.Keys - {} == entries.Keys;
    assert Restrict(entries, entries.Keys) == entries;
  }

  /**
   * Where the `removeAnnotation` loop over `entries` stands, starting from
   * the annotations `start`: the keys in `order` are done, those in `toDo`
   * are left, and the calls so far extend `trace0` to `trace`.
   */
  ghost predicate RemovalProgress<K>(kindOf: map<string, Annotation> -> K, httpMethods: seq<string>,
                                     entries: map<string, Annotation>, start: map<string, Annotation>,
                                     from: map<string, Annotation>, trace0: seq<Transition>, flags0: bv32,
                                     toDo: set<string>, order: seq<string>, trace: seq<Transition>, flags: bv32,
                                     current: map<string, Annotation>)
  {
    && toDo <= entries.Keys
    && Enumerates(order, entries.Keys - toDo)
    && Ops(trace) == Ops(trace0) + Removals(entries, order)
    && Chained(trace, from, current)
    && AllValid(kindOf, httpMethods, trace)
    && flags == SumFlags(Flags(trace))
    && (DistinctHandles(start) && SubMap(entries, start) ==> current == start - (entries.Keys - toDo))
    && (entries.Keys == {} ==> current == start && flags == flags0)
  }

  lemma RemovalProgressStart<K>(kindOf: map<string, Annotation> -> K, httpMethods: seq<string>,
                                entries: map<string, Annotation>, start: map<string, Annotation>,
                                from: map<string, Annotation>, trace0: seq<Transition>, flags0: bv32)
    requires Chained(trace0, from, start)
    requires AllValid(kindOf, httpMethods, trace0)
    requires flags0 == SumFlags(Flags(trace0))
    ensures RemovalProgress(kindOf, httpMethods, entries, start, from, trace0, flags0,
                            entries.Keys, [], trace0, flags0, start)
  {
    NothingDoneYet(entries.Keys, Ops(trace0));
    assert Removals(entries, []) == [];
    assert start - (entries.Keys - entries.Keys) == start;
  }

  lemma RemovalProgressStep<K>(kindOf: map<string, Annotation> -> K, httpMethods: seq<string>,
                               entries: map<string, Annotation>, start: map<string, Annotation>,
                               from: map<string, Annotation>, trace0: seq<Transition>, flags0: bv32,
                               toDo: set<string>, order: seq<string>, trace: seq<Transition>, flags: bv32,
                               key: string, step: Transition)
    requires RemovalProgress(kindOf, httpMethods, entries, start, from, trace0, flags0,
                             toDo, order, trace, flags, step.before)
    requires key in toDo
    requires step.op == Remove(entries[key].handleId)
    requires ValidStep(kindOf, httpMethods, step)
    ensures RemovalProgress(kindOf, httpMethods, entries, start, from, trace0, flags0,
                            toDo - {key}, order + [key], trace + [step], Plus(flags, step.flag), step.after)
  {
    TraceStep(kindOf, httpMethods, trace, step, from, flags);
    EnumeratesStep(order, entries.Keys, toDo, key);
    RemovalsStep(entries, order, key);
    OpsExtend(trace, step, Ops(trace0), Removals(entries, order));
    assert entries.Keys - (toDo - {key}) == (entries.Keys - toDo) + {key};
    if DistinctHandles(start) && SubMap(entries, start) {
      RemoveListedEntry(kindOf, httpMethods, start, entries, entries.Keys - toDo, key,
                        step.before, step.removed, step.after, step.flag);
    }
  }

  lemma RemovalProgressDone<K>(kindOf: map<string, Annotation> -> K, httpMethods: seq<string>,
                               entries: map<string, Annotation>, start: map<string, Annotation>,
                               from: map<string, Annotation>, trace0: seq<Transition>, flags0: bv32,
                               order: seq<string>, trace: seq<Transition>, flags: bv32,
                               current: map<string, Annotation>)
    requires RemovalProgress(kindOf, httpMethods, entries, start, from, trace0, flags0,
                             {}, order, trace, flags, current)
    ensures Enumerates(order, entries.Keys)
    ensures DistinctHandles(start) && SubMap(entries, start) ==> current == start - entries.Keys
  {
    assert entries.Keys - {} == entries.Keys;
  }


  /**
   * The three loops of `updateAnnotations` together: their calls, in order,
   * form one chain from the initial annotations, whose flags the running sum
   * adds up; with `other` filed under its own names they leave exactly
   * `other` (when no two annotations share a handle), and nothing changes
   * when `other` equals the initial annotations.
   */
  lemma UpdateAnnotationsComposes<K>(kindOf: map<string, Annotation> -> K, httpMethods: seq<string>,
                                     initial: map<string, Annotation>, other: map<string, Annotation>,
                                     afterAdding: map<string, Annotation>, afterUpdating: map<string, Annotation>,
                                     after: map<string, Annotation>,
                                     flagsAdding: bv32, flagsUpdating: bv32, flags: bv32,
                                     traceAdding: seq<Transition>, traceUpdating: seq<Transition>,
                                     trace: seq<Transition>,
                                     addedOrder: seq<string>, commonOrder: seq<string>, removedOrder: seq<string>)
    requires Enumerates(addedOrder, Difference(other, initial).Keys)
    requires Ops(traceAdding) == Ops([]) + Upserts(Difference(other, initial), addedOrder)
    requires WellKeyed(Difference(other, initial)) ==> afterAdding == initial + Difference(other, initial)
    requires WellKeyed(Difference(other, initial)) && SubMap(Difference(other, initial), initial) ==>
               afterAdding == initial && flagsAdding == F_NONE
    requires Enumerates(commonOrder, Intersection(other, initial).Keys)
    requires Ops(traceUpdating) == Ops(traceAdding) + Upserts(Intersection(other, initial), commonOrder)
    requires WellKeyed(Intersection(other, initial)) ==>
               afterUpdating == afterAdding + Intersection(other, initial)
    requires WellKeyed(Intersection(other, initial)) && SubMap(Intersection(other, initial), afterAdding) ==>
               afterUpdating == afterAdding && flagsUpdating == flagsAdding
    requires Enumerates(removedOrder, Difference(initial, other).Keys)
    requires Ops(trace) == Ops(traceUpdating) + Removals(Difference(initial, other), removedOrder)
    requires Chained(trace, initial, after)
    requires AllValid(kindOf, httpMethods, trace)
    requires DistinctHandles(afterUpdating) && SubMap(Difference(initial, other), afterUpdating) ==>
               after == afterUpdating - Difference(initial, other).Keys
    requires Difference(initial, other).Keys == {} ==> after == afterUpdating && flags == flagsUpdating
    ensures UpdateAnnotationsTrace(kindOf, httpMethods, initial, other, addedOrder, commonOrder, removedOrder,
                                   trace, after)
    ensures WellKeyed(other) && DistinctHandles(initial + other) ==> after == other
    ensures WellKeyed(other) && other == initial ==> flags == F_NONE && after == initial
  {
    ComposedTrace(kindOf, httpMethods, initial, other, after, traceAdding, traceUpdating, trace,
                  addedOrder, commonOrder, removedOrder);
    if WellKeyed(other) {
      ReconcileWithWellKeyed(initial, other, afterAdding, afterUpdating, after);
      if other == initial {
        ReconcileWithEqual(initial, afterAdding, afterUpdating, after, flagsAdding, flagsUpdating, flags);
      }
    }
  }

  /** The calls of the three loops, one after the other, are the calls `updateAnnotations` makes. */
  lemma ComposedTrace<K>(kindOf: map<string, Annotation> -> K, httpMethods: seq<string>,
                         initial: map<string, Annotation>, other: map<string, Annotation>,
                         after: map<string, Annotation>, traceAdding: seq<Transition>,
                         traceUpdating: seq<Transition>, trace: seq<Transition>,
                         addedOrder: seq<string>, commonOrder: seq<string>, removedOrder: seq<string>)
    requires Enumerates(addedOrder, Difference(other, initial).Keys)
    requires Ops(traceAdding) == Ops([]) + Upserts(Difference(other, initial), addedOrder)
    requires Enumerates(commonOrder, Intersection(other, initial).Keys)
    requires Ops(traceUpdating) == Ops(traceAdding) + Upserts(Intersection(other, initial), commonOrder)
    requires Enumerates(removedOrder, Difference(initial, other).Keys)
    requires Ops(trace) == Ops(traceUpdating) + Removals(Difference(initial, other), removedOrder)
    requires Chained(trace, initial, after)
    requires AllValid(kindOf, httpMethods, trace)
    ensures UpdateAnnotationsTrace(kindOf, httpMethods, initial, other, addedOrder, commonOrder, removedOrder,
                                   trace, after)
  {
    var added := Upserts(Difference(other, initial), addedOrder);
    assert Ops([]) + added == [] + added == added;
    assert Ops(traceAdding) == added;
  }

  /** With `other` filed under its own names, the three loops merge `other` in and then drop the keys it lacks. */
  lemma ReconcileWithWellKeyed(initial: map<string, Annotation>, other: map<string, Annotation>,
                               afterAdding: map<string, Annotation>, afterUpdating: map<string, Annotation>,
                               after: map<string, Annotation>)
    requires WellKeyed(other)
    requires WellKeyed(Difference(other, initial)) ==> afterAdding == initial + Difference(other, initial)
    requires WellKeyed(Intersection(other, initial)) ==>
               afterUpdating == afterAdding + Intersection(other, initial)
    requires DistinctHandles(afterUpdating) && SubMap(Difference(initial, other), afterUpdating) ==>
               after == afterUpdating - Difference(initial, other).Keys
    ensures afterUpdating == initial + other
    ensures DistinctHandles(initial + other) ==> after == other
  {
    ReconcileMaps(initial, other);
    assert WellKeyed(Difference(other, initial)) && WellKeyed(Intersection(other, initial));
  }

  /** Reconciling with the annotations the element already holds changes nothing and raises no flag. */
  lemma ReconcileWithEqual(initial: map<string, Annotation>,
                           afterAdding: map<string, Annotation>, afterUpdating: map<string, Annotation>,
                           after: map<string, Annotation>, flagsAdding: bv32, flagsUpdating: bv32, flags: bv32)
    requires WellKeyed(initial)
    requires WellKeyed(Difference(initial, initial)) && SubMap(Difference(initial, initial), initial) ==>
               afterAdding == initial && flagsAdding == F_NONE
    requires WellKeyed(Intersection(initial, initial)) && SubMap(Intersection(initial, initial), afterAdding) ==>
               afterUpdating == afterAdding && flagsUpdating == flagsAdding
    requires Difference(initial, initial).Keys == {} ==> after == afterUpdating && flags == flagsUpdating
    ensures flags == F_NONE && after == initial
  {
    assert Difference(initial, initial).Keys == {};
    assert Intersection(initial, initial) == initial;
  }

  /**
   * Reconciling with an equal map that files each annotation under its own
   * name neither files nor drops any index entry.
   */
  lemma ReconcileWithEqualKeepsIndex(initial: map<string, Annotation>, other: map<string, Annotation>,
                                     afterAdding: map<string, Annotation>, index0: set<(object, string)>,
                                     indexAdding: set<(object, string)>, indexUpdating: set<(object, string)>,
                                     index: set<(object, string)>)
    requires WellKeyed(other) && other == initial
    requires WellKeyed(Difference(other, initial)) && SubMap(Difference(other, initial), initial) ==>
               afterAdding == initial && indexAdding == index0
    requires WellKeyed(Intersection(other, initial)) && SubMap(Intersection(other, initial), afterAdding) ==>
               indexUpdating == indexAdding
    requires Difference(initial, other).Keys == {} ==> index == indexUpdating
    ensures index == index0
  {
    assert Difference(initial, initial).Keys == {};
    assert Intersection(initial, initial) == initial;
  }

  /** Every call of the chain did what its operation promises. */
  ghost predicate AllValid<K>(kindOf: map<string, Annotation> -> K, httpMethods: seq<string>, trace: seq<Transition>)
  {
    forall i :: 0 <= i < |trace| ==> ValidStep(kindOf, httpMethods, trace[i])
  }

  lemma AppendValidStep<K>(kindOf: map<string, Annotation> -> K, httpMethods: seq<string>,
                           trace: seq<Transition>, step: Transition)
    requires AllValid(kindOf, httpMethods, trace) && ValidStep(kindOf, httpMethods, step)
    ensures AllValid(kindOf, httpMethods, trace + [step])
  {
    forall i | 0 <= i < |trace| + 1 ensures ValidStep(kindOf, httpMethods, (trace + [step])[i]) {
      if i < |trace| {
        assert (trace + [step])[i] == trace[i];
      }
    }
  }

  /**
   * Removing by the handle of a listed entry that is still present removes
   * that very entry, when no two annotations of the element share a handle.
   */
  lemma RemoveListedEntry<K>(kindOf: map<string, Annotation> -> K, httpMethods: seq<string>,
                             initial: map<string, Annotation>, entries: map<string, Annotation>,
                             removedKeys: set<string>, key: string, before: map<string, Annotation>,
                             removed: Option<string>, after: map<string, Annotation>, flag: bv32)
    requires DistinctHandles(initial) && SubMap(entries, initial)
    requires key in entries && key !in removedKeys
    requires before == initial - removedKeys
    requires RemoveStep(kindOf, httpMethods, before, entries[key].handleId, removed, after, flag)
    ensures removed == Some(key)
    ensures after == initial - (removedKeys + {key})
  {
    assert key in before && before[key].handleId == entries[key].handleId;
  }

  lemma RemovalsOfTwo(m: map<string, Annotation>, first: string, second: string)
    requires first in m && second in m
    ensures Removals(m, [first, second]) == [Remove(m[first].handleId), Remove(m[second].handleId)]
  {
    assert [first, second][..1] == [first];
    assert [first][..0] == [];
    assert Removals(m, [first]) == Removals(m, []) + [Remove(m[first].handleId)];
    assert Removals(m, [first, second]) == Removals(m, [first]) + [Remove(m[second].handleId)];
  }

  /** Removing by a handle that exactly one entry has removes that entry, whatever handles the other entries share. */
  lemma RemoveByUniqueHandle<K>(kindOf: map<string, Annotation> -> K, httpMethods: seq<string>,
                                before: map<string, Annotation>, key: string, t: Transition)
    requires key in before
    requires forall k :: k in before && before[k].handleId == before[key].handleId ==> k == key
    requires t.before == before && t.op == Remove(before[key].handleId)
    requires ValidStep(kindOf, httpMethods, t)
    ensures t.removed == Some(key) && t.after == before - {key}
    ensures t.flag == ChangeFlag(key, httpMethods, kindOf(before) != kindOf(before - {key}))
  {
  }

  lemma MergeOne(m: map<string, Annotation>, d: map<string, Annotation>, key: string, a: Annotation)
    ensures (m + d)[key := a] == m + d[key := a]
  {
  }

  lemma UpsertsStep(m: map<string, Annotation>, keys: seq<string>, key: string)
    requires forall k :: k in keys ==> k in m
    requires key in m
    ensures Upserts(m, keys + [key]) == Upserts(m, keys) + [Upsert(m[key])]
  {
    assert (keys + [key])[..|keys|] == keys;
  }

  lemma RemovalsStep(m: map<string, Annotation>, keys: seq<string>, key: string)
    requires forall k :: k in keys ==> k in m
    requires key in m
    ensures Removals(m, keys + [key]) == Removals(m, keys) + [Remove(m[key].handleId)]
  {
    assert (keys + [key])[..|keys|] == keys;
  }

  /**
   * The three maps `updateAnnotations` computes put the annotations back
   * together: adding the new and the common entries of `other` gives
   * `initial + other`, whose entries under the dropped keys are still those
   * of `initial`, and dropping those keys leaves `other`.
   */
  lemma ReconcileMaps(initial: map<string, Annotation>, other: map<string, Annotation>)
    ensures (initial + Difference(other, initial)) + Intersection(other, initial) == initial + other
    ensures SubMap(Difference(initial, other), initial + other)
    ensures (initial + other) - Difference(initial, other).Keys == other
  {
  }

  /** Appending a step that starts where the chain ends extends the chain, its flags and its calls. */
  lemma AppendStep(trace: seq<Transition>, step: Transition, from: map<string, Annotation>)
    requires Chained(trace, from, step.before)
    ensures Chained(trace + [step], from, step.after)
    ensures Flags(trace + [step]) == Flags(trace) + [step.flag]
    ensures SumFlags(Flags(trace + [step])) == Plus(SumFlags(Flags(trace)), step.flag)
    ensures Ops(trace + [step]) == Ops(trace) + [step.op]
  {
    var t := trace + [step];
    assert t[..|t| - 1] == trace;
    assert Flags(t)[..|t| - 1] == Flags(trace);
  }
}
