/**
 * A JAX-RS resource field: a field of a resource class that receives a
 * @PathParam, @QueryParam or @MatrixParam value, possibly with a
 * @DefaultValue. Its kind follows from which of those annotations it
 * carries, and it is marked for removal once it carries none of the three.
 */
module JaxrsResourceFields {
  import opened Annotations
  import opened DeltaFlags
  import opened Metamodels
  import opened JaxrsJavaElements

  /** The element kinds a resource field can have. */
  datatype FieldKind = PathParamField | QueryParamField | MatrixParamField | Undefined

  /**
   * The element categories of the metamodel: RESOURCE_FIELD, and the
   * categories of the other kinds of element, which are not part of this model.
   */
  datatype ElementCategory = ResourceField | OtherCategory

  /** The runtime class `equals` compares for resource fields. */
  const RESOURCE_FIELD_CLASS := "JaxrsResourceField"

  /** `getElementCategory`: a resource field is always in the RESOURCE_FIELD category. */
  function GetElementCategory(): (c: ElementCategory)
    ensures c == ResourceField
  {
    ResourceField
  }

  /** `getPathParamAnnotation`: the @PathParam annotation, None when the field has none. */
  function GetPathParamAnnotation(annotations: map<string, Annotation>): (r: Option<Annotation>)
    ensures r.Some? <==> PATH_PARAM in annotations
    ensures r.Some? ==> r.value == annotations[PATH_PARAM]
  {
    Lookup(annotations, PATH_PARAM)
  }

  /** `getQueryParamAnnotation`: the @QueryParam annotation, None when the field has none. */
  function GetQueryParamAnnotation(annotations: map<string, Annotation>): (r: Option<Annotation>)
    ensures r.Some? <==> QUERY_PARAM in annotations
    ensures r.Some? ==> r.value == annotations[QUERY_PARAM]
  {
    Lookup(annotations, QUERY_PARAM)
  }

  /** `getMatrixParamAnnotation`: the @MatrixParam annotation, None when the field has none. */
  function GetMatrixParamAnnotation(annotations: map<string, Annotation>): (r: Option<Annotation>)
    ensures r.Some? <==> MATRIX_PARAM in annotations
    ensures r.Some? ==> r.value == annotations[MATRIX_PARAM]
  {
    Lookup(annotations, MATRIX_PARAM)
  }

  /** `getDefaultValueAnnotation`: the @DefaultValue annotation, None when the field has none. */
  function GetDefaultValueAnnotation(annotations: map<string, Annotation>): (r: Option<Annotation>)
    ensures r.Some? <==> DEFAULT_VALUE in annotations
    ensures r.Some? ==> r.value == annotations[DEFAULT_VALUE]
  {
    Lookup(annotations, DEFAULT_VALUE)
  }

  /**
   * `getElementKind`: @PathParam wins over @QueryParam, which wins over
   * @MatrixParam; a field with none of the three is UNDEFINED.
   */
  function ElementKind(annotations: map<string, Annotation>): (k: FieldKind)
    ensures k == PathParamField <==> PATH_PARAM in annotations
    ensures k == QueryParamField <==> PATH_PARAM !in annotations && QUERY_PARAM in annotations
    ensures k == MatrixParamField <==>
              PATH_PARAM !in annotations && QUERY_PARAM !in annotations && MATRIX_PARAM in annotations
    ensures k == Undefined <==>
              PATH_PARAM !in annotations && QUERY_PARAM !in annotations && MATRIX_PARAM !in annotations
  {
    if GetPathParamAnnotation(annotations).Some? then PathParamField
    else if GetQueryParamAnnotation(annotations).Some? then QueryParamField
    else if GetMatrixParamAnnotation(annotations).Some? then MatrixParamField
    else Undefined
  }

  /** `isMarkedForRemoval`: the field carries none of @PathParam, @QueryParam and @MatrixParam. */
  function IsMarkedForRemoval(annotations: map<string, Annotation>): (b: bool)
    ensures b <==> PATH_PARAM !in annotations && QUERY_PARAM !in annotations && MATRIX_PARAM !in annotations
  {
    var hasPathParamAnnotation := Lookup(annotations, PATH_PARAM).Some?;
    var hasQueryParamAnnotation := Lookup(annotations, QUERY_PARAM).Some?;
    var hasMatrixParamAnnotation := Lookup(annotations, MATRIX_PARAM).Some?;
    !(hasPathParamAnnotation || hasQueryParamAnnotation || hasMatrixParamAnnotation)
  }

  /** A field is marked for removal exactly when its kind is UNDEFINED. */
  lemma MarkedForRemovalIffUndefined(annotations: map<string, Annotation>)
    ensures IsMarkedForRemoval(annotations) <==> ElementKind(annotations) == Undefined
  {
  }

  /**
   * The constructor: a resource field element over the Java field, whose
   * kind is the resource field's `getElementKind`.
   */
  method NewResourceField(javaField: Option<string>, annotations: Option<map<string, Annotation>>,
                          metamodel: Metamodel)
    returns (field: JaxrsJavaElement<FieldKind>)
    ensures fresh(field)
    ensures field.javaElement == javaField && field.metamodel == metamodel
    ensures field.runtimeClass == RESOURCE_FIELD_CLASS && field.kindOf == ElementKind
    ensures field.annotations == if annotations.Some? then annotations.value else map[]
  {
    field := new JaxrsJavaElement(javaField, annotations, metamodel, RESOURCE_FIELD_CLASS, ElementKind);
  }

  /** @DefaultValue has no say in the kind: adding, replacing or dropping it leaves the kind as it was. */
  lemma DefaultValueNeverChangesKind(annotations: map<string, Annotation>, a: Annotation)
    ensures ElementKind(annotations[DEFAULT_VALUE := a]) == ElementKind(annotations)
    ensures ElementKind(annotations - {DEFAULT_VALUE}) == ElementKind(annotations)
  {
  }

  /**
   * A change of @DefaultValue on a resource field is reported as
   * F_DEFAULT_VALUE_ANNOTATION alone, without F_ELEMENT_KIND, whether the
   * annotation is added, updated or removed.
   */
  lemma DefaultValueChangeFlag(httpMethods: seq<string>, t: Transition)
    requires ValidStep(ElementKind, httpMethods, t)
    requires t.op.Upsert? ==> t.op.annotation.qualifiedName == DEFAULT_VALUE && Changes(t.before, t.op.annotation)
    requires t.op.Remove? ==> t.removed == Some(DEFAULT_VALUE)
    ensures t.flag == F_DEFAULT_VALUE_ANNOTATION
    ensures Lacks(t.flag, F_ELEMENT_KIND)
    ensures ElementKind(t.after) == ElementKind(t.before)
  {
    match t.op
    case Upsert(a) =>
      DefaultValueNeverChangesKind(t.before, a);
      AnnotationFlagOfKnownName(DEFAULT_VALUE, httpMethods);
    case Remove(h) =>
      DefaultValueNeverChangesKind(t.before, t.before[DEFAULT_VALUE]);
      AnnotationFlagOfKnownName(DEFAULT_VALUE, httpMethods);
  }

  /**
   * Adding @PathParam to a field that carries none of the three parameter
   * annotations makes it a PATH_PARAM_FIELD, and the change is reported as
   * F_PATH_PARAM_ANNOTATION together with F_ELEMENT_KIND.
   */
  lemma PathParamOnBareField(httpMethods: seq<string>, before: map<string, Annotation>, a: Annotation,
                             after: map<string, Annotation>, flag: bv32)
    requires IsMarkedForRemoval(before)
    requires a.qualifiedName == PATH_PARAM
    requires AddOrUpdateStep(ElementKind, httpMethods, before, a, after, flag)
    ensures ElementKind(after) == PathParamField && !IsMarkedForRemoval(after)
    ensures flag == F_PATH_PARAM_ANNOTATION | F_ELEMENT_KIND
    ensures Carries(flag, F_PATH_PARAM_ANNOTATION) && Carries(flag, F_ELEMENT_KIND)
  {
    ChangeFlagDecodes(PATH_PARAM, httpMethods, true);
    AnnotationFlagOfKnownName(PATH_PARAM, httpMethods);
  }

  /**
   * The kind follows the parameter annotation of highest priority: on a field
   * with @PathParam, adding, updating or removing @QueryParam or @MatrixParam
   * leaves the kind PATH_PARAM_FIELD, so the flag never carries F_ELEMENT_KIND.
   */
  lemma LowerPriorityParamKeepsKind(httpMethods: seq<string>, t: Transition)
    requires ValidStep(ElementKind, httpMethods, t)
    requires PATH_PARAM in t.before
    requires t.op.Upsert? ==> t.op.annotation.qualifiedName in {QUERY_PARAM, MATRIX_PARAM}
    requires t.op.Remove? ==> t.removed.Some? ==> t.removed.value in {QUERY_PARAM, MATRIX_PARAM}
    ensures ElementKind(t.before) == PathParamField && ElementKind(t.after) == PathParamField
    ensures Lacks(t.flag, F_ELEMENT_KIND)
  {
    StepReportsKindChange(ElementKind, httpMethods, t);
  }

  /** A field with both @PathParam (handle "h1") and @QueryParam (handle "h2"). */
  function TwoParamField(): (m: map<string, Annotation>)
    ensures WellKeyed(m) && DistinctHandles(m)
    ensures ElementKind(m) == PathParamField
  {
    map[PATH_PARAM := Annotation(PATH_PARAM, "h1", map[]),
        QUERY_PARAM := Annotation(QUERY_PARAM, "h2", map[])]
  }

  /**
   * `updateAnnotations` with an empty map on a field with @PathParam and
   * @QueryParam, when the removal loop meets @PathParam first: each removal
   * changes the kind (PATH_PARAM_FIELD, then QUERY_PARAM_FIELD, then
   * UNDEFINED) and raises F_ELEMENT_KIND, so the `+=` sum carries the bit
   * into the next one and loses it, though the kind did change; `|=` keeps it.
   */
  lemma SummedFlagsLoseKindChange(httpMethods: seq<string>, trace: seq<Transition>, after: map<string, Annotation>)
    requires UpdateAnnotationsTrace(ElementKind, httpMethods, TwoParamField(), map[], [], [],
                                    [PATH_PARAM, QUERY_PARAM], trace, after)
    ensures after == map[] && ElementKind(after) == Undefined
    ensures SumFlags(Flags(trace)) == F_PATH_PARAM_ANNOTATION | F_QUERY_PARAM_ANNOTATION | 2 * F_ELEMENT_KIND
    ensures Lacks(SumFlags(Flags(trace)), F_ELEMENT_KIND)
    ensures Carries(CombineFlags(Flags(trace)), F_ELEMENT_KIND)
  {
    var before := TwoParamField();
    TwoRemovals(httpMethods, before, PATH_PARAM, QUERY_PARAM, trace, after);
    AnnotationFlagOfKnownName(PATH_PARAM, httpMethods);
    AnnotationFlagOfKnownName(QUERY_PARAM, httpMethods);
    assert Flags(trace) == [trace[0].flag, trace[1].flag];
    assert trace[0].flag == 0x81 && trace[1].flag == 0x101;
    SumOfTwo(0x81, 0x101);
    CombinedTraceReportsKindChange(ElementKind, httpMethods, trace, before, after);
  }

  /** In the other iteration order the kind bit survives: the first removal leaves the kind as it was. */
  lemma OtherOrderKeepsKindChange(httpMethods: seq<string>, trace: seq<Transition>, after: map<string, Annotation>)
    requires UpdateAnnotationsTrace(ElementKind, httpMethods, TwoParamField(), map[], [], [],
                                    [QUERY_PARAM, PATH_PARAM], trace, after)
    ensures after == map[]
    ensures SumFlags(Flags(trace)) == F_QUERY_PARAM_ANNOTATION | F_PATH_PARAM_ANNOTATION | F_ELEMENT_KIND
    ensures Carries(SumFlags(Flags(trace)), F_ELEMENT_KIND)
  {
    TwoRemovals(httpMethods, TwoParamField(), QUERY_PARAM, PATH_PARAM, trace, after);
    AnnotationFlagOfKnownName(PATH_PARAM, httpMethods);
    AnnotationFlagOfKnownName(QUERY_PARAM, httpMethods);
    assert Flags(trace) == [trace[0].flag, trace[1].flag];
    assert trace[0].flag == 0x100 && trace[1].flag == 0x81;
    SumOfTwo(0x100, 0x81);
  }

  /**
   * The two removals `updateAnnotations` makes on TwoParamField with an empty
   * map, `first` then `second`: each drops its own entry and qualifies the change.
   */
  lemma TwoRemovals(httpMethods: seq<string>, before: map<string, Annotation>, first: string, second: string,
                    trace: seq<Transition>, after: map<string, Annotation>)
    requires before == TwoParamField()
    requires first in before && second in before && first != second
    requires UpdateAnnotationsTrace(ElementKind, httpMethods, before, map[], [], [], [first, second], trace, after)
    ensures |trace| == 2 && after == map[]
    ensures trace[0].flag == ChangeFlag(first, httpMethods, ElementKind(before) != ElementKind(before - {first}))
    ensures trace[1].flag == ChangeFlag(second, httpMethods, ElementKind(before - {first}) != Undefined)
  {
    var removals := Removals(Difference(before, map[]), [first, second]);
    assert Difference(before, map[]) == before;
    assert Upserts(Difference(map[], before), []) == [];
    assert Upserts(Intersection(map[], before), []) == [];
    assert Ops(trace) == removals;
    RemovalsOfTwo(before, first, second);
    OpsOfTrace(trace);
    assert |trace| == 2;
    assert ValidStep(ElementKind, httpMethods, trace[0]) && ValidStep(ElementKind, httpMethods, trace[1]);
    RemoveByUniqueHandle(ElementKind, httpMethods, before, first, trace[0]);
    RemoveByUniqueHandle(ElementKind, httpMethods, before - {first}, second, trace[1]);
    assert before - {first} - {second} == map[];
  }
}
