# JAX-RS Java elements and resource fields, in Dafny

This project models the core of the JAX-RS metamodel of the JBoss Tools web
services plugin: how an element of the metamodel keeps the annotations found
on its Java member, and how resource fields derive their kind from them.

- `JaxrsJavaElement` (`jaxrs_java_element.dfy`) is a class.
  - Its state is the annotation map, filed by annotation class name.
  - The operations are the constructor, `getAnnotation` and `hasAnnotation`,
    and `addOrUpdateAnnotation`.
  - Removal comes in both overloads (by annotation and by handle).
  - `updateAnnotations` reconciles the map with another one.
  - `qualifyChange` computes the change flags that each of these returns.
  - `equals` and `hashCode` are modelled on the element's identity: its
    runtime class and the handle of its Java member. A Java `int` hash is
    kept as its residue modulo 2^32.
  - The element kind is a parameter of the class: `kindOf` is the
    subclass's `getElementKind`, a function of the annotations.
- `Annotation.update` is abstract. It reports a change exactly when the
  incoming annotation differs from the stored one, and the stored one becomes
  the incoming one.
- The metamodel (`metamodel.dfy`) contributes two things:
  - the Java class names of the HTTP methods it knows, which `qualifyChange`
    searches;
  - its index, kept as a ghost set of (element, annotation handle) pairs.
    `IndexAfter` replays a trace of calls on that set, and the update
    methods state the index they leave in its terms.
- The change flags (`delta_flags.dfy`) are Java `int`s, so they are 32-bit
  vectors and `+=` wraps around.
- `updateAnnotations` iterates over hash maps, so each loop picks its keys in
  an arbitrary order. The method returns that order as ghost values, together
  with a ghost trace of every call it made: the operation, the map before and
  after, and the flag.
- `JaxrsResourceField` (`jaxrs_resource_field.dfy`) is pure.
  - Its accessors and its kind are functions of the annotation map.
  - Its constructor builds a `JaxrsJavaElement` whose kind function is
    `ElementKind`.

## Model

| member | source | states |
|---|---|---|
| `JaxrsJavaElements.JaxrsJavaElement.constructor` | plugins/org.jboss.tools.ws.jaxrs.core/src/org/jboss/tools/ws/jaxrs/core/internal/metamodel/domain/JaxrsJavaElement.java:83-89 | A null map gives an element without annotations. Otherwise the element starts with exactly the given entries. |
| `JaxrsJavaElements.SingleToMap` | plugins/org.jboss.tools.ws.jaxrs.core/src/org/jboss/tools/ws/jaxrs/core/internal/metamodel/domain/JaxrsJavaElement.java:91-96 | A null annotation gives the empty map. Any other annotation gives a one-entry map, filed under the annotation's own name. |
| `JaxrsJavaElements.JaxrsJavaElement.GetAnnotation` | plugins/org.jboss.tools.ws.jaxrs.core/src/org/jboss/tools/ws/jaxrs/core/internal/metamodel/domain/JaxrsJavaElement.java:110-112 | Gives an annotation exactly when one is filed under that class name, and then it is that one. |
| `JaxrsJavaElements.JaxrsJavaElement.HasAnnotation` | plugins/org.jboss.tools.ws.jaxrs.core/src/org/jboss/tools/ws/jaxrs/core/internal/metamodel/domain/JaxrsJavaElement.java:118-120 | Holds exactly when `GetAnnotation` gives an annotation, that is, exactly when the class name is a key. |
| `Annotations.Update` | plugins/org.jboss.tools.ws.jaxrs.core/src/org/jboss/tools/ws/jaxrs/core/internal/metamodel/domain/JaxrsJavaElement.java:143-144 | Abstract `Annotation.update`: the stored annotation becomes the incoming one. It reports a change exactly when the two differ. |
| `JaxrsJavaElements.JaxrsJavaElement.AddOrUpdateAnnotation` | plugins/org.jboss.tools.ws.jaxrs.core/src/org/jboss/tools/ws/jaxrs/core/internal/metamodel/domain/JaxrsJavaElement.java:136-154 | Null gives F_NONE and no change. Otherwise the annotation is filed under its name, and the element is indexed under it exactly when it made a difference. The flag is the qualified change, or F_NONE when nothing changed. |
| `JaxrsJavaElements.AddOrUpdateStepEffect` | plugins/org.jboss.tools.ws.jaxrs.core/src/org/jboss/tools/ws/jaxrs/core/internal/metamodel/domain/JaxrsJavaElement.java:142-153 | Afterwards the name is present with the new annotation, and every other entry is as before. A new name always counts as a change. Re-filing an equal annotation gives F_NONE and the same map. |
| `JaxrsJavaElements.JaxrsJavaElement.QualifyChange` | plugins/org.jboss.tools.ws.jaxrs.core/src/org/jboss/tools/ws/jaxrs/core/internal/metamodel/domain/JaxrsJavaElement.java:181-221 | The result is the annotation's flag, plus F_ELEMENT_KIND exactly when the kind now differs from the previous kind. |
| `DeltaFlags.AnnotationFlagOfKnownName` | plugins/org.jboss.tools.ws.jaxrs.core/src/org/jboss/tools/ws/jaxrs/core/internal/metamodel/domain/JaxrsJavaElement.java:184-207 | Each of the twelve known annotation classes gets its own flag, a single bit that no other known class shares. |
| `DeltaFlags.AnnotationFlagOfOtherName` | plugins/org.jboss.tools.ws.jaxrs.core/src/org/jboss/tools/ws/jaxrs/core/internal/metamodel/domain/JaxrsJavaElement.java:208-215 | Any other name gets F_HTTP_METHOD_ANNOTATION exactly when it is the class name of a known HTTP method, and F_NONE exactly when it is not. |
| `DeltaFlags.ChangeFlagDecodes` | plugins/org.jboss.tools.ws.jaxrs.core/src/org/jboss/tools/ws/jaxrs/core/internal/metamodel/domain/JaxrsJavaElement.java:217-219 | The qualified flag carries F_ELEMENT_KIND exactly when the kind changed. Its other bits are the annotation's flag, so adding F_ELEMENT_KIND is a bitwise or. |
| `JaxrsJavaElements.StepReportsKindChange` | plugins/org.jboss.tools.ws.jaxrs.core/src/org/jboss/tools/ws/jaxrs/core/internal/metamodel/domain/JaxrsJavaElement.java:136-244 | Every add, update or remove call raises F_ELEMENT_KIND exactly when it changed the element's kind. |
| `JaxrsJavaElements.JaxrsJavaElement.RemoveAnnotation` | plugins/org.jboss.tools.ws.jaxrs.core/src/org/jboss/tools/ws/jaxrs/core/internal/metamodel/domain/JaxrsJavaElement.java:223-225 | Behaves exactly as removal by the handle of the annotation's JDT element. |
| `JaxrsJavaElements.JaxrsJavaElement.RemoveAnnotationByHandle` | plugins/org.jboss.tools.ws.jaxrs.core/src/org/jboss/tools/ws/jaxrs/core/internal/metamodel/domain/JaxrsJavaElement.java:227-244 | With no entry of that handle: F_NONE, no change, index untouched. Otherwise it drops one entry with that handle, unindexes the element under it, and returns the qualified change for that entry's key. |
| `JaxrsJavaElements.RemoveStepEffect` | plugins/org.jboss.tools.ws.jaxrs.core/src/org/jboss/tools/ws/jaxrs/core/internal/metamodel/domain/JaxrsJavaElement.java:229-243 | A removal drops at most one entry, one with the handle, and keeps the others as they were. With no match it gives F_NONE and the same map. |
| `JaxrsJavaElements.RemoveByUniqueHandle` | plugins/org.jboss.tools.ws.jaxrs.core/src/org/jboss/tools/ws/jaxrs/core/internal/metamodel/domain/JaxrsJavaElement.java:229-240 | When exactly one entry has the handle, that entry is the one removed, whatever handles other entries share. |
| `Annotations.Difference` | plugins/org.jboss.tools.ws.jaxrs.core/src/org/jboss/tools/ws/jaxrs/core/internal/metamodel/domain/JaxrsJavaElement.java:160-164 | The entries of the first map whose keys the second lacks. |
| `Annotations.Intersection` | plugins/org.jboss.tools.ws.jaxrs.core/src/org/jboss/tools/ws/jaxrs/core/internal/metamodel/domain/JaxrsJavaElement.java:167-168 | The entries of the first map whose keys the second also has. |
| `JaxrsJavaElements.JaxrsJavaElement.UpdateAnnotations` | plugins/org.jboss.tools.ws.jaxrs.core/src/org/jboss/tools/ws/jaxrs/core/internal/metamodel/domain/JaxrsJavaElement.java:156-179 | Three steps in some iteration order: add every new entry, update every common entry, then remove every dropped entry. The result is the `+=` sum of the calls' flags. If `other` files each annotation under its own name and no two annotations share a handle, the element ends with exactly `other`'s annotations. The metamodel's index afterwards is the one those calls leave, as `IndexAfter` replays them. An equal map whose annotations are filed under their own names gives F_NONE and changes neither the annotations nor the index. |
| `JaxrsJavaElements.JaxrsJavaElement.AddOrUpdateEach` | plugins/org.jboss.tools.ws.jaxrs.core/src/org/jboss/tools/ws/jaxrs/core/internal/metamodel/domain/JaxrsJavaElement.java:169-174 | One add/update loop. It visits every key once, and each visit is a valid `addOrUpdateAnnotation` call whose flag is added to the sum. Entries filed under their own annotations' names are merged into the map. The index is the one the calls leave. Such entries that the element already holds change neither the map nor the index. |
| `JaxrsJavaElements.JaxrsJavaElement.RemoveEach` | plugins/org.jboss.tools.ws.jaxrs.core/src/org/jboss/tools/ws/jaxrs/core/internal/metamodel/domain/JaxrsJavaElement.java:175-177 | The removal loop. It visits every key once, and each visit is a valid `removeAnnotation` call whose flag is added to the sum. When the entries are the element's own and handles are distinct, it drops exactly their keys. The index is the one the calls leave, and no entries leave it untouched. |
| `JaxrsJavaElements.IndexAfterTouchesOnlyElement` | plugins/org.jboss.tools.ws.jaxrs.core/src/org/jboss/tools/ws/jaxrs/core/internal/metamodel/domain/JaxrsJavaElement.java:136-244 | Calls on one element never add or drop an index entry of any other element. |
| `JaxrsJavaElements.ReconcileWithEqualKeepsIndex` | plugins/org.jboss.tools.ws.jaxrs.core/src/org/jboss/tools/ws/jaxrs/core/internal/metamodel/domain/JaxrsJavaElement.java:160-178 | When `other` equals the current map and its annotations are filed under their own names, none of the three loops files or drops an index entry. |
| `JaxrsJavaElements.UpdateAnnotationsComposes` | plugins/org.jboss.tools.ws.jaxrs.core/src/org/jboss/tools/ws/jaxrs/core/internal/metamodel/domain/JaxrsJavaElement.java:160-178 | The three loops together make one chain of valid calls, in the order `updateAnnotations` makes them. When `other`'s annotations are filed under their own names, it reconciles to `other` (given distinct handles) and changes nothing for an equal map. |
| `DeltaFlags.CombineFlags` | plugins/org.jboss.tools.ws.jaxrs.core/src/org/jboss/tools/ws/jaxrs/core/internal/metamodel/domain/JaxrsJavaElement.java:169-177 | The corrected accumulation with a bitwise or: every bit of every step's flag survives. |
| `DeltaFlags.CombinedFlagsReportKindChange` | plugins/org.jboss.tools.ws.jaxrs.core/src/org/jboss/tools/ws/jaxrs/core/internal/metamodel/domain/JaxrsJavaElement.java:169-177 | Suppose each step raises the kind bit exactly when it changed the kind. Then the bitwise-or result carries the kind bit whenever the kind at the end differs from the start, and only when some step changed it. |
| `JaxrsJavaElements.CombinedTraceReportsKindChange` | plugins/org.jboss.tools.ws.jaxrs.core/src/org/jboss/tools/ws/jaxrs/core/internal/metamodel/domain/JaxrsJavaElement.java:156-179 | The same property for any chain of valid calls: combined by bitwise or, the flags report a net kind change. |
| `DeltaFlags.SumMatchesCombineWhenDisjoint` | plugins/org.jboss.tools.ws.jaxrs.core/src/org/jboss/tools/ws/jaxrs/core/internal/metamodel/domain/JaxrsJavaElement.java:169-177 | When no two steps raise a common bit, `+=` and bitwise or agree. |
| `JaxrsResourceFields.SummedFlagsLoseKindChange` | plugins/org.jboss.tools.ws.jaxrs.core/src/org/jboss/tools/ws/jaxrs/core/internal/metamodel/domain/JaxrsJavaElement.java:175-177 | Take a field with @PathParam and @QueryParam, updated with an empty map, where removal meets @PathParam first. The kind goes to UNDEFINED, yet the `+=` result lacks F_ELEMENT_KIND, while a bitwise or keeps it. |
| `JaxrsResourceFields.OtherOrderKeepsKindChange` | plugins/org.jboss.tools.ws.jaxrs.core/src/org/jboss/tools/ws/jaxrs/core/internal/metamodel/domain/JaxrsJavaElement.java:175-177 | In the other iteration order the same update keeps F_ELEMENT_KIND, so the `+=` result depends on the hash map's order. |
| `JaxrsJavaElements.EqualsAsWritten` | plugins/org.jboss.tools.ws.jaxrs.core/src/org/jboss/tools/ws/jaxrs/core/internal/metamodel/domain/JaxrsJavaElement.java:268-288 | `equals` as written throws exactly when the other object has the same class, this element has a Java member, and the other has none. |
| `JaxrsJavaElements.EqualsAsWrittenThrowsOnNullMember` | plugins/org.jboss.tools.ws.jaxrs.core/src/org/jboss/tools/ws/jaxrs/core/internal/metamodel/domain/JaxrsJavaElement.java:280-286 | A concrete pair of resource fields: the one with a member throws on the one without, while the reverse comparison answers false. |
| `JaxrsJavaElements.Equals` | plugins/org.jboss.tools.ws.jaxrs.core/src/org/jboss/tools/ws/jaxrs/core/internal/metamodel/domain/JaxrsJavaElement.java:268-288 | Corrected `equals`: same runtime class and the same member handle, or both members null. It agrees with the as-written version wherever that one returns. |
| `JaxrsJavaElements.JavaStringHash` | plugins/org.jboss.tools.ws.jaxrs.core/src/org/jboss/tools/ws/jaxrs/core/internal/metamodel/domain/JaxrsJavaElement.java:259 | Java's `String.hashCode` is the documented polynomial s[0]*31^(n-1) + ... + s[n-1], reduced modulo 2^32. |
| `JaxrsJavaElements.HashCode` | plugins/org.jboss.tools.ws.jaxrs.core/src/org/jboss/tools/ws/jaxrs/core/internal/metamodel/domain/JaxrsJavaElement.java:255-261 | 31 for a null member. Otherwise 31 plus the handle's string hash, modulo 2^32. The result depends on nothing but the member's handle. |
| `JaxrsJavaElements.HashExamples` | plugins/org.jboss.tools.ws.jaxrs.core/src/org/jboss/tools/ws/jaxrs/core/internal/metamodel/domain/JaxrsJavaElement.java:255-261 | "ab" hashes to 3105, and an element with a null member hashes to 31. |
| `JaxrsJavaElements.EqualsIsEquivalenceAndHashConsistent` | plugins/org.jboss.tools.ws.jaxrs.core/src/org/jboss/tools/ws/jaxrs/core/internal/metamodel/domain/JaxrsJavaElement.java:255-288 | The corrected `equals` is reflexive, symmetric and transitive, and is false for null. Equal elements have equal `hashCode`s. |
| `JaxrsJavaElements.ElementEqualityIgnoresAnnotations` | plugins/org.jboss.tools.ws.jaxrs.core/src/org/jboss/tools/ws/jaxrs/core/internal/metamodel/domain/JaxrsJavaElement.java:255-288 | Two elements are equal exactly when they have the same runtime class and the same Java member, whatever their annotations. Equal elements hash alike. |
| `JaxrsResourceFields.NewResourceField` | plugins/org.jboss.tools.ws.jaxrs.core/src/org/jboss/tools/ws/jaxrs/core/internal/metamodel/domain/JaxrsResourceField.java:39-42 | A new element over the field, with the given annotations (none for null). Its kind function is the resource field's. |
| `JaxrsResourceFields.GetElementCategory` | plugins/org.jboss.tools.ws.jaxrs.core/src/org/jboss/tools/ws/jaxrs/core/internal/metamodel/domain/JaxrsResourceField.java:44-47 | A resource field is always in the RESOURCE_FIELD category. |
| `JaxrsResourceFields.IsMarkedForRemoval` | plugins/org.jboss.tools.ws.jaxrs.core/src/org/jboss/tools/ws/jaxrs/core/internal/metamodel/domain/JaxrsResourceField.java:49-56 | Holds exactly when none of @PathParam, @QueryParam and @MatrixParam is present. |
| `JaxrsResourceFields.GetPathParamAnnotation` | plugins/org.jboss.tools.ws.jaxrs.core/src/org/jboss/tools/ws/jaxrs/core/internal/metamodel/domain/JaxrsResourceField.java:58-60 | The @PathParam annotation exactly when the field has one. |
| `JaxrsResourceFields.GetQueryParamAnnotation` | plugins/org.jboss.tools.ws.jaxrs.core/src/org/jboss/tools/ws/jaxrs/core/internal/metamodel/domain/JaxrsResourceField.java:62-64 | The @QueryParam annotation exactly when the field has one. |
| `JaxrsResourceFields.GetMatrixParamAnnotation` | plugins/org.jboss.tools.ws.jaxrs.core/src/org/jboss/tools/ws/jaxrs/core/internal/metamodel/domain/JaxrsResourceField.java:66-68 | The @MatrixParam annotation exactly when the field has one. |
| `JaxrsResourceFields.GetDefaultValueAnnotation` | plugins/org.jboss.tools.ws.jaxrs.core/src/org/jboss/tools/ws/jaxrs/core/internal/metamodel/domain/JaxrsResourceField.java:70-72 | The @DefaultValue annotation exactly when the field has one. |
| `JaxrsResourceFields.ElementKind` | plugins/org.jboss.tools.ws.jaxrs.core/src/org/jboss/tools/ws/jaxrs/core/internal/metamodel/domain/JaxrsResourceField.java:74-86 | The kind is PATH_PARAM_FIELD exactly when @PathParam is present. It is QUERY_PARAM_FIELD exactly when @QueryParam is present without @PathParam, and MATRIX_PARAM_FIELD exactly when only @MatrixParam of the three is present. Otherwise it is UNDEFINED. |
| `JaxrsResourceFields.MarkedForRemovalIffUndefined` | plugins/org.jboss.tools.ws.jaxrs.core/src/org/jboss/tools/ws/jaxrs/core/internal/metamodel/domain/JaxrsResourceField.java:49-86 | A field is marked for removal exactly when its kind is UNDEFINED. |
| `JaxrsResourceFields.DefaultValueNeverChangesKind` | plugins/org.jboss.tools.ws.jaxrs.core/src/org/jboss/tools/ws/jaxrs/core/internal/metamodel/domain/JaxrsResourceField.java:70-86 | Adding, replacing or dropping @DefaultValue leaves the kind as it was. |
| `JaxrsResourceFields.DefaultValueChangeFlag` | plugins/org.jboss.tools.ws.jaxrs.core/src/org/jboss/tools/ws/jaxrs/core/internal/metamodel/domain/JaxrsJavaElement.java:202-219 | A change of @DefaultValue on a field is reported as F_DEFAULT_VALUE_ANNOTATION alone, without F_ELEMENT_KIND. |
| `JaxrsResourceFields.PathParamOnBareField` | plugins/org.jboss.tools.ws.jaxrs.core/src/org/jboss/tools/ws/jaxrs/core/internal/metamodel/domain/JaxrsJavaElement.java:196-219 | Adding @PathParam to a field without parameter annotations makes it a PATH_PARAM_FIELD. The flag is F_PATH_PARAM_ANNOTATION together with F_ELEMENT_KIND. |
| `JaxrsResourceFields.LowerPriorityParamKeepsKind` | plugins/org.jboss.tools.ws.jaxrs.core/src/org/jboss/tools/ws/jaxrs/core/internal/metamodel/domain/JaxrsResourceField.java:75-86 | On a field with @PathParam, changes to @QueryParam or @MatrixParam keep the kind PATH_PARAM_FIELD and never raise F_ELEMENT_KIND. |

## Left out

- The values of the JaxrsElementDelta flag constants are not part of this
  model. They are taken here as F_NONE = 0, F_ELEMENT_KIND = 1, and twelve
  distinct single bits for the annotation flags. The finding about `+=` relies
  on F_ELEMENT_KIND being a single bit, on the @PathParam and @QueryParam
  flags being distinct single bits other than it, and on the removal loop
  meeting @PathParam first.
- The Annotation class is not part of this model.
  - `Annotation.update` is abstract: it reports a change exactly when the
    annotations differ, and the stored value becomes the incoming one.
  - Annotations are values. The in-place update of an Annotation object that
    other code may share (aliasing) is not captured.
- CollectionUtils is not part of this model. `difference` and `intersection`
  take the first map's entries.
- Null values inside an annotation map, and a null `otherAnnotations`, are
  not modelled. Every key maps to a present annotation.
- The metamodel's `indexElement`, `unindexElement` and `getAllHttpMethods`:
  - the index is a ghost set of (element, handle) pairs;
  - the HTTP methods are a sequence of Java class names, in the metamodel's
    own order.
- The hash map iteration order of `updateAnnotations` and
  `removeAnnotation(String)` is a nondeterministic choice.
  - `updateAnnotations` returns the orders it used as ghost values.
  - `removeAnnotation(String)` returns only the key it removed, as a ghost
    value. Which entry is met first matters only when two entries share the
    handle.
- JDT specifics are left out: `getResource`, `isBinary`, `getName`,
  `getJavaElement`, `getAnnotations` (it returns the live map), `update(T)`
  (it returns 0), `toString`, and the validation message helpers. The Java
  member appears only as its handle identifier.
- RemoveAnnotation: a null argument is not modelled. The Java method
  dereferences it at once and throws a NullPointerException; the parameter
  here is always a present annotation.
- `equals`: the `this == obj` shortcut is left out. On the same object the
  comparison that follows answers true anyway.
- `JavaStringHash`: characters are hashed as their code points. Java hashes
  UTF-16 code units, so the two agree only on strings below U+10000.
- `getElementKind` of the other subclasses (resources, resource methods,
  providers, HTTP methods) is not modelled. The base class takes the kind as
  a parameter.
- `JaxrsResourceElement`, the superclass between the two classes, is not
  part of this model. The resource field's parent resource is not modelled.

## Findings

| source | as written | input that shows it | evidently intended | confidence | as-written member | corrected member |
|---|---|---|---|---|---|---|
| plugins/org.jboss.tools.ws.jaxrs.core/src/org/jboss/tools/ws/jaxrs/core/internal/metamodel/domain/JaxrsJavaElement.java:280-286 | `equals` compares `javaElement`'s handle with `other.javaElement`'s handle when this element has a member. It never checks that the other element has one. | Two resource fields: this one has a member with a handle, the other has a null member. | `false`, as in the symmetric branch at lines 280-283. | high; not executed | `JaxrsJavaElements.EqualsAsWrittenThrowsOnNullMember` | `JaxrsJavaElements.Equals` |
| plugins/org.jboss.tools.ws.jaxrs.core/src/org/jboss/tools/ws/jaxrs/core/internal/metamodel/domain/JaxrsJavaElement.java:169-177 | `updateAnnotations` accumulates the bit flags of its calls with `+=`. Two calls that both change the kind add F_ELEMENT_KIND twice, which carries into the next bit. | A resource field with @PathParam (handle h1) and @QueryParam (handle h2), updated with an empty map, removing @PathParam first. The kind goes PATH_PARAM_FIELD, then QUERY_PARAM_FIELD, then UNDEFINED, and the result lacks F_ELEMENT_KIND. | Combine the flags by bitwise or, so that the result carries F_ELEMENT_KIND whenever the kind changed. | medium (depends on the flag values and the iteration order); not executed | `JaxrsResourceFields.SummedFlagsLoseKindChange` | `JaxrsJavaElements.CombinedTraceReportsKindChange` |
