/**
 * The change flags of a JAX-RS element delta. A flag is a Java `int`, so it is
 * a 32-bit vector here and `+` wraps around as Java's does.
 */
module DeltaFlags {
  import opened Annotations

  const F_NONE: bv32 := 0
  const F_ELEMENT_KIND: bv32 := 0x1
  const F_PATH_ANNOTATION: bv32 := 0x2
  const F_APPLICATION_PATH_ANNOTATION: bv32 := 0x4
  const F_HTTP_METHOD_ANNOTATION: bv32 := 0x8
  const F_TARGET_ANNOTATION: bv32 := 0x10
  const F_RETENTION_ANNOTATION: bv32 := 0x20
  const F_PROVIDER_ANNOTATION: bv32 := 0x40
  const F_PATH_PARAM_ANNOTATION: bv32 := 0x80
  const F_QUERY_PARAM_ANNOTATION: bv32 := 0x100
  const F_MATRIX_PARAM_ANNOTATION: bv32 := 0x200
  const F_DEFAULT_VALUE_ANNOTATION: bv32 := 0x400
  const F_CONSUMES_ANNOTATION: bv32 := 0x800
  const F_PRODUCES_ANNOTATION: bv32 := 0x1000

  /**
   * The twelve annotation classes that have a flag of their own, as a table.
   * `AnnotationFlag` below makes the same choice by a chain of comparisons,
   * as `qualifyChange` does; the lemmas check the chain against this table.
   */
  const KNOWN_ANNOTATION_FLAGS: map<string, bv32> := map[
    PATH := F_PATH_ANNOTATION,
    APPLICATION_PATH := F_APPLICATION_PATH_ANNOTATION,
    HTTP_METHOD := F_HTTP_METHOD_ANNOTATION,
    TARGET := F_TARGET_ANNOTATION,
    RETENTION := F_RETENTION_ANNOTATION,
    PROVIDER := F_PROVIDER_ANNOTATION,
    PATH_PARAM := F_PATH_PARAM_ANNOTATION,
    QUERY_PARAM := F_QUERY_PARAM_ANNOTATION,
    MATRIX_PARAM := F_MATRIX_PARAM_ANNOTATION,
    DEFAULT_VALUE := F_DEFAULT_VALUE_ANNOTATION,
    CONSUMES := F_CONSUMES_ANNOTATION,
    PRODUCES := F_PRODUCES_ANNOTATION]

  /**
   * The flag that a change of the annotation `name` raises: its own flag when
   * it is one of the twelve known classes, the HTTP-method flag when it is the
   * class of a known HTTP method, and no flag otherwise.
   */
  function AnnotationFlag(name: string, httpMethods: seq<string>): bv32
  {
    if name == PATH then F_PATH_ANNOTATION
    else if name == APPLICATION_PATH then F_APPLICATION_PATH_ANNOTATION
    else if name == HTTP_METHOD then F_HTTP_METHOD_ANNOTATION
    else if name == TARGET then F_TARGET_ANNOTATION
    else if name == RETENTION then F_RETENTION_ANNOTATION
    else if name == PROVIDER then F_PROVIDER_ANNOTATION
    else if name == PATH_PARAM then F_PATH_PARAM_ANNOTATION
    else if name == QUERY_PARAM then F_QUERY_PARAM_ANNOTATION
    else if name == MATRIX_PARAM then F_MATRIX_PARAM_ANNOTATION
    else if name == DEFAULT_VALUE then F_DEFAULT_VALUE_ANNOTATION
    else if name == CONSUMES then F_CONSUMES_ANNOTATION
    else if name == PRODUCES then F_PRODUCES_ANNOTATION
    else if name in httpMethods then F_HTTP_METHOD_ANNOTATION
    else F_NONE
  }

  /** What `qualifyChange` returns: the annotation's flag, plus F_ELEMENT_KIND when the kind changed. */
  function ChangeFlag(name: string, httpMethods: seq<string>, kindChanged: bool): bv32
  {
    Plus(AnnotationFlag(name, httpMethods), if kindChanged then F_ELEMENT_KIND else F_NONE)
  }

  /** A flag word with exactly one bit set. */
  predicate SingleBit(f: bv32)
  {
    f != 0 && f & (f - 1) == 0
  }

  lemma KnownFlagsAreDistinctSingleBits(n: string, m: string)
    requires n in KNOWN_ANNOTATION_FLAGS && m in KNOWN_ANNOTATION_FLAGS
    ensures SingleBit(KNOWN_ANNOTATION_FLAGS[n])
    ensures KNOWN_ANNOTATION_FLAGS[n] != F_ELEMENT_KIND
    ensures n != m ==> KNOWN_ANNOTATION_FLAGS[n] != KNOWN_ANNOTATION_FLAGS[m]
  {
  }

  /** Each known name gets its own flag, and that flag is never F_ELEMENT_KIND. */
  lemma AnnotationFlagOfKnownName(name: string, httpMethods: seq<string>)
    requires name in KNOWN_ANNOTATION_FLAGS
    ensures AnnotationFlag(name, httpMethods) == KNOWN_ANNOTATION_FLAGS[name]
    ensures SingleBit(AnnotationFlag(name, httpMethods))
    ensures forall other :: other in KNOWN_ANNOTATION_FLAGS && other != name ==>
              AnnotationFlag(other, httpMethods) != AnnotationFlag(name, httpMethods)
  {
    forall other | other in KNOWN_ANNOTATION_FLAGS && other != name
      ensures AnnotationFlag(other, httpMethods) != AnnotationFlag(name, httpMethods)
    {
      AnnotationFlagMatchesTable(other, httpMethods);
      AnnotationFlagMatchesTable(name, httpMethods);
      KnownFlagsAreDistinctSingleBits(other, name);
    }
    AnnotationFlagMatchesTable(name, httpMethods);
    KnownFlagsAreDistinctSingleBits(name, name);
  }

  /** The chain of comparisons gives each known name the flag the table lists for it. */
  lemma AnnotationFlagMatchesTable(name: string, httpMethods: seq<string>)
    requires name in KNOWN_ANNOTATION_FLAGS
    ensures AnnotationFlag(name, httpMethods) == KNOWN_ANNOTATION_FLAGS[name]
  {
    if name == PATH {
    } else if name == APPLICATION_PATH {
    } else if name == HTTP_METHOD {
    } else if name == TARGET {
    } else if name == RETENTION {
    } else if name == PROVIDER {
    } else if name == PATH_PARAM {
    } else if name == QUERY_PARAM {
    } else if name == MATRIX_PARAM {
    } else if name == DEFAULT_VALUE {
    } else if name == CONSUMES {
    } else {
      assert name == PRODUCES;
    }
  }

  /** A name outside the twelve is an HTTP-method change exactly when it is the class of a known HTTP method. */
  lemma AnnotationFlagOfOtherName(name: string, httpMethods: seq<string>)
    requires name !in KNOWN_ANNOTATION_FLAGS
    ensures AnnotationFlag(name, httpMethods) == F_HTTP_METHOD_ANNOTATION <==> name in httpMethods
    ensures AnnotationFlag(name, httpMethods) == F_NONE <==> name !in httpMethods
  {
  }

  /** An annotation flag is either no flag or one single bit, never the kind bit. */
  lemma AnnotationFlagShape(name: string, httpMethods: seq<string>)
    ensures AnnotationFlag(name, httpMethods) == F_NONE || SingleBit(AnnotationFlag(name, httpMethods))
    ensures AnnotationFlag(name, httpMethods) & F_ELEMENT_KIND == 0
  {
    if name in KNOWN_ANNOTATION_FLAGS {
      KnownFlagsAreDistinctSingleBits(name, name);
    }
  }

  /**
   * Adding F_ELEMENT_KIND to an annotation flag sets a bit of its own: the
   * kind bit is set exactly when the kind changed, and the other bits are the
   * annotation's flag.
   */
  lemma ChangeFlagDecodes(name: string, httpMethods: seq<string>, kindChanged: bool)
    ensures Carries(ChangeFlag(name, httpMethods, kindChanged), F_ELEMENT_KIND) <==> kindChanged
    ensures ChangeFlag(name, httpMethods, kindChanged) & !F_ELEMENT_KIND == AnnotationFlag(name, httpMethods)
    ensures ChangeFlag(name, httpMethods, kindChanged)
              == AnnotationFlag(name, httpMethods) | (if kindChanged then F_ELEMENT_KIND else F_NONE)
  {
    AnnotationFlagShape(name, httpMethods);
    var f := AnnotationFlag(name, httpMethods);
    assert f & 1 == 0;
  }

  /** Every bit of `bits` is set in `word`. */
  predicate Carries(word: bv32, bits: bv32)
  {
    word & bits == bits
  }

  /** No bit of `bits` is set in `word`. */
  predicate Lacks(word: bv32, bits: bv32)
  {
    word & bits == 0
  }

  /** Java's `int` addition on flag words: wraps around at 32 bits. */
  function Plus(a: bv32, b: bv32): bv32
  {
    a + b
  }

  /** Accumulating flags with `+=`, left to right. */
  function SumFlags(flags: seq<bv32>): bv32
  {
    if |flags| == 0 then F_NONE else Plus(SumFlags(flags[..|flags| - 1]), flags[|flags| - 1])
  }

  lemma SumOfTwo(a: bv32, b: bv32)
    ensures SumFlags([a, b]) == Plus(Plus(F_NONE, a), b)
  {
    assert [a, b][..1] == [a];
    assert [a][..0] == [];
    assert SumFlags([a]) == Plus(SumFlags([]), a);
    assert SumFlags([a, b]) == Plus(SumFlags([a]), b);
  }

  /** Accumulating flags with `|=`, left to right: every bit of every flag survives. */
  function CombineFlags(flags: seq<bv32>): (r: bv32)
    ensures forall i :: 0 <= i < |flags| ==> Carries(r, flags[i])
  {
    if |flags| == 0 then F_NONE
    else
      var prefix := flags[..|flags| - 1];
      var r := CombineFlags(prefix) | flags[|flags| - 1];
      assert forall i :: 0 <= i < |prefix| ==> prefix[i] == flags[i];
      r
  }

  /** `|=` raises no bit that none of the steps raised. */
  lemma {:induction false} CombineFlagsAddsNoBit(flags: seq<bv32>, bits: bv32)
    requires forall i :: 0 <= i < |flags| ==> Lacks(flags[i], bits)
    ensures Lacks(CombineFlags(flags), bits)
  {
    if |flags| > 0 {
      var prefix := flags[..|flags| - 1];
      assert forall i :: 0 <= i < |prefix| ==> prefix[i] == flags[i];
      CombineFlagsAddsNoBit(prefix, bits);
      assert Lacks(flags[|flags| - 1], bits);
    }
  }

  /**
   * With `|=` the kind bit reports a kind change: when every step sets
   * F_ELEMENT_KIND exactly when it changed the kind, the combined flags carry
   * the bit whenever the kind at the end differs from the kind at the start,
   * and only when some step changed it.
   */
  lemma {:induction false} CombinedFlagsReportKindChange<K>(kinds: seq<K>, flags: seq<bv32>)
    requires |kinds| == |flags| + 1
    requires forall i :: 0 <= i < |flags| ==> (Carries(flags[i], F_ELEMENT_KIND) <==> kinds[i] != kinds[i + 1])
    ensures kinds[0] != kinds[|flags|] ==> Carries(CombineFlags(flags), F_ELEMENT_KIND)
    ensures Carries(CombineFlags(flags), F_ELEMENT_KIND) ==> exists i :: 0 <= i < |flags| && kinds[i] != kinds[i + 1]
  {
    if |flags| > 0 && kinds[0] != kinds[|flags|] {
      var n := |flags| - 1;
      if kinds[n] != kinds[n + 1] {
        assert Carries(flags[n], F_ELEMENT_KIND);
      } else {
        var prefix := flags[..n];
        forall i | 0 <= i < |prefix|
          ensures Carries(prefix[i], F_ELEMENT_KIND) <==> kinds[..n + 1][i] != kinds[..n + 1][i + 1]
        {
          assert prefix[i] == flags[i];
        }
        CombinedFlagsReportKindChange(kinds[..n + 1], prefix);
      }
    }
    if forall i :: 0 <= i < |flags| ==> kinds[i] == kinds[i + 1] {
      forall i | 0 <= i < |flags| ensures Lacks(flags[i], F_ELEMENT_KIND) {
        assert kinds[i] == kinds[i + 1];
      }
      CombineFlagsAddsNoBit(flags, F_ELEMENT_KIND);
    }
  }

  /** `+=` and `|=` agree as long as no two steps raise a common bit. */
  lemma {:induction false} SumMatchesCombineWhenDisjoint(flags: seq<bv32>)
    requires forall i, j :: 0 <= i < j < |flags| ==> Lacks(flags[i], flags[j])
    ensures SumFlags(flags) == CombineFlags(flags)
  {
    if |flags| > 0 {
      var n := |flags| - 1;
      var prefix := flags[..n];
      PrefixStaysDisjoint(flags, n);
      SumMatchesCombineWhenDisjoint(prefix);
      LastDisjointFromPrefix(flags, n);
      CombineFlagsAddsNoBit(prefix, flags[n]);
      LastStep(flags);
      DisjointStepAgrees(SumFlags(prefix), CombineFlags(prefix), flags[n], SumFlags(flags), CombineFlags(flags));
    }
  }

  /** One more step keeps `+=` and `|=` in agreement when its flag shares no bit with what came before. */
  lemma DisjointStepAgrees(s: bv32, c: bv32, f: bv32, sum: bv32, comb: bv32)
    requires s == c && Lacks(c, f) && sum == Plus(s, f) && comb == c | f
    ensures sum == comb
  {
    DisjointSumIsUnion(c, f);
  }

  /** Both accumulations take the last flag after the ones before it. */
  lemma LastStep(flags: seq<bv32>)
    requires |flags| > 0
    ensures SumFlags(flags) == Plus(SumFlags(flags[..|flags| - 1]), flags[|flags| - 1])
    ensures CombineFlags(flags) == CombineFlags(flags[..|flags| - 1]) | flags[|flags| - 1]
  {
  }

  /** The steps before step `n` still raise no common bit. */
  lemma PrefixStaysDisjoint(flags: seq<bv32>, n: nat)
    requires n <= |flags|
    requires forall i, j :: 0 <= i < j < |flags| ==> Lacks(flags[i], flags[j])
    ensures forall i, j :: 0 <= i < j < n ==> Lacks(flags[..n][i], flags[..n][j])
  {
    forall i, j | 0 <= i < j < n ensures Lacks(flags[..n][i], flags[..n][j]) {
      assert flags[..n][i] == flags[i] && flags[..n][j] == flags[j];
    }
  }

  /** Step `n` raises no bit that a step before it raised. */
  lemma LastDisjointFromPrefix(flags: seq<bv32>, n: nat)
    requires n < |flags|
    requires forall i, j :: 0 <= i < j < |flags| ==> Lacks(flags[i], flags[j])
    ensures forall i :: 0 <= i < n ==> Lacks(flags[..n][i], flags[n])
  {
    forall i | 0 <= i < n ensures Lacks(flags[..n][i], flags[n]) {
      assert flags[..n][i] == flags[i];
    }
  }

  lemma DisjointSumIsUnion(a: bv32, b: bv32)
    requires Lacks(a, b)
    ensures Plus(a, b) == a | b
  {
  }
}
