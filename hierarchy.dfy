/** `LoaderClassWriter.getCommonSuperClass` (LoaderClassWriter.kt): the
    common superclass ASM asks for while computing stack-map frames, found
    from class files the loader can supply. Loading is a map from internal
    names to what the loaded class node says about its superclass; a name
    outside the map cannot be loaded. The reflective answer of the base
    `ClassWriter` is a parameter. */
module Hierarchy {
  import opened Wrappers
  import opened Jvm
  import opened Extensions

  const OBJECT := "java/lang/Object"

  /** What a loaded class node tells: its superclass and its access flags.
      `depth` is not in the class file: it bounds the length of the chain
      above the class, so that following superclasses ends (a cyclic
      hierarchy makes the original recurse without end). */
  datatype ClassInfo = ClassInfo(superName: string, access: bv32, depth: nat)

  type Loader = map<string, ClassInfo>

  /** Every loadable superclass of a loadable class other than
      `java/lang/Object` sits lower. */
  predicate Valid(h: Loader) {
    forall n :: n in h && n != OBJECT && h[n].superName in h ==> h[h[n].superName].depth < h[n].depth
  }

  /** `getParents()`: nothing above `java/lang/Object`; above any other class
      its superclass, then the superclass's own parents when it loads. */
  function Parents(h: Loader, name: string): seq<string>
    requires Valid(h) && name in h
    decreases h[name].depth
  {
    if name == OBJECT then []
    else
      var s := h[name].superName;
      [s] + (if s in h then Parents(h, s) else [])
  }

  /** `getAllParents()`: the class itself, then its parents. */
  function AllParents(h: Loader, name: string): (r: seq<string>)
    requires Valid(h) && name in h
    ensures |r| >= 1 && r[0] == name
  {
    [name] + Parents(h, name)
  }

  /** The class reached from `t` by following `k` superclass links, each
      from a loadable class other than `java/lang/Object`. */
  function SuperN(h: Loader, t: string, k: nat): Option<string>
    decreases k
  {
    if k == 0 then Some(t)
    else if t in h && t != OBJECT then SuperN(h, h[t].superName, k - 1)
    else None
  }

  /** `x` is `t` or one of the superclasses reachable from it. */
  ghost predicate InChain(h: Loader, t: string, x: string) {
    exists k: nat :: SuperN(h, t, k) == Some(x)
  }

  /** `getAllParents` lists exactly the classes `SuperN` reaches, in order
      of distance. */
  lemma {:induction false} AllParentsIsSuperChain(h: Loader, t: string, k: nat)
    requires Valid(h) && t in h
    ensures var a := AllParents(h, t);
      (k < |a| ==> SuperN(h, t, k) == Some(a[k])) && (k >= |a| ==> SuperN(h, t, k).None?)
    decreases h[t].depth
  {
    var a := AllParents(h, t);
    if k > 0 && t != OBJECT {
      var s := h[t].superName;
      if s in h {
        assert a[1..] == AllParents(h, s);
        AllParentsIsSuperChain(h, s, k - 1);
      } else {
        assert a == [t, s];
      }
    }
  }

  /** Membership in `getAllParents` is membership in the superclass chain. */
  lemma AllParentsMembership(h: Loader, t: string, x: string)
    requires Valid(h) && t in h
    ensures x in AllParents(h, t) <==> InChain(h, t, x)
  {
    var a := AllParents(h, t);
    if x in a {
      var k :| 0 <= k < |a| && a[k] == x;
      AllParentsIsSuperChain(h, t, k);
    }
    if InChain(h, t, x) {
      var k: nat :| SuperN(h, t, k) == Some(x);
      AllParentsIsSuperChain(h, t, k);
    }
  }

  /** `a.intersect(b.toSet()).firstOrNull()`: the first element of `a` that
      occurs in `b`. */
  function FirstCommon(a: seq<string>, b: seq<string>): (r: Option<string>)
    ensures r.None? <==> forall i :: 0 <= i < |a| ==> a[i] !in b
    ensures r.Some? ==> exists i :: 0 <= i < |a| && a[i] == r.value && r.value in b
                                    && forall j :: 0 <= j < i ==> a[j] !in b
  {
    if |a| == 0 then None
    else if a[0] in b then Some(a[0])
    else
      var r := FirstCommon(a[1..], b);
      FirstCommonShift(a, b, r);
      r
  }

  lemma FirstCommonShift(a: seq<string>, b: seq<string>, r: Option<string>)
    requires |a| > 0 && a[0] !in b
    requires r.None? <==> forall i :: 0 <= i < |a[1..]| ==> a[1..][i] !in b
    requires r.Some? ==> exists i :: 0 <= i < |a[1..]| && a[1..][i] == r.value && r.value in b
                                     && forall j :: 0 <= j < i ==> a[1..][j] !in b
    ensures r.None? <==> forall i :: 0 <= i < |a| ==> a[i] !in b
    ensures r.Some? ==> exists i :: 0 <= i < |a| && a[i] == r.value && r.value in b
                                    && forall j :: 0 <= j < i ==> a[j] !in b
  {
    if r.Some? {
      var i :| 0 <= i < |a[1..]| && a[1..][i] == r.value && r.value in b && forall j :: 0 <= j < i ==> a[1..][j] !in b;
      assert a[i + 1] == r.value;
      forall j | 0 <= j < i + 1 ensures a[j] !in b {
        if j > 0 { assert a[j] == a[1..][j - 1]; }
      }
    } else {
      forall i | 0 <= i < |a| ensures a[i] !in b {
        if i > 0 { assert a[i] == a[1..][i - 1]; }
      }
    }
  }

  /** `getCommonSuperClass(type1, type2)`; `base` is the base writer's
      answer. */
  function CommonSuperClass(h: Loader, useBytecodeInheritance: bool, base: string, t1: string, t2: string): string
    requires Valid(h)
  {
    if !useBytecodeInheritance then base
    else if t1 == OBJECT || t2 == OBJECT then OBJECT
    else if t1 == t2 then t1
    else if t1 !in h || t2 !in h then base
    else if IsInterface(h[t1].access) || IsInterface(h[t2].access) then OBJECT
    else
      match FirstCommon(AllParents(h, t1), AllParents(h, t2))
      case None => base
      case Some(c) => c
  }

  /** When both types load and neither is `java/lang/Object`, equal or an
      interface, the answer is the nearest class on `type1`'s superclass
      chain that is also on `type2`'s, and the base answer only when the
      chains share no class. */
  lemma {:induction false} CommonSuperClassIsNearest(h: Loader, base: string, t1: string, t2: string)
    requires Valid(h) && t1 in h && t2 in h
    requires t1 != OBJECT && t2 != OBJECT && t1 != t2
    requires !IsInterface(h[t1].access) && !IsInterface(h[t2].access)
    ensures var r := CommonSuperClass(h, true, base, t1, t2);
      ((exists x :: InChain(h, t1, x) && InChain(h, t2, x)) ==>
         exists k1: nat :: SuperN(h, t1, k1) == Some(r) && InChain(h, t2, r)
           && forall k: nat :: k < k1 ==> SuperN(h, t1, k).Some? && !InChain(h, t2, SuperN(h, t1, k).value))
      && (!(exists x :: InChain(h, t1, x) && InChain(h, t2, x)) ==> r == base)
  {
    var a1 := AllParents(h, t1);
    var a2 := AllParents(h, t2);
    var r := CommonSuperClass(h, true, base, t1, t2);
    var fc := FirstCommon(a1, a2);
    if fc.Some? {
      var i :| 0 <= i < |a1| && a1[i] == fc.value && fc.value in a2 && forall j :: 0 <= j < i ==> a1[j] !in a2;
      AllParentsIsSuperChain(h, t1, i);
      AllParentsMembership(h, t2, r);
      forall k: nat | k < i
        ensures SuperN(h, t1, k).Some? && !InChain(h, t2, SuperN(h, t1, k).value)
      {
        AllParentsIsSuperChain(h, t1, k);
        AllParentsMembership(h, t2, a1[k]);
      }
    } else {
      forall x | InChain(h, t1, x)
        ensures !InChain(h, t2, x)
      {
        AllParentsMembership(h, t1, x);
        AllParentsMembership(h, t2, x);
      }
    }
  }

  /** The answers that need no chain: the base writer's when bytecode
      inheritance is off, `java/lang/Object` when either type is it, the
      type itself when both are equal, the base answer when either does
      not load, and `java/lang/Object` for an interface. */
  lemma CommonSuperClassShortcuts(h: Loader, use: bool, base: string, t1: string, t2: string)
    requires Valid(h)
    ensures var r := CommonSuperClass(h, use, base, t1, t2);
      (!use ==> r == base)
      && (use && (t1 == OBJECT || t2 == OBJECT) ==> r == OBJECT)
      && (use && t1 != OBJECT && t1 == t2 ==> r == t1)
      && (use && t1 != OBJECT && t2 != OBJECT && t1 != t2 && (t1 !in h || t2 !in h) ==> r == base)
      && ((use && t1 != OBJECT && t2 != OBJECT && t1 != t2 && t1 in h && t2 in h
           && (IsInterface(h[t1].access) || IsInterface(h[t2].access))) ==> r == OBJECT)
  {
  }

  /** In a hierarchy whose every superclass loads, down to a loadable
      `java/lang/Object`, every chain ends at `java/lang/Object`. */
  lemma {:induction false} ChainReachesObject(h: Loader, t: string)
    requires Valid(h) && t in h && OBJECT in h
    requires forall n :: n in h ==> h[n].superName in h
    ensures AllParents(h, t)[|AllParents(h, t)| - 1] == OBJECT
    decreases h[t].depth
  {
    if t != OBJECT {
      var s := h[t].superName;
      ChainReachesObject(h, s);
      assert AllParents(h, t)[1..] == AllParents(h, s);
    }
  }

  /** With bytecode inheritance on, in a hierarchy whose every superclass
      loads down to a loadable `java/lang/Object`, two loadable classes
      always meet: the answer is a class on both superclass chains, never
      the base writer's fallback. */
  lemma CommonSuperClassIsShared(h: Loader, base: string, t1: string, t2: string)
    requires Valid(h) && t1 in h && t2 in h && OBJECT in h
    requires forall n :: n in h ==> h[n].superName in h
    ensures var r := CommonSuperClass(h, true, base, t1, t2);
      r in AllParents(h, t1) && r in AllParents(h, t2)
    ensures base !in AllParents(h, t1) ==> CommonSuperClass(h, true, base, t1, t2) != base
  {
    var a1 := AllParents(h, t1);
    var a2 := AllParents(h, t2);
    ChainReachesObject(h, t1);
    ChainReachesObject(h, t2);
    assert OBJECT in a1 && OBJECT in a2;
    if t1 != OBJECT && t2 != OBJECT && t1 != t2 && !IsInterface(h[t1].access) && !IsInterface(h[t2].access) {
      var fc := FirstCommon(a1, a2);
      assert a1[|a1| - 1] in a2;
      assert fc.Some?;
      var i :| 0 <= i < |a1| && a1[i] == fc.value && fc.value in a2 && forall j :: 0 <= j < i ==> a1[j] !in a2;
    }
  }
}
