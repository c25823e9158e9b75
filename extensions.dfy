/** Queries over class, method and field nodes (Extensions.kt): names,
    lookups, constants and strings, calls and references, access flags,
    system-class detection, stub values, neighbour search in an instruction
    list, and the compaction of analyzer frames into stack-map entries. */
module Extensions {
  import opened Wrappers
  import opened KotlinStrings
  import opened Jvm
  import opened JvmTypes

  // ---------------------------------------------------------------------
  // Names

  /** `Class.internalName`: the binary name with '.' replaced by '/'. */
  function InternalNameOf(binaryName: string): string {
    ReplaceChar(binaryName, '.', '/')
  }

  /** The binary name a class loader expects, '/' replaced by '.'. */
  function BinaryNameOf(internalName: string): string {
    ReplaceChar(internalName, '/', '.')
  }

  /** `String.classResourceName`. */
  function ClassResourceName(name: string): (r: string)
    ensures |r| == |name| + 6 && r[|name|..] == ".class"
    ensures r[..|name|] == InternalNameOf(name) && '.' !in r[..|name|]
    ensures '/' !in name ==> BinaryNameOf(r[..|name|]) == name
  {
    NameConversionsRoundTrip(name, "");
    InternalNameOf(name) + ".class"
  }

  /** Internal and binary names convert into each other, for names that do not
      already mix both separators. */
  lemma NameConversionsRoundTrip(binaryName: string, internalName: string)
    ensures '/' !in binaryName ==> BinaryNameOf(InternalNameOf(binaryName)) == binaryName
    ensures '.' !in internalName ==> InternalNameOf(BinaryNameOf(internalName)) == internalName
    ensures '.' !in InternalNameOf(binaryName) && '/' !in BinaryNameOf(internalName)
  {
    if '/' !in binaryName {
      var r := BinaryNameOf(InternalNameOf(binaryName));
      assert forall i :: 0 <= i < |r| ==> r[i] == binaryName[i];
    }
    if '.' !in internalName {
      var r := InternalNameOf(BinaryNameOf(internalName));
      assert forall i :: 0 <= i < |r| ==> r[i] == internalName[i];
    }
  }

  // ---------------------------------------------------------------------
  // First-match lookups (`find`)

  /** Index of the first element satisfying `p`, as `find`/`firstOrNull`
      scan a list. */
  function FirstIndex<T>(xs: seq<T>, p: T -> bool): (r: Option<nat>)
    ensures r.Some? ==> r.value < |xs| && p(xs[r.value])
    ensures r.Some? ==> forall j :: 0 <= j < r.value ==> !p(xs[j])
    ensures r.None? ==> forall j :: 0 <= j < |xs| ==> !p(xs[j])
  {
    if |xs| == 0 then None
    else if p(xs[0]) then Some(0)
    else match FirstIndex(xs[1..], p)
      case None => None
      case Some(k) => Some(k + 1)
  }

  /** `find`: the first element satisfying `p`, or null. */
  function Find<T>(xs: seq<T>, p: T -> bool): (r: Option<T>)
    ensures r.Some? <==> exists j :: 0 <= j < |xs| && p(xs[j])
    ensures r.Some? ==> exists j :: 0 <= j < |xs| && xs[j] == r.value && p(xs[j])
                          && forall k :: 0 <= k < j ==> !p(xs[k])
  {
    match FirstIndex(xs, p)
    case None => None
    case Some(i) => Some(xs[i])
  }

  /** `methodByName`; also `constructor` ("<init>"), `staticInit` and
      `initializer` ("<clinit>"). */
  function MethodByName(c: ClassRecord, name: string): (r: Option<MethodRecord>)
    ensures r.Some? ==> r.value.name == name && r.value in c.methods
    ensures r.Some? ==> exists i :: 0 <= i < |c.methods| && c.methods[i] == r.value
                                    && forall j :: 0 <= j < i ==> c.methods[j].name != name
    ensures r.None? <==> forall m :: m in c.methods ==> m.name != name
  {
    var r := Find(c.methods, (m: MethodRecord) => m.name == name);
    if r.Some? then r
    else
      assert forall m :: m in c.methods ==> m.name != name by {
        forall m | m in c.methods ensures m.name != name {
          var j :| 0 <= j < |c.methods| && c.methods[j] == m;
        }
      }
      r
  }

  /** `methodByInvoke`: the first method with the call's name and descriptor. */
  function MethodByInvoke(c: ClassRecord, call: Insn): (r: Option<MethodRecord>)
    requires call.Call?
    ensures r.Some? ==> r.value.name == call.name && r.value.desc == call.desc && r.value in c.methods
    ensures r.Some? ==> exists i :: 0 <= i < |c.methods| && c.methods[i] == r.value
                                    && forall j :: 0 <= j < i ==> !(c.methods[j].name == call.name && c.methods[j].desc == call.desc)
    ensures r.None? <==> forall i :: 0 <= i < |c.methods| ==> !(c.methods[i].name == call.name && c.methods[i].desc == call.desc)
  {
    Find(c.methods, (m: MethodRecord) => m.name == call.name && m.desc == call.desc)
  }

  /** `fieldByName`. */
  function FieldByName(c: ClassRecord, name: string): (r: Option<FieldRecord>)
    ensures r.Some? ==> r.value.name == name && r.value in c.fields
    ensures r.Some? ==> exists i :: 0 <= i < |c.fields| && c.fields[i] == r.value
                                    && forall j :: 0 <= j < i ==> c.fields[j].name != name
    ensures r.None? <==> forall j :: 0 <= j < |c.fields| ==> c.fields[j].name != name
  {
    Find(c.fields, (f: FieldRecord) => f.name == name)
  }

  // ---------------------------------------------------------------------
  // Constants and strings

  /** The LDC constants, in instruction order. */
  function LdcConstants(insns: seq<Insn>): seq<Value> {
    if |insns| == 0 then []
    else (if insns[0].Ldc? then [insns[0].cst] else []) + LdcConstants(insns[1..])
  }

  /** All invokedynamic bootstrap arguments, in instruction order. */
  function IndyArgs(insns: seq<Insn>): seq<Value> {
    if |insns| == 0 then []
    else (if insns[0].Indy? then insns[0].bsmArgs else []) + IndyArgs(insns[1..])
  }

  /** `MethodNode.constants`: every LDC constant, then every bootstrap
      argument. */
  function MethodConstants(m: MethodRecord): seq<Value> {
    LdcConstants(m.insns) + IndyArgs(m.insns)
  }

  function AllMethodConstants(ms: seq<MethodRecord>): seq<Value> {
    if |ms| == 0 then [] else MethodConstants(ms[0]) + AllMethodConstants(ms[1..])
  }

  function FieldValues(fs: seq<FieldRecord>): seq<Value> {
    if |fs| == 0 then []
    else (if fs[0].value.Some? then [fs[0].value.value] else []) + FieldValues(fs[1..])
  }

  /** `ClassNode.constants`: the methods' constants, then the fields'
      non-null values. */
  function ClassConstants(c: ClassRecord): seq<Value> {
    AllMethodConstants(c.methods) + FieldValues(c.fields)
  }

  /** `filterIsInstance<String>()`. */
  function StringsOf(vs: seq<Value>): seq<string> {
    if |vs| == 0 then []
    else (if vs[0].StringValue? then [vs[0].s] else []) + StringsOf(vs[1..])
  }

  function MethodStrings(m: MethodRecord): seq<string> {
    StringsOf(MethodConstants(m))
  }

  function ClassStrings(c: ClassRecord): seq<string> {
    StringsOf(ClassConstants(c))
  }

  /** `MethodNode.hasConstant`. */
  predicate MethodHasConstant(m: MethodRecord, v: Value) {
    v in MethodConstants(m)
  }

  /** `ClassNode.hasConstant`: looks at the methods only. */
  predicate ClassHasConstant(c: ClassRecord, v: Value) {
    exists i :: 0 <= i < |c.methods| && MethodHasConstant(c.methods[i], v)
  }

  lemma {:induction false} LdcConstantsMembership(insns: seq<Insn>, v: Value)
    ensures v in LdcConstants(insns) <==> Ldc(v) in insns
  {
    if |insns| > 0 {
      LdcConstantsMembership(insns[1..], v);
      assert insns == [insns[0]] + insns[1..];
    }
  }

  lemma {:induction false} IndyArgsMembership(insns: seq<Insn>, v: Value)
    ensures v in IndyArgs(insns) <==> exists i :: 0 <= i < |insns| && insns[i].Indy? && v in insns[i].bsmArgs
  {
    if |insns| > 0 {
      IndyArgsMembership(insns[1..], v);
      if v in IndyArgs(insns[1..]) {
        var i :| 0 <= i < |insns[1..]| && insns[1..][i].Indy? && v in insns[1..][i].bsmArgs;
        assert insns[i + 1] == insns[1..][i];
      }
      if exists i :: 0 <= i < |insns| && insns[i].Indy? && v in insns[i].bsmArgs {
        var i :| 0 <= i < |insns| && insns[i].Indy? && v in insns[i].bsmArgs;
        if i > 0 { assert insns[1..][i - 1] == insns[i]; }
      }
    }
  }

  /** A method has a constant exactly when some LDC loads it or some
      invokedynamic passes it as a bootstrap argument. */
  lemma MethodConstantsMembership(m: MethodRecord, v: Value)
    ensures MethodHasConstant(m, v) <==>
      (Ldc(v) in m.insns || exists i :: 0 <= i < |m.insns| && m.insns[i].Indy? && v in m.insns[i].bsmArgs)
  {
    LdcConstantsMembership(m.insns, v);
    IndyArgsMembership(m.insns, v);
  }

  lemma {:induction false} AllMethodConstantsMembership(ms: seq<MethodRecord>, v: Value)
    ensures v in AllMethodConstants(ms) <==> exists i :: 0 <= i < |ms| && MethodHasConstant(ms[i], v)
  {
    if |ms| > 0 {
      AllMethodConstantsMembership(ms[1..], v);
      if v in AllMethodConstants(ms[1..]) {
        var i :| 0 <= i < |ms[1..]| && MethodHasConstant(ms[1..][i], v);
        assert ms[i + 1] == ms[1..][i];
      }
      if exists i :: 0 <= i < |ms| && MethodHasConstant(ms[i], v) {
        var i :| 0 <= i < |ms| && MethodHasConstant(ms[i], v);
        if i > 0 { assert ms[1..][i - 1] == ms[i]; }
      }
    }
  }

  lemma {:induction false} FieldValuesMembership(fs: seq<FieldRecord>, v: Value)
    ensures v in FieldValues(fs) <==> exists i :: 0 <= i < |fs| && fs[i].value == Some(v)
  {
    if |fs| > 0 {
      FieldValuesMembership(fs[1..], v);
      if v in FieldValues(fs[1..]) {
        var i :| 0 <= i < |fs[1..]| && fs[1..][i].value == Some(v);
        assert fs[i + 1] == fs[1..][i];
      }
      if exists i :: 0 <= i < |fs| && fs[i].value == Some(v) {
        var i :| 0 <= i < |fs| && fs[i].value == Some(v);
        if i > 0 { assert fs[1..][i - 1] == fs[i]; }
      }
    }
  }

  /** A class's constants are exactly the constants of its methods and the
      values of its fields; `hasConstant` sees only the former. */
  lemma ClassConstantsMembership(c: ClassRecord, v: Value)
    ensures v in ClassConstants(c) <==>
      (ClassHasConstant(c, v) || exists i :: 0 <= i < |c.fields| && c.fields[i].value == Some(v))
  {
    AllMethodConstantsMembership(c.methods, v);
    FieldValuesMembership(c.fields, v);
  }

  /** A constant held only by a field is among the class's constants, yet
      `hasConstant` does not report it. */
  lemma FieldOnlyConstantIsNotReported()
    ensures var c := ClassRecord("A", None, [], 0, [], [FieldRecord("X", "I", ACC_STATIC, Some(IntValue(7)))]);
            IntValue(7) in ClassConstants(c) && !ClassHasConstant(c, IntValue(7))
  {
  }

  /** `strings` keeps exactly the string constants, in order. */
  lemma {:induction false} StringsOfMembership(vs: seq<Value>, s: string)
    ensures s in StringsOf(vs) <==> StringValue(s) in vs
    ensures |StringsOf(vs)| <= |vs|
  {
    if |vs| > 0 {
      StringsOfMembership(vs[1..], s);
      assert vs == [vs[0]] + vs[1..];
    }
  }

  // ---------------------------------------------------------------------
  // Calls and references

  /** `filterIsInstance`, keeping order. */
  function Filter<T>(xs: seq<T>, p: T -> bool): (r: seq<T>)
    ensures |r| <= |xs|
  {
    if |xs| == 0 then [] else (if p(xs[0]) then [xs[0]] else []) + Filter(xs[1..], p)
  }

  lemma {:induction false} FilterMembership<T>(xs: seq<T>, p: T -> bool, x: T)
    ensures x in Filter(xs, p) <==> x in xs && p(x)
  {
    if |xs| > 0 {
      FilterMembership(xs[1..], p, x);
      assert xs == [xs[0]] + xs[1..];
    }
  }

  /** `idx` lists, in increasing order, exactly the positions of `xs` whose
      element passes `p`, and `r` holds the elements at those positions. */
  ghost predicate SelectsInOrder<T>(xs: seq<T>, p: T -> bool, r: seq<T>, idx: seq<int>) {
    && |idx| == |r|
    && (forall k :: 0 <= k < |idx| ==> 0 <= idx[k] < |xs| && r[k] == xs[idx[k]])
    && (forall k, l :: 0 <= k < l < |idx| ==> idx[k] < idx[l])
    && (forall i :: 0 <= i < |xs| ==> (p(xs[i]) <==> i in idx))
  }

  /** `r` is `xs` with exactly the elements failing `p` removed: same order,
      same multiplicity. */
  ghost predicate KeptInOrder<T>(xs: seq<T>, p: T -> bool, r: seq<T>) {
    exists idx :: SelectsInOrder(xs, p, r, idx)
  }

  function ShiftIndices(idx: seq<int>): (r: seq<int>)
    ensures |r| == |idx| && forall k :: 0 <= k < |idx| ==> r[k] == idx[k] + 1
  {
    seq(|idx|, k requires 0 <= k < |idx| => idx[k] + 1)
  }

  /** `s` selects from `ys` as `SelectsInOrder` does, but only from position
      1 on. */
  ghost predicate SelectsAfterHead<T>(ys: seq<T>, p: T -> bool, r: seq<T>, s: seq<int>) {
    && |s| == |r|
    && (forall k :: 0 <= k < |s| ==> 1 <= s[k] < |ys| && r[k] == ys[s[k]])
    && (forall k, l :: 0 <= k < l < |s| ==> s[k] < s[l])
    && (forall i :: 1 <= i < |ys| ==> (p(ys[i]) <==> i in s))
  }

  lemma ShiftedElements<T>(x: T, xs: seq<T>, r: seq<T>, tail: seq<int>)
    requires |tail| == |r| && forall k :: 0 <= k < |tail| ==> 0 <= tail[k] < |xs| && r[k] == xs[tail[k]]
    ensures var ys, s := [x] + xs, ShiftIndices(tail);
      forall k :: 0 <= k < |s| ==> 1 <= s[k] < |ys| && r[k] == ys[s[k]]
  {
    var ys, s := [x] + xs, ShiftIndices(tail);
    forall k | 0 <= k < |s| ensures 1 <= s[k] < |ys| && r[k] == ys[s[k]] {
      assert ys[s[k]] == xs[tail[k]];
    }
  }

  lemma ShiftedMembership<T>(x: T, xs: seq<T>, p: T -> bool, tail: seq<int>)
    requires forall i :: 0 <= i < |xs| ==> (p(xs[i]) <==> i in tail)
    ensures var ys, s := [x] + xs, ShiftIndices(tail);
      forall i :: 1 <= i < |ys| ==> (p(ys[i]) <==> i in s)
  {
    var ys, s := [x] + xs, ShiftIndices(tail);
    forall i | 1 <= i < |ys| ensures p(ys[i]) <==> i in s {
      assert ys[i] == xs[i - 1];
      if i - 1 in tail {
        var k :| 0 <= k < |tail| && tail[k] == i - 1;
        assert s[k] == i;
      }
      if i in s {
        var k :| 0 <= k < |s| && s[k] == i;
        assert tail[k] == i - 1;
      }
    }
  }

  /** Shifted by one, a selection from `xs` picks the same elements out of
      `[x] + xs`, never position 0. */
  lemma ShiftedSelection<T>(x: T, xs: seq<T>, p: T -> bool, r: seq<T>, tail: seq<int>)
    requires SelectsInOrder(xs, p, r, tail)
    ensures SelectsAfterHead([x] + xs, p, r, ShiftIndices(tail))
  {
    ShiftedElements(x, xs, r, tail);
    ShiftedMembership(x, xs, p, tail);
  }

  lemma KeptHeadElements<T>(ys: seq<T>, r: seq<T>, s: seq<int>, r': seq<T>)
    requires |s| == |r| && forall k :: 0 <= k < |s| ==> 1 <= s[k] < |ys| && r[k] == ys[s[k]]
    requires |ys| > 0 && r' == [ys[0]] + r
    ensures var idx := [0] + s;
      forall k :: 0 <= k < |idx| ==> 0 <= idx[k] < |ys| && r'[k] == ys[idx[k]]
  {
    var idx := [0] + s;
    forall k | 0 <= k < |idx| ensures 0 <= idx[k] < |ys| && r'[k] == ys[idx[k]] {
      if k > 0 { assert idx[k] == s[k - 1] && r'[k] == r[k - 1]; }
    }
  }

  lemma KeptHeadOrder(s: seq<int>)
    requires forall k :: 0 <= k < |s| ==> 1 <= s[k]
    requires forall k, l :: 0 <= k < l < |s| ==> s[k] < s[l]
    ensures var idx := [0] + s;
      forall k, l :: 0 <= k < l < |idx| ==> idx[k] < idx[l]
  {
    var idx := [0] + s;
    forall k, l | 0 <= k < l < |idx| ensures idx[k] < idx[l] {
      assert idx[l] == s[l - 1];
      if k > 0 { assert idx[k] == s[k - 1]; }
    }
  }

  /** A passing head is selected at position 0. */
  lemma SelectsKeptHead<T>(ys: seq<T>, p: T -> bool, r: seq<T>, s: seq<int>, r': seq<T>)
    requires SelectsAfterHead(ys, p, r, s) && |ys| > 0 && p(ys[0]) && r' == [ys[0]] + r
    ensures SelectsInOrder(ys, p, r', [0] + s)
  {
    KeptHeadElements(ys, r, s, r');
    KeptHeadOrder(s);
    var idx := [0] + s;
    forall i | 0 <= i < |ys| ensures p(ys[i]) <==> i in idx {
      assert i in idx <==> i == 0 || i in s;
    }
  }

  /** A failing head is left out. */
  lemma SelectsDroppedHead<T>(ys: seq<T>, p: T -> bool, r: seq<T>, s: seq<int>)
    requires SelectsAfterHead(ys, p, r, s) && |ys| > 0 && !p(ys[0])
    ensures SelectsInOrder(ys, p, r, s)
  {
    assert 0 !in s;
  }

  /** `Filter` keeps the passing elements in their order and multiplicity. */
  lemma {:induction false} FilterKeepsOrder<T>(xs: seq<T>, p: T -> bool)
    ensures KeptInOrder(xs, p, Filter(xs, p))
  {
    if |xs| == 0 {
      assert SelectsInOrder(xs, p, Filter(xs, p), []);
    } else {
      var rest := Filter(xs[1..], p);
      FilterKeepsOrder(xs[1..], p);
      var tail :| SelectsInOrder(xs[1..], p, rest, tail);
      ShiftedSelection(xs[0], xs[1..], p, rest, tail);
      assert [xs[0]] + xs[1..] == xs;
      if p(xs[0]) {
        SelectsKeptHead(xs, p, rest, ShiftIndices(tail), Filter(xs, p));
        assert SelectsInOrder(xs, p, Filter(xs, p), [0] + ShiftIndices(tail));
      } else {
        SelectsDroppedHead(xs, p, rest, ShiftIndices(tail));
        assert Filter(xs, p) == rest;
        assert SelectsInOrder(xs, p, Filter(xs, p), ShiftIndices(tail));
      }
    }
  }

  predicate IsCall(i: Insn) { i.Call? }

  predicate IsFieldAccess(i: Insn) { i.FieldOp? }

  /** `MethodNode.calls`: the method-call instructions (invokedynamic excluded). */
  function Calls(m: MethodRecord): seq<Insn> {
    Filter(m.insns, IsCall)
  }

  /** `MethodNode.references`: the field-access instructions. */
  function References(m: MethodRecord): seq<Insn> {
    Filter(m.insns, IsFieldAccess)
  }

  /** `calls(matcher)`: some call satisfies the matcher. */
  predicate CallsMatching(m: MethodRecord, p: Insn -> bool) {
    exists i :: 0 <= i < |Calls(m)| && p(Calls(m)[i])
  }

  /** `references(matcher)`. */
  predicate ReferencesMatching(m: MethodRecord, p: Insn -> bool) {
    exists i :: 0 <= i < |References(m)| && p(References(m)[i])
  }

  /** Some element that passes the filter satisfies `p` exactly when some
      element of the list passes both. */
  lemma {:induction false} FilterAny<T>(xs: seq<T>, q: T -> bool, p: T -> bool)
    ensures (exists i :: 0 <= i < |Filter(xs, q)| && p(Filter(xs, q)[i]))
        <==> (exists i :: 0 <= i < |xs| && q(xs[i]) && p(xs[i]))
  {
    if |xs| > 0 {
      FilterAny(xs[1..], q, p);
      var f := Filter(xs, q);
      var g := Filter(xs[1..], q);
      var off := if q(xs[0]) then 1 else 0;
      assert f == (if q(xs[0]) then [xs[0]] else []) + g;
      if exists i :: 0 <= i < |f| && p(f[i]) {
        var i :| 0 <= i < |f| && p(f[i]);
        if i < off {
          assert f[0] == xs[0];
          assert q(xs[0]) && p(xs[0]);
        } else {
          assert g[i - off] == f[i];
          var j :| 0 <= j < |xs[1..]| && q(xs[1..][j]) && p(xs[1..][j]);
          assert xs[j + 1] == xs[1..][j];
          assert 0 <= j + 1 < |xs| && q(xs[j + 1]) && p(xs[j + 1]);
        }
      }
      if exists i :: 0 <= i < |xs| && q(xs[i]) && p(xs[i]) {
        var i :| 0 <= i < |xs| && q(xs[i]) && p(xs[i]);
        if i == 0 {
          assert f[0] == xs[0];
          assert 0 < |f| && p(f[0]);
          assert 0 < |Filter(xs, q)| && p(Filter(xs, q)[0]);
        } else {
          assert xs[1..][i - 1] == xs[i];
          var k :| 0 <= k < |g| && p(g[k]);
          assert f[k + off] == g[k];
          assert 0 <= k + off < |f| && p(f[k + off]);
          assert 0 <= k + off < |Filter(xs, q)| && p(Filter(xs, q)[k + off]);
        }
      }
    }
  }

  /** `calls(matcher)` holds exactly when some instruction of the method is a
      call satisfying the matcher. */
  lemma CallsMatchingIff(m: MethodRecord, p: Insn -> bool)
    ensures CallsMatching(m, p) <==> exists i :: 0 <= i < |m.insns| && m.insns[i].Call? && p(m.insns[i])
  {
    FilterAny(m.insns, IsCall, p);
    if CallsMatching(m, p) {
      var i :| 0 <= i < |m.insns| && IsCall(m.insns[i]) && p(m.insns[i]);
      assert m.insns[i].Call?;
    }
    if exists i :: 0 <= i < |m.insns| && m.insns[i].Call? && p(m.insns[i]) {
      var i :| 0 <= i < |m.insns| && m.insns[i].Call? && p(m.insns[i]);
      assert IsCall(m.insns[i]);
      var f := Filter(m.insns, IsCall);
      var j :| 0 <= j < |f| && p(f[j]);
      assert Calls(m)[j] == f[j];
    }
  }

  /** `references(matcher)` holds exactly when some instruction of the method
      is a field access satisfying the matcher. */
  lemma ReferencesMatchingIff(m: MethodRecord, p: Insn -> bool)
    ensures ReferencesMatching(m, p) <==> exists i :: 0 <= i < |m.insns| && m.insns[i].FieldOp? && p(m.insns[i])
  {
    FilterAny(m.insns, IsFieldAccess, p);
    if ReferencesMatching(m, p) {
      var i :| 0 <= i < |m.insns| && IsFieldAccess(m.insns[i]) && p(m.insns[i]);
      assert m.insns[i].FieldOp?;
    }
    if exists i :: 0 <= i < |m.insns| && m.insns[i].FieldOp? && p(m.insns[i]) {
      var i :| 0 <= i < |m.insns| && m.insns[i].FieldOp? && p(m.insns[i]);
      assert IsFieldAccess(m.insns[i]);
      var f := Filter(m.insns, IsFieldAccess);
      var j :| 0 <= j < |f| && p(f[j]);
      assert References(m)[j] == f[j];
    }
  }

  /** `callsNamed`. */
  predicate CallsNamed(m: MethodRecord, name: string) {
    CallsMatching(m, (i: Insn) => i.Call? && i.name == name)
  }

  /** `referencesNamed`. */
  predicate ReferencesNamed(m: MethodRecord, name: string) {
    ReferencesMatching(m, (i: Insn) => i.FieldOp? && i.name == name)
  }

  /** `FieldInsnNode.isStatic`. */
  predicate FieldInsnIsStatic(insn: Insn)
    requires insn.FieldOp?
  {
    insn.opcode == GETSTATIC || insn.opcode == PUTSTATIC
  }

  // ---------------------------------------------------------------------
  // System classes

  const SystemPrefixes: seq<string> := [
    "java.", "javax.", "org.xml.", "org.w3c.", "sun.", "jdk.", "com.sun.management.",
    "com.grappenmaker.jvmutil.", "kotlin.", "kotlinx.", "org.objectweb."]

  /** `prefixes.any { name.startsWith(it) }`. */
  function StartsWithAny(name: string, prefixes: seq<string>): (r: bool)
    ensures r <==> exists i :: 0 <= i < |prefixes| && StartsWith(name, prefixes[i])
  {
    if |prefixes| == 0 then false
    else StartsWith(name, prefixes[0]) || StartsWithAny(name, prefixes[1..])
  }

  /** `isSystemClass`, on a binary (dotted) class name. */
  predicate IsSystemClass(binaryName: string) {
    StartsWithAny(binaryName, SystemPrefixes)
  }

  /** The JDK, Kotlin, ASM and this library are system code; a class in the
      default package is not. */
  lemma SystemClassExamples()
    ensures IsSystemClass("java.lang.String")
    ensures IsSystemClass("kotlin.collections.CollectionsKt")
    ensures IsSystemClass("org.objectweb.asm.Type")
    ensures IsSystemClass("com.grappenmaker.jvmutil.ClassFinder")
    ensures !IsSystemClass("net.minecraft.client.Minecraft")
    ensures !IsSystemClass("Main")
  {
    assert StartsWith("java.lang.String", SystemPrefixes[0]);
    assert StartsWith("kotlin.collections.CollectionsKt", SystemPrefixes[8]);
    assert StartsWith("org.objectweb.asm.Type", SystemPrefixes[10]);
    assert StartsWith("com.grappenmaker.jvmutil.ClassFinder", SystemPrefixes[7]);
    forall i | 0 <= i < |SystemPrefixes|
      ensures !StartsWith("net.minecraft.client.Minecraft", SystemPrefixes[i])
      ensures !StartsWith("Main", SystemPrefixes[i])
    {
      var p := SystemPrefixes[i];
      assert p[0] in "josck";
      if |p| <= 4 { assert "Main"[..|p|][0] == 'M'; }
      assert "net.minecraft.client.Minecraft"[..|p|][0] == 'n';
    }
  }

  // ---------------------------------------------------------------------
  // Access flags: the same single-bit tests on methods, fields, classes and
  // descriptions

  predicate IsPublic(access: bv32) { HasFlag(access, ACC_PUBLIC) }
  predicate IsPrivate(access: bv32) { HasFlag(access, ACC_PRIVATE) }
  predicate IsProtected(access: bv32) { HasFlag(access, ACC_PROTECTED) }
  predicate IsStatic(access: bv32) { HasFlag(access, ACC_STATIC) }
  predicate IsFinal(access: bv32) { HasFlag(access, ACC_FINAL) }
  predicate IsInterface(access: bv32) { HasFlag(access, ACC_INTERFACE) }
  predicate IsAbstract(access: bv32) { HasFlag(access, ACC_ABSTRACT) }

  /** `MethodNode.isConstructor`. */
  predicate IsConstructorName(name: string) { name == "<init>" }

  /** The flags that have a predicate, each a single bit. */
  predicate SingleFlag(f: bv32) {
    f == ACC_PUBLIC || f == ACC_PRIVATE || f == ACC_PROTECTED || f == ACC_STATIC
    || f == ACC_FINAL || f == ACC_INTERFACE || f == ACC_ABSTRACT
  }

  /** The flag predicates are independent bit tests: adding one flag with
      `or` makes its predicate true and leaves every other predicate as it
      was. */
  lemma FlagTestsAreIndependent(access: bv32, f: bv32, g: bv32)
    requires SingleFlag(f) && SingleFlag(g)
    ensures HasFlag(access | f, g) <==> (HasFlag(access, g) || f == g)
  {
  }

  // ---------------------------------------------------------------------
  // Stub values

  /** `stubLoadInsn`: the instruction that pushes the default value of a
      type, NOP for void; method types have none. */
  function StubLoadInsn(t: JType): (r: Result<int>)
    ensures r.Failure? <==> t.Meth?
    ensures r == Success(NOP) <==> t == Prim(Void)
    ensures t in {Prim(Boolean), Prim(Byte), Prim(Short), Prim(Char), Prim(Int)} <==> r == Success(ICONST_0)
    ensures t == Prim(Float) <==> r == Success(FCONST_0)
    ensures t == Prim(Double) <==> r == Success(DCONST_0)
    ensures t == Prim(Long) <==> r == Success(LCONST_0)
    ensures t.Obj? || t.Arr? <==> r == Success(ACONST_NULL)
  {
    match t
    case Meth(_, _) => Failure("Invalid non-value type")
    case Obj(_) => Success(ACONST_NULL)
    case Arr(_) => Success(ACONST_NULL)
    case Prim(p) =>
      match p
      case Void => Success(NOP)
      case Float => Success(FCONST_0)
      case Double => Success(DCONST_0)
      case Long => Success(LCONST_0)
      case _ => Success(ICONST_0)
  }

  /** The value each constant-pushing opcode leaves on the operand stack,
      classified by the return instruction that can hand it back. */
  function ReturnFor(opcode: int): int {
    if opcode == NOP then RETURN
    else if opcode == ACONST_NULL then ARETURN
    else if ICONST_M1 <= opcode <= ICONST_5 then IRETURN
    else if opcode == LCONST_0 || opcode == LCONST_1 then LRETURN
    else if FCONST_0 <= opcode <= FCONST_0 + 2 then FRETURN
    else if opcode == DCONST_0 || opcode == DCONST_0 + 1 then DRETURN
    else -1
  }

  /** `stubValue` is well typed: the stub value of every non-method type is
      exactly what that type's return instruction returns. */
  lemma StubMatchesReturn(t: JType)
    requires !t.Meth?
    ensures StubLoadInsn(t).Success? && TypedOpcode(t, IRETURN).Success?
    ensures ReturnFor(StubLoadInsn(t).value) == TypedOpcode(t, IRETURN).value
  {
  }

  // ---------------------------------------------------------------------
  // Neighbour search

  /** The node classes `nextOrNull<T>` can ask for. */
  datatype InsnKind = AnyInsn | PlainInsn | IntInsn | VarInsn | TypeInsn | FieldInsn
                    | MethodInsn | InvokeDynamicInsn | JumpInsn | LabelNode | LdcInsn

  predicate IsKind(insn: Insn, kind: InsnKind) {
    match kind
    case AnyInsn => true
    case PlainInsn => insn.Op?
    case IntInsn => insn.IntOp?
    case VarInsn => insn.VarOp?
    case TypeInsn => insn.TypeOp?
    case FieldInsn => insn.FieldOp?
    case MethodInsn => insn.Call?
    case InvokeDynamicInsn => insn.Indy?
    case JumpInsn => insn.Jump?
    case LabelNode => insn.Mark?
    case LdcInsn => insn.Ldc?
  }

  /** `insn is T && block(insn)`. */
  predicate Selects(kind: InsnKind, block: Insn -> bool, insn: Insn) {
    IsKind(insn, kind) && block(insn)
  }

  /** `nextOrNull`: walks forward from the instruction at `at` and gives the
      nearest later instruction of the kind that satisfies `block`. */
  method NextOrNull(insns: seq<Insn>, at: nat, kind: InsnKind, block: Insn -> bool) returns (r: Option<nat>)
    requires at < |insns|
    ensures r.Some? ==> at < r.value < |insns| && Selects(kind, block, insns[r.value])
    ensures r.Some? ==> forall j :: at < j < r.value ==> !Selects(kind, block, insns[j])
    ensures r.None? ==> forall j :: at < j < |insns| ==> !Selects(kind, block, insns[j])
  {
    var i := at + 1;
    while i < |insns|
      invariant at < i <= |insns|
      invariant forall j :: at < j < i ==> !Selects(kind, block, insns[j])
    {
      if Selects(kind, block, insns[i]) {
        return Some(i);
      }
      i := i + 1;
    }
    return None;
  }

  /** `previousOrNull`: the nearest earlier instruction of the kind that
      satisfies `block`. */
  method PreviousOrNull(insns: seq<Insn>, at: nat, kind: InsnKind, block: Insn -> bool) returns (r: Option<nat>)
    requires at < |insns|
    ensures r.Some? ==> r.value < at && Selects(kind, block, insns[r.value])
    ensures r.Some? ==> forall j :: r.value < j < at ==> !Selects(kind, block, insns[j])
    ensures r.None? ==> forall j :: 0 <= j < at ==> !Selects(kind, block, insns[j])
  {
    var i := at;
    while i > 0
      invariant 0 <= i <= at
      invariant forall j :: i <= j < at ==> !Selects(kind, block, insns[j])
    {
      if Selects(kind, block, insns[i - 1]) {
        return Some(i - 1);
      }
      i := i - 1;
    }
    return None;
  }

  /** `next`: like `nextOrNull` but fails when nothing matches. */
  method Next(insns: seq<Insn>, at: nat, kind: InsnKind, block: Insn -> bool) returns (r: Result<nat>)
    requires at < |insns|
    ensures r.Success? ==> at < r.value < |insns| && Selects(kind, block, insns[r.value])
    ensures r.Success? ==> forall j :: at < j < r.value ==> !Selects(kind, block, insns[j])
    ensures r.Failure? ==> forall j :: at < j < |insns| ==> !Selects(kind, block, insns[j])
  {
    var o := NextOrNull(insns, at, kind, block);
    if o.None? {
      return Failure("No matching insn was found!");
    }
    return Success(o.value);
  }

  /** `previous`: like `previousOrNull` but fails when nothing matches. */
  method Previous(insns: seq<Insn>, at: nat, kind: InsnKind, block: Insn -> bool) returns (r: Result<nat>)
    requires at < |insns|
    ensures r.Success? ==> r.value < at && Selects(kind, block, insns[r.value])
    ensures r.Success? ==> forall j :: r.value < j < at ==> !Selects(kind, block, insns[j])
    ensures r.Failure? ==> forall j :: 0 <= j < at ==> !Selects(kind, block, insns[j])
  {
    var o := PreviousOrNull(insns, at, kind, block);
    if o.None? {
      return Failure("No matching insn was found!");
    }
    return Success(o.value);
  }

  // ---------------------------------------------------------------------
  // Frames

  /** An entry of an analyzer's locals or stack list (section 4.7.4 of the
      Java Virtual Machine Specification); ASM's TOP, INTEGER, FLOAT, DOUBLE,
      LONG, NULL, UNINITIALIZED_THIS, a class name or a NEW label. */
  datatype FrameValue = Top | Integer | FloatSlot | DoubleSlot | LongSlot | Null | UninitializedThis
                      | Reference(className: string) | Uninitialized(markId: nat)

  predicate Wide(v: FrameValue) { v == LongSlot || v == DoubleSlot }

  /** Drops every Top whose predecessor in the original list is LongSlot or
      DoubleSlot; `prev` is that predecessor for `rest[0]`. */
  function DropPadding(prev: FrameValue, rest: seq<FrameValue>): (r: seq<FrameValue>)
    ensures |r| <= |rest|
    ensures forall v :: v in r ==> v in rest
    ensures forall v :: v in rest && v != Top ==> v in r
    ensures Top !in rest ==> r == rest
    ensures !Wide(prev) && (forall i :: 0 <= i < |rest| ==> !Wide(rest[i])) ==> r == rest
    decreases |rest|
  {
    if |rest| == 0 then []
    else (if Wide(prev) && rest[0] == Top then [] else [rest[0]]) + DropPadding(rest[0], rest[1..])
  }

  /** `asFrameValues`: keeps the first entry, then every entry except the Top
      that pads a long or double. `first()` fails on an empty list. */
  function AsFrameValues(vs: seq<FrameValue>): (r: Result<seq<FrameValue>>)
    ensures r.Success? <==> |vs| > 0
    ensures r.Success? ==> 0 < |r.value| <= |vs| && r.value[0] == vs[0]
    ensures r.Success? ==> (forall v :: v in r.value ==> v in vs) && (forall v :: v in vs && v != Top ==> v in r.value)
    ensures r.Success? && (Top !in vs || forall i :: 0 <= i < |vs| ==> !Wide(vs[i])) ==> r.value == vs
  {
    if |vs| == 0 then Failure("List is empty.")
    else Success([vs[0]] + DropPadding(vs[0], vs[1..]))
  }

  /** The analyzer's view of a list of verification types: every long and
      double followed by its Top half. */
  function Expand(vs: seq<FrameValue>): seq<FrameValue> {
    if |vs| == 0 then [] else [vs[0]] + Pad(vs[0]) + Expand(vs[1..])
  }

  function Pad(v: FrameValue): seq<FrameValue> {
    if Wide(v) then [Top] else []
  }

  lemma {:induction false} DropPaddingOfExpand(prev: FrameValue, rest: seq<FrameValue>)
    ensures DropPadding(prev, Pad(prev) + Expand(rest)) == rest
    decreases |rest|, if Wide(prev) then 1 else 0
  {
    if Wide(prev) {
      assert Pad(prev) + Expand(rest) == [Top] + Expand(rest);
      DropPaddingOfExpand(Top, rest);
      assert Pad(Top) + Expand(rest) == Expand(rest);
    } else if |rest| > 0 {
      var e := Expand(rest);
      assert Pad(prev) + e == e;
      Regroup3([rest[0]], Pad(rest[0]), Expand(rest[1..]));
      DropPaddingOfExpand(rest[0], rest[1..]);
      assert rest == [rest[0]] + rest[1..];
    } else {
      assert Pad(prev) + Expand(rest) == [];
    }
  }

  /** Compaction undoes the analyzer's expansion: each long or double keeps
      one entry, and nothing else is lost or reordered. */
  lemma CompactionUndoesExpansion(vs: seq<FrameValue>)
    requires |vs| > 0
    ensures AsFrameValues(Expand(vs)) == Success(vs)
  {
    var e := Expand(vs);
    var tail := Pad(vs[0]) + Expand(vs[1..]);
    Regroup3([vs[0]], Pad(vs[0]), Expand(vs[1..]));
    assert e[1..] == tail;
    DropPaddingOfExpand(vs[0], vs[1..]);
    assert vs == [vs[0]] + vs[1..];
  }
}
