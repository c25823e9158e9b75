/** The matcher language of the finder (ClassFinding.kt): every context
    keeps the list of matchers its DSL calls registered, and matches exactly
    when all of them hold. A matcher is a total predicate; the DSL calls
    append one each. */
module Matching {
  import opened Wrappers
  import opened KotlinStrings
  import opened Jvm
  import opened JvmTypes
  import opened Extensions
  import opened Descriptions
  import opened Transforming

  // ---------------------------------------------------------------------
  // Conjunction of matchers

  /** `matchers.all { it(x) }`. */
  predicate All<T>(ms: seq<T -> bool>, x: T) {
    forall i :: 0 <= i < |ms| ==> ms[i](x)
  }

  /** `noMatch()`'s matcher. */
  function Never<T>(): T -> bool {
    (_: T) => false
  }

  /** Registering one more matcher narrows the context by exactly that
      matcher; with none registered a context matches everything, and once
      `noMatch()` is registered it matches nothing, whatever follows. */
  lemma AllAppend<T>(ms: seq<T -> bool>, m: T -> bool, x: T)
    ensures All(ms + [m], x) <==> All(ms, x) && m(x)
    ensures All([], x)
    ensures forall rest: seq<T -> bool> {:trigger ms + [Never()] + rest} :: !All(ms + [Never()] + rest, x)
  {
    if All(ms + [m], x) {
      assert (ms + [m])[|ms|] == m;
      forall i | 0 <= i < |ms| ensures ms[i](x) {
        assert (ms + [m])[i] == ms[i];
      }
    }
    if All(ms, x) && m(x) {
      forall i | 0 <= i < |ms + [m]| ensures (ms + [m])[i](x) {
        if i < |ms| { assert (ms + [m])[i] == ms[i]; }
      }
    }
    forall rest: seq<T -> bool> ensures !All(ms + [Never()] + rest, x) {
      assert (ms + [Never()] + rest)[|ms|] == Never();
    }
  }

  // ---------------------------------------------------------------------
  // Data extracted from a class node

  /** `ClassNode.methodData`. */
  function MethodDataOf(c: ClassRecord): (r: seq<MethodData>)
    ensures |r| == |c.methods| && forall i :: 0 <= i < |r| ==> r[i] == MethodData(c, c.methods[i])
  {
    seq(|c.methods|, i requires 0 <= i < |c.methods| => MethodData(c, c.methods[i]))
  }

  /** `ClassNode.fieldData`. */
  function FieldDataOf(c: ClassRecord): (r: seq<FieldData>)
    ensures |r| == |c.fields| && forall i :: 0 <= i < |r| ==> r[i] == FieldData(c, c.fields[i])
  {
    seq(|c.fields|, i requires 0 <= i < |c.fields| => FieldData(c, c.fields[i]))
  }

  /** Some string satisfies `p`. */
  predicate AnyString(ss: seq<string>, p: string -> bool) {
    exists i :: 0 <= i < |ss| && p(ss[i])
  }

  /** A string holds `part`. */
  function HasPart(part: string): string -> bool {
    (s: string) => Contains(s, part)
  }

  // ---------------------------------------------------------------------
  // Arguments and return types of a descriptor. A descriptor that does not
  // parse satisfies none of these.

  /** `arguments.getOrNull(n) == type`: false for an index out of range. */
  predicate NthArgIs(desc: string, n: int, t: JType) {
    match ArgumentTypes(desc)
    case None => false
    case Some(args) => 0 <= n < |args| && args[n] == t
  }

  /** `type in arguments`. */
  predicate HasArg(desc: string, t: JType) {
    match ArgumentTypes(desc)
    case None => false
    case Some(args) => t in args
  }

  /** `arguments.size == amount`. */
  predicate ArgCount(desc: string, amount: int) {
    match ArgumentTypes(desc)
    case None => false
    case Some(args) => |args| == amount
  }

  /** `returnType == type`. */
  predicate ReturnsType(desc: string, t: JType) {
    ReturnType(desc) == Some(t)
  }

  /** `zip(b).all { (x, y) -> x.internalName == y.internalName }`: only the
      common prefix is compared. */
  predicate ZipAgrees(a: seq<JType>, b: seq<JType>)
    decreases |a|
  {
    |a| == 0 || |b| == 0 || (InternalName(a[0]) == InternalName(b[0]) && ZipAgrees(a[1..], b[1..]))
  }

  /** Zipping compares the positions both lists have and no other. */
  lemma {:induction false} ZipAgreesIff(a: seq<JType>, b: seq<JType>)
    ensures ZipAgrees(a, b) <==> forall i :: 0 <= i < |a| && i < |b| ==> InternalName(a[i]) == InternalName(b[i])
    decreases |a|
  {
    if |a| > 0 && |b| > 0 {
      ZipAgreesIff(a[1..], b[1..]);
      if ZipAgrees(a, b) {
        forall i | 0 <= i < |a| && i < |b| ensures InternalName(a[i]) == InternalName(b[i]) {
          if i > 0 { assert a[i] == a[1..][i - 1] && b[i] == b[1..][i - 1]; }
        }
      } else if InternalName(a[0]) == InternalName(b[0]) {
        var j :| 0 <= j < |a[1..]| && j < |b[1..]| && InternalName(a[1..][j]) != InternalName(b[1..][j]);
        assert a[j + 1] == a[1..][j] && b[j + 1] == b[1..][j];
      }
    }
  }

  // ---------------------------------------------------------------------
  // Class matchers (`ClassContext`)

  function ClassConstantsHas(cst: Value): ClassRecord -> bool {
    (c: ClassRecord) => cst in ClassConstants(c)
  }

  function ClassStringsHas(s: string): ClassRecord -> bool {
    (c: ClassRecord) => s in ClassStrings(c)
  }

  function ClassStringsSome(p: string -> bool): ClassRecord -> bool {
    (c: ClassRecord) => AnyString(ClassStrings(c), p)
  }

  function ClassIsEnum(): ClassRecord -> bool {
    (c: ClassRecord) => c.superName == Some("java/lang/Enum")
  }

  function ClassAccess(flag: bv32): ClassRecord -> bool {
    (c: ClassRecord) => HasFlag(c.access, flag)
  }

  function ClassNamed(name: string): ClassRecord -> bool {
    (c: ClassRecord) => c.name == name
  }

  function ClassExtends(name: string): ClassRecord -> bool {
    (c: ClassRecord) => c.superName == Some(name)
  }

  function ClassImplements(name: string): ClassRecord -> bool {
    (c: ClassRecord) => name in c.interfaces
  }

  // ---------------------------------------------------------------------
  // Call and field-reference matchers (`CallContext`, `ReferenceContext`).
  // They are applied to call and field instructions only.

  function CallNamed(name: string): Insn -> bool {
    (i: Insn) => i.Call? && i.name == name
  }

  function CallNthArgIs(n: int, t: JType): Insn -> bool {
    (i: Insn) => i.Call? && NthArgIs(i.desc, n, t)
  }

  function CallHasArg(t: JType): Insn -> bool {
    (i: Insn) => i.Call? && HasArg(i.desc, t)
  }

  function CallArgCount(amount: int): Insn -> bool {
    (i: Insn) => i.Call? && ArgCount(i.desc, amount)
  }

  /** `hasExact(arguments)` on a call: the zipped prefix agrees. */
  function CallHasExact(args: seq<JType>): Insn -> bool {
    (i: Insn) => i.Call? && ArgumentTypes(i.desc).Some? && ZipAgrees(ArgumentTypes(i.desc).value, args)
  }

  function CallReturns(t: JType): Insn -> bool {
    (i: Insn) => i.Call? && ReturnsType(i.desc, t)
  }

  function CallOwnedBy(t: JType): Insn -> bool {
    (i: Insn) => i.Call? && i.owner == InternalName(t)
  }

  function CallCalledWith(opcode: int): Insn -> bool {
    (i: Insn) => i.Call? && i.opcode == opcode
  }

  function ReferenceNamed(name: string): Insn -> bool {
    (i: Insn) => i.FieldOp? && i.name == name
  }

  /** `Type.getType(desc) == type`. */
  function ReferenceIsType(t: JType): Insn -> bool {
    (i: Insn) => i.FieldOp? && ParseFieldDescriptor(i.desc) == Some(t)
  }

  function ReferenceOwnedBy(t: JType): Insn -> bool {
    (i: Insn) => i.FieldOp? && i.owner == InternalName(t)
  }

  function ReferenceCalledWith(opcode: int): Insn -> bool {
    (i: Insn) => i.FieldOp? && i.opcode == opcode
  }

  // ---------------------------------------------------------------------
  // Method matchers (`MethodContext`)

  function MethodConstantsHas(cst: Value): MethodData -> bool {
    (d: MethodData) => cst in MethodConstants(d.node)
  }

  function MethodStringsHas(s: string): MethodData -> bool {
    (d: MethodData) => s in MethodStrings(d.node)
  }

  /** `strings.containsAll(list)`. */
  function MethodStringsHasAll(ss: seq<string>): MethodData -> bool {
    (d: MethodData) => forall i :: 0 <= i < |ss| ==> ss[i] in MethodStrings(d.node)
  }

  function MethodStringsSome(p: string -> bool): MethodData -> bool {
    (d: MethodData) => AnyString(MethodStrings(d.node), p)
  }

  function MethodHasDesc(desc: string): MethodData -> bool {
    (d: MethodData) => d.node.desc == desc
  }

  /** `calls { block }`: some call of the method satisfies every matcher of
      the call context. */
  function MethodCalls(callMatchers: seq<Insn -> bool>): MethodData -> bool {
    (d: MethodData) => CallsMatching(d.node, (i: Insn) => All(callMatchers, i))
  }

  /** `callsSuper()`: an INVOKESPECIAL of a method with this method's name
      and descriptor. */
  function MethodCallsSuper(): MethodData -> bool {
    (d: MethodData) => CallsMatching(d.node, (i: Insn) => i.Call? && i.name == d.node.name && i.desc == d.node.desc && i.opcode == INVOKESPECIAL)
  }

  function MethodReferences(refMatchers: seq<Insn -> bool>): MethodData -> bool {
    (d: MethodData) => ReferencesMatching(d.node, (i: Insn) => All(refMatchers, i))
  }

  /** `calls(desc: MethodDescription)` as the source writes it: the method
      itself is compared with the description; its calls are not looked at. */
  function MethodCallsDescribedAsWritten(desc: MethodDescription): MethodData -> bool {
    (d: MethodData) => IsSimilar(DataAsDescription(d), desc, true)
  }

  /** `calls(desc: MethodDescription)` as documented: some call of the method
      is similar to the description. */
  function MethodCallsDescribed(desc: MethodDescription): MethodData -> bool {
    (d: MethodData) => CallsMatching(d.node, (i: Insn) => i.Call? && IsSimilar(CallDescription(i), desc, true))
  }

  function MethodNthArgIs(n: int, t: JType): MethodData -> bool {
    (d: MethodData) => NthArgIs(d.node.desc, n, t)
  }

  function MethodHasArg(t: JType): MethodData -> bool {
    (d: MethodData) => HasArg(d.node.desc, t)
  }

  function MethodArgCount(amount: int): MethodData -> bool {
    (d: MethodData) => ArgCount(d.node.desc, amount)
  }

  /** `hasExact(arguments)` on a method: the whole list is equal. */
  function MethodHasExact(args: seq<JType>): MethodData -> bool {
    (d: MethodData) => ArgumentTypes(d.node.desc) == Some(args)
  }

  function MethodReturns(t: JType): MethodData -> bool {
    (d: MethodData) => ReturnsType(d.node.desc, t)
  }

  /** `returns(self)`: the return type's internal name is the owner's name. */
  function MethodReturnsSelf(): MethodData -> bool {
    (d: MethodData) => ReturnType(d.node.desc).Some? && InternalName(ReturnType(d.node.desc).value) == d.owner.name
  }

  function MethodReturnsPrimitive(): MethodData -> bool {
    (d: MethodData) => ReturnType(d.node.desc).Some? && IsPrimitive(ReturnType(d.node.desc).value)
  }

  function MethodAccess(flag: bv32): MethodData -> bool {
    (d: MethodData) => HasFlag(d.node.access, flag)
  }

  /** `isVirtual()`: the static bit is clear. */
  function MethodIsVirtual(): MethodData -> bool {
    (d: MethodData) => d.node.access & ACC_STATIC == 0
  }

  function MethodNamed(name: string): MethodData -> bool {
    (d: MethodData) => d.node.name == name
  }

  /** `matchLazy { block }`: the matchers of a context built by `block`. */
  function MethodLazy(block: seq<MethodData -> bool>): MethodData -> bool {
    (d: MethodData) => All(block, d)
  }

  // ---------------------------------------------------------------------
  // Field matchers (`FieldContext`)

  /** `isType(type)`: the field's descriptor is the type's. */
  function FieldIsType(t: JType): FieldData -> bool {
    (f: FieldData) => f.field.desc == Descriptor(t)
  }

  function FieldIsTypeDesc(desc: string): FieldData -> bool {
    (f: FieldData) => f.field.desc == desc
  }

  /** `staticValue(constant)`: the field's constant value, `null` when none. */
  function FieldStaticValue(constant: Option<Value>): FieldData -> bool {
    (f: FieldData) => f.field.value == constant
  }

  function FieldAccess(flags: bv32): FieldData -> bool {
    (f: FieldData) => HasFlag(f.field.access, flags)
  }

  function FieldNamed(name: string): FieldData -> bool {
    (f: FieldData) => f.field.name == name
  }

  function FieldLazy(block: seq<FieldData -> bool>): FieldData -> bool {
    (f: FieldData) => All(block, f)
  }

  // ---------------------------------------------------------------------
  // Properties of the matchers

  /** An argument index outside the argument list never matches, for a
      method or a call alike. */
  lemma NthOutOfRange(d: MethodData, call: Insn, n: int, t: JType)
    requires ArgumentTypes(d.node.desc).Some? ==> n < 0 || n >= |ArgumentTypes(d.node.desc).value|
    requires call.Call? && (ArgumentTypes(call.desc).Some? ==> n < 0 || n >= |ArgumentTypes(call.desc).value|)
    ensures !MethodNthArgIs(n, t)(d) && !CallNthArgIs(n, t)(call)
  {
  }

  /** A call's `hasExact` compares the positions the call and the list
      share: a list that is a prefix of the call's arguments, the empty list
      included, matches. A method's `hasExact` demands the whole list. */
  lemma HasExactPrefix(call: Insn, d: MethodData, args: seq<JType>, k: nat)
    requires call.Call? && ArgumentTypes(call.desc) == Some(args) && k <= |args|
    ensures CallHasExact(args[..k])(call)
    ensures CallHasExact([])(call)
    ensures MethodHasExact(args[..k])(d) <==> ArgumentTypes(d.node.desc) == Some(args[..k])
  {
    ZipAgreesIff(args, args[..k]);
  }

  /** The two `hasExact` disagree: `(IJ)V` matches `[I]` as a call but not
      as a method. */
  lemma HasExactDisagree()
    ensures var call := Call(INVOKESTATIC, "A", "m", "(IJ)V", false);
      var d := MethodData(ClassRecord("A", None, [], 0, [], []), MethodRecord("m", "(IJ)V", 0, []));
      CallHasExact([Prim(Int)])(call) && !MethodHasExact([Prim(Int)])(d)
  {
    MethodDescriptorRoundTrip(Meth([Prim(Int), Prim(Long)], Prim(Void)));
    assert Descriptor(Meth([Prim(Int), Prim(Long)], Prim(Void))) == "(IJ)V" by {
      assert ArgsDescriptor([Prim(Int), Prim(Long)]) == "IJ" by {
        assert ArgsDescriptor([Prim(Long)]) == "J";
      }
    }
    var args := [Prim(Int), Prim(Long)];
    ZipAgreesIff(args, [Prim(Int)]);
  }

  /** `calls(desc)` as written accepts a method that is itself described by
      `desc` and calls nothing, and refuses a method that does call it; the
      documented matcher does the opposite on both. */
  lemma CallsDescribedAsWrittenTestsTheMethod()
    ensures var desc := MethodDescription("target", "()V", "A", 0, false);
      var owner := ClassRecord("A", None, [], 0, [], []);
      var self := MethodData(owner, MethodRecord("target", "()V", 0, []));
      var caller := MethodData(owner, MethodRecord("caller", "()V", 0, [Call(INVOKESTATIC, "A", "target", "()V", false)]));
      MethodCallsDescribedAsWritten(desc)(self) && !MethodCallsDescribed(desc)(self)
      && !MethodCallsDescribedAsWritten(desc)(caller) && MethodCallsDescribed(desc)(caller)
  {
    var caller := MethodRecord("caller", "()V", 0, [Call(INVOKESTATIC, "A", "target", "()V", false)]);
    var self := MethodRecord("target", "()V", 0, []);
    assert Calls(caller) == [Call(INVOKESTATIC, "A", "target", "()V", false)];
    assert Calls(self) == [];
  }

  /** The documented `calls(desc)` holds exactly when some call instruction
      of the method names the described owner, name and descriptor. */
  lemma CallsDescribedIff(desc: MethodDescription, d: MethodData)
    ensures MethodCallsDescribed(desc)(d) <==>
      exists i :: 0 <= i < |d.node.insns| && d.node.insns[i].Call?
        && d.node.insns[i].name == desc.name && d.node.insns[i].desc == desc.descriptor && d.node.insns[i].owner == desc.owner
  {
    CallsMatchingIff(d.node, (i: Insn) => i.Call? && IsSimilar(CallDescription(i), desc, true));
  }

  // ---------------------------------------------------------------------
  // Entities

  /** How a method block ran on a `MethodTransformContext`: its transforms
      and its two frame settings. */
  datatype MethodTransformOutcome = MethodTransformOutcome(transforms: seq<Transform>, shouldExpandFrames: bool, allowComputeFrames: bool)

  /** A declared method: its matchers, whether it may be missing, and its
      transform blocks, each given by what it yields for the found method. */
  datatype MethodEntity = MethodEntity(matchers: seq<MethodData -> bool>, allowMissing: bool,
                                       transformations: seq<MethodData -> MethodTransformOutcome>)

  datatype FieldEntity = FieldEntity(matchers: seq<FieldData -> bool>, allowMissing: bool)

  /** A found hook, named by an identifier; what it does is outside the
      model. */
  type Hook = nat

  /** A class block, given by the class transforms it yields for the node. */
  type ClassBlock = ClassRecord -> seq<ClassTransform>

  /** A finished `ClassContext`. */
  datatype ClassSpec = ClassSpec(
    matchers: seq<ClassRecord -> bool>,
    existingThreshold: real,
    methodEntities: seq<(string, MethodEntity)>,
    fieldEntities: seq<(string, FieldEntity)>,
    transformations: seq<ClassBlock>,
    foundHooks: seq<Hook>)

  function Keys<V>(es: seq<(string, V)>): (ks: seq<string>)
    ensures |ks| == |es| && forall i :: 0 <= i < |es| ==> ks[i] == es[i].0
  {
    seq(|es|, i requires 0 <= i < |es| => es[i].0)
  }

  predicate DistinctKeys<V>(es: seq<(string, V)>) {
    forall i, j :: 0 <= i < j < |es| ==> es[i].0 != es[j].0
  }

  /** `entities += name to value` on an insertion-ordered map: a new name
      goes last, a known one keeps its place and gets the new value. */
  function Put<V>(es: seq<(string, V)>, k: string, v: V): seq<(string, V)>
    decreases |es|
  {
    if |es| == 0 then [(k, v)]
    else if es[0].0 == k then [(k, v)] + es[1..]
    else [es[0]] + Put(es[1..], k, v)
  }

  /** Putting a new name appends it. */
  lemma {:induction false} PutNew<V>(es: seq<(string, V)>, k: string, v: V)
    requires k !in Keys(es)
    ensures Put(es, k, v) == es + [(k, v)]
    decreases |es|
  {
    if |es| > 0 {
      assert Keys(es)[0] == es[0].0;
      assert k !in Keys(es[1..]) by {
        forall i | 0 <= i < |es[1..]| ensures Keys(es[1..])[i] != k {
          assert Keys(es)[i + 1] == es[1..][i].0;
        }
      }
      PutNew(es[1..], k, v);
      assert es == [es[0]] + es[1..];
    }
  }

  /** Putting a known name replaces its value in place. */
  lemma {:induction false} PutKnown<V>(es: seq<(string, V)>, k: string, v: V)
    requires DistinctKeys(es) && k in Keys(es)
    ensures |Put(es, k, v)| == |es|
    ensures forall i :: 0 <= i < |es| ==> Put(es, k, v)[i] == (if es[i].0 == k then (k, v) else es[i])
    decreases |es|
  {
    var r := Put(es, k, v);
    if es[0].0 == k {
      forall i | 0 < i < |es| ensures r[i] == es[i] {
        assert es[i].0 != es[0].0;
      }
    } else {
      var j :| 0 <= j < |es| && Keys(es)[j] == k;
      assert Keys(es[1..])[j - 1] == k;
      assert DistinctKeys(es[1..]) by {
        forall a, b | 0 <= a < b < |es[1..]| ensures es[1..][a].0 != es[1..][b].0 {
          assert es[1..][a] == es[a + 1] && es[1..][b] == es[b + 1];
        }
      }
      PutKnown(es[1..], k, v);
      forall i | 0 < i < |es| ensures r[i] == (if es[i].0 == k then (k, v) else es[i]) {
        assert r[i] == Put(es[1..], k, v)[i - 1] && es[i] == es[1..][i - 1];
      }
    }
  }

  /** After a put the name maps to the value, every other entry keeps its
      value and its place, the names stay distinct, and the map grows only
      by a new name, at the end. */
  lemma PutProperties<V>(es: seq<(string, V)>, k: string, v: V)
    requires DistinctKeys(es)
    ensures var r := Put(es, k, v);
      DistinctKeys(r)
      && (k in Keys(es) ==> |r| == |es| && forall i :: 0 <= i < |es| ==> r[i] == (if es[i].0 == k then (k, v) else es[i]))
      && (k !in Keys(es) ==> r == es + [(k, v)])
  {
    var r := Put(es, k, v);
    if k in Keys(es) {
      PutKnown(es, k, v);
      forall i, j | 0 <= i < j < |r| ensures r[i].0 != r[j].0 {
        assert r[i].0 == es[i].0 && r[j].0 == es[j].0;
      }
    } else {
      PutNew(es, k, v);
      forall i, j | 0 <= i < j < |r| ensures r[i].0 != r[j].0 {
        if j == |es| {
          assert Keys(es)[i] == es[i].0;
        } else {
          assert r[i] == es[i] && r[j] == es[j];
        }
      }
    }
  }

  // ---------------------------------------------------------------------
  // The DSL

  /** `CallContext`. */
  class CallContext {
    var matchers: seq<Insn -> bool>

    constructor()
      ensures matchers == []
    {
      matchers := [];
    }

    predicate Matches(i: Insn)
      reads this
    {
      All(matchers, i)
    }

    /** `match(matcher)` and `matcher(block)`. */
    method Match(m: Insn -> bool)
      modifies this
      ensures matchers == old(matchers) + [m]
      ensures forall i :: Matches(i) <==> old(Matches(i)) && m(i)
    {
      matchers := matchers + [m];
      forall i ensures Matches(i) <==> old(Matches(i)) && m(i) {
        AllAppend(old(matchers), m, i);
      }
    }

    method Named(name: string)
      modifies this
      ensures matchers == old(matchers) + [CallNamed(name)]
      ensures forall i :: Matches(i) <==> old(Matches(i)) && (i.Call? && i.name == name)
    {
      Match(CallNamed(name));
    }

    /** `arguments[n] = type`. */
    method SetArg(n: int, t: JType)
      modifies this
      ensures matchers == old(matchers) + [CallNthArgIs(n, t)]
      ensures forall i :: Matches(i) <==> old(Matches(i)) && (i.Call? && NthArgIs(i.desc, n, t))
    {
      Match(CallNthArgIs(n, t));
    }

    method HasArgument(t: JType)
      modifies this
      ensures matchers == old(matchers) + [CallHasArg(t)]
      ensures forall i :: Matches(i) <==> old(Matches(i)) && (i.Call? && HasArg(i.desc, t))
    {
      Match(CallHasArg(t));
    }

    /** `count(amount)`; `hasNone()` is `count(0)`. */
    method Count(amount: int)
      modifies this
      ensures matchers == old(matchers) + [CallArgCount(amount)]
      ensures forall i :: Matches(i) <==> old(Matches(i)) && (i.Call? && ArgCount(i.desc, amount))
    {
      Match(CallArgCount(amount));
    }

    method HasExact(args: seq<JType>)
      modifies this
      ensures matchers == old(matchers) + [CallHasExact(args)]
      ensures forall i :: Matches(i) <==> old(Matches(i)) && (i.Call? && ArgumentTypes(i.desc).Some? && ZipAgrees(ArgumentTypes(i.desc).value, args))
    {
      Match(CallHasExact(args));
    }

    method Returns(t: JType)
      modifies this
      ensures matchers == old(matchers) + [CallReturns(t)]
      ensures forall i :: Matches(i) <==> old(Matches(i)) && (i.Call? && ReturnsType(i.desc, t))
    {
      Match(CallReturns(t));
    }

    method OwnedBy(t: JType)
      modifies this
      ensures matchers == old(matchers) + [CallOwnedBy(t)]
      ensures forall i :: Matches(i) <==> old(Matches(i)) && (i.Call? && i.owner == InternalName(t))
    {
      Match(CallOwnedBy(t));
    }

    method CalledWith(opcode: int)
      modifies this
      ensures matchers == old(matchers) + [CallCalledWith(opcode)]
      ensures forall i :: Matches(i) <==> old(Matches(i)) && (i.Call? && i.opcode == opcode)
    {
      Match(CallCalledWith(opcode));
    }

    /** `noMatch()`: from now on no call matches. */
    method NoMatch()
      modifies this
      ensures matchers == old(matchers) + [Never()]
      ensures forall i :: !Matches(i)
    {
      Match(Never());
      forall i ensures !Matches(i) {
        AllAppend(old(matchers), Never(), i);
        assert old(matchers) + [Never()] + [] == matchers;
      }
    }
  }

  /** `ReferenceContext`. */
  class ReferenceContext {
    var matchers: seq<Insn -> bool>

    constructor()
      ensures matchers == []
    {
      matchers := [];
    }

    predicate Matches(i: Insn)
      reads this
    {
      All(matchers, i)
    }

    /** `match(matcher)` and `matcher(block)`. */
    method Match(m: Insn -> bool)
      modifies this
      ensures matchers == old(matchers) + [m]
      ensures forall i :: Matches(i) <==> old(Matches(i)) && m(i)
    {
      matchers := matchers + [m];
      forall i ensures Matches(i) <==> old(Matches(i)) && m(i) {
        AllAppend(old(matchers), m, i);
      }
    }

    method Named(name: string)
      modifies this
      ensures matchers == old(matchers) + [ReferenceNamed(name)]
      ensures forall i :: Matches(i) <==> old(Matches(i)) && (i.FieldOp? && i.name == name)
    {
      Match(ReferenceNamed(name));
    }

    method IsType(t: JType)
      modifies this
      ensures matchers == old(matchers) + [ReferenceIsType(t)]
      ensures forall i :: Matches(i) <==> old(Matches(i)) && (i.FieldOp? && ParseFieldDescriptor(i.desc) == Some(t))
    {
      Match(ReferenceIsType(t));
    }

    method OwnedBy(t: JType)
      modifies this
      ensures matchers == old(matchers) + [ReferenceOwnedBy(t)]
      ensures forall i :: Matches(i) <==> old(Matches(i)) && (i.FieldOp? && i.owner == InternalName(t))
    {
      Match(ReferenceOwnedBy(t));
    }

    method CalledWith(opcode: int)
      modifies this
      ensures matchers == old(matchers) + [ReferenceCalledWith(opcode)]
      ensures forall i :: Matches(i) <==> old(Matches(i)) && (i.FieldOp? && i.opcode == opcode)
    {
      Match(ReferenceCalledWith(opcode));
    }

    method NoMatch()
      modifies this
      ensures matchers == old(matchers) + [Never()]
      ensures forall i :: !Matches(i)
    {
      Match(Never());
      forall i ensures !Matches(i) {
        AllAppend(old(matchers), Never(), i);
        assert old(matchers) + [Never()] + [] == matchers;
      }
    }
  }

  /** `MethodContext`. */
  class MethodContext {
    var entity: MethodEntity

    constructor()
      ensures entity == MethodEntity([], false, [])
    {
      entity := MethodEntity([], false, []);
    }

    predicate Matches(d: MethodData)
      reads this
    {
      All(entity.matchers, d)
    }

    /** `match(matcher)` and `matcher(block)`. */
    method Match(m: MethodData -> bool)
      modifies this
      ensures entity == old(entity).(matchers := old(entity).matchers + [m])
      ensures forall d :: Matches(d) <==> old(Matches(d)) && m(d)
    {
      entity := entity.(matchers := entity.matchers + [m]);
      forall d ensures Matches(d) <==> old(Matches(d)) && m(d) {
        AllAppend(old(entity.matchers), m, d);
      }
    }

    /** `allowMissing = value`. */
    method SetAllowMissing(value: bool)
      modifies this
      ensures entity == old(entity).(allowMissing := value)
    {
      entity := entity.(allowMissing := value);
    }

    /** `transform { block }`. */
    method Transform(block: MethodData -> MethodTransformOutcome)
      modifies this
      ensures entity == old(entity).(transformations := old(entity).transformations + [block])
    {
      entity := entity.(transformations := entity.transformations + [block]);
    }

    method ConstantsHas(cst: Value)
      modifies this
      ensures entity == old(entity).(matchers := old(entity).matchers + [MethodConstantsHas(cst)])
      ensures forall d :: Matches(d) <==> old(Matches(d)) && (cst in MethodConstants(d.node))
    {
      Match(MethodConstantsHas(cst));
    }

    method StringsHas(s: string)
      modifies this
      ensures entity == old(entity).(matchers := old(entity).matchers + [MethodStringsHas(s)])
      ensures forall d :: Matches(d) <==> old(Matches(d)) && (s in MethodStrings(d.node))
    {
      Match(MethodStringsHas(s));
    }

    method StringsHasAll(ss: seq<string>)
      modifies this
      ensures entity == old(entity).(matchers := old(entity).matchers + [MethodStringsHasAll(ss)])
      ensures forall d :: Matches(d) <==> old(Matches(d)) && (forall i :: 0 <= i < |ss| ==> ss[i] in MethodStrings(d.node))
    {
      Match(MethodStringsHasAll(ss));
    }

    /** `strings hasPartial part` is `strings some { it.contains(part) }`. */
    method StringsSome(p: string -> bool)
      modifies this
      ensures entity == old(entity).(matchers := old(entity).matchers + [MethodStringsSome(p)])
      ensures forall d :: Matches(d) <==> old(Matches(d)) && (AnyString(MethodStrings(d.node), p))
    {
      Match(MethodStringsSome(p));
    }

    method HasDesc(desc: string)
      modifies this
      ensures entity == old(entity).(matchers := old(entity).matchers + [MethodHasDesc(desc)])
      ensures forall d :: Matches(d) <==> old(Matches(d)) && (d.node.desc == desc)
    {
      Match(MethodHasDesc(desc));
    }

    /** `calls { block }`: `call` is the context the block built. */
    method Calls(call: CallContext)
      modifies this
      ensures entity == old(entity).(matchers := old(entity).matchers + [MethodCalls(call.matchers)])
      ensures forall d :: Matches(d) <==> (old(Matches(d))
        && exists j :: 0 <= j < |d.node.insns| && d.node.insns[j].Call? && call.Matches(d.node.insns[j]))
    {
      var ms := call.matchers;
      Match(MethodCalls(ms));
      forall d ensures MethodCalls(ms)(d) <==> exists j :: 0 <= j < |d.node.insns| && d.node.insns[j].Call? && All(ms, d.node.insns[j]) {
        CallsMatchingIff(d.node, (i: Insn) => All(ms, i));
      }
    }

    method CallsSuper()
      modifies this
      ensures entity == old(entity).(matchers := old(entity).matchers + [MethodCallsSuper()])
      ensures forall d :: Matches(d) <==> old(Matches(d)) && (CallsMatching(d.node, (i: Insn) => i.Call? && i.name == d.node.name && i.desc == d.node.desc && i.opcode == INVOKESPECIAL))
    {
      Match(MethodCallsSuper());
    }

    method References(ref: ReferenceContext)
      modifies this
      ensures entity == old(entity).(matchers := old(entity).matchers + [MethodReferences(ref.matchers)])
      ensures forall d :: Matches(d) <==> (old(Matches(d))
        && exists j :: 0 <= j < |d.node.insns| && d.node.insns[j].FieldOp? && ref.Matches(d.node.insns[j]))
    {
      var ms := ref.matchers;
      Match(MethodReferences(ms));
      forall d ensures MethodReferences(ms)(d) <==> exists j :: 0 <= j < |d.node.insns| && d.node.insns[j].FieldOp? && All(ms, d.node.insns[j]) {
        ReferencesMatchingIff(d.node, (i: Insn) => All(ms, i));
      }
    }

    /** `calls(desc)`, with the documented meaning. */
    method CallsDescribed(desc: MethodDescription)
      modifies this
      ensures entity == old(entity).(matchers := old(entity).matchers + [MethodCallsDescribed(desc)])
      ensures forall d :: Matches(d) <==> old(Matches(d)) && (CallsMatching(d.node, (i: Insn) => i.Call? && IsSimilar(CallDescription(i), desc, true)))
    {
      Match(MethodCallsDescribed(desc));
    }

    /** `calls(data)` is `calls(data.asDescription())`. */
    method CallsData(data: MethodData)
      modifies this
      ensures entity == old(entity).(matchers := old(entity).matchers + [MethodCallsDescribed(DataAsDescription(data))])
    {
      CallsDescribed(DataAsDescription(data));
    }

    /** `nth(n, type)` and `arguments[n] = type`. */
    method Nth(n: int, t: JType)
      modifies this
      ensures entity == old(entity).(matchers := old(entity).matchers + [MethodNthArgIs(n, t)])
      ensures forall d :: Matches(d) <==> old(Matches(d)) && (NthArgIs(d.node.desc, n, t))
    {
      Match(MethodNthArgIs(n, t));
    }

    method HasArgument(t: JType)
      modifies this
      ensures entity == old(entity).(matchers := old(entity).matchers + [MethodHasArg(t)])
      ensures forall d :: Matches(d) <==> old(Matches(d)) && (HasArg(d.node.desc, t))
    {
      Match(MethodHasArg(t));
    }

    /** `count(amount)`; `hasNone()` is `count(0)`. */
    method Count(amount: int)
      modifies this
      ensures entity == old(entity).(matchers := old(entity).matchers + [MethodArgCount(amount)])
      ensures forall d :: Matches(d) <==> old(Matches(d)) && (ArgCount(d.node.desc, amount))
    {
      Match(MethodArgCount(amount));
    }

    method HasExact(args: seq<JType>)
      modifies this
      ensures entity == old(entity).(matchers := old(entity).matchers + [MethodHasExact(args)])
      ensures forall d :: Matches(d) <==> old(Matches(d)) && (ArgumentTypes(d.node.desc) == Some(args))
    {
      Match(MethodHasExact(args));
    }

    /** `returns(type)`; `returns(node)` is `returns(node.type)`. */
    method Returns(t: JType)
      modifies this
      ensures entity == old(entity).(matchers := old(entity).matchers + [MethodReturns(t)])
      ensures forall d :: Matches(d) <==> old(Matches(d)) && (ReturnsType(d.node.desc, t))
    {
      Match(MethodReturns(t));
    }

    method ReturnsSelf()
      modifies this
      ensures entity == old(entity).(matchers := old(entity).matchers + [MethodReturnsSelf()])
      ensures forall d :: Matches(d) <==> old(Matches(d)) && (ReturnType(d.node.desc).Some? && InternalName(ReturnType(d.node.desc).value) == d.owner.name)
    {
      Match(MethodReturnsSelf());
    }

    method ReturnsPrimitive()
      modifies this
      ensures entity == old(entity).(matchers := old(entity).matchers + [MethodReturnsPrimitive()])
      ensures forall d :: Matches(d) <==> old(Matches(d)) && (ReturnType(d.node.desc).Some? && IsPrimitive(ReturnType(d.node.desc).value))
    {
      Match(MethodReturnsPrimitive());
    }

    /** `access(flag)`; `isStatic()`, `isPrivate()`, `isFinal()`,
        `isProtected()`, `isPublic()` and `isAbstract()` pass their flag. */
    method Access(flag: bv32)
      modifies this
      ensures entity == old(entity).(matchers := old(entity).matchers + [MethodAccess(flag)])
      ensures forall d :: Matches(d) <==> old(Matches(d)) && (HasFlag(d.node.access, flag))
    {
      Match(MethodAccess(flag));
    }

    method IsVirtual()
      modifies this
      ensures entity == old(entity).(matchers := old(entity).matchers + [MethodIsVirtual()])
      ensures forall d :: Matches(d) <==> old(Matches(d)) && (d.node.access & ACC_STATIC == 0)
    {
      Match(MethodIsVirtual());
    }

    /** `named(name)`; `isConstructor()` and `isStaticInit()` name `<init>`
        and `<clinit>`. */
    method Named(name: string)
      modifies this
      ensures entity == old(entity).(matchers := old(entity).matchers + [MethodNamed(name)])
      ensures forall d :: Matches(d) <==> old(Matches(d)) && (d.node.name == name)
    {
      Match(MethodNamed(name));
    }

    /** `matchLazy { block }`: `block` is the list of matchers the block
        registers. */
    method MatchLazy(block: seq<MethodData -> bool>)
      modifies this
      ensures entity == old(entity).(matchers := old(entity).matchers + [MethodLazy(block)])
      ensures forall d :: Matches(d) <==> old(Matches(d)) && (All(block, d))
    {
      Match(MethodLazy(block));
    }

    method NoMatch()
      modifies this
      ensures entity == old(entity).(matchers := old(entity).matchers + [Never()])
      ensures forall d :: !Matches(d)
    {
      Match(Never());
      forall d ensures !Matches(d) {
        AllAppend(old(entity).matchers, Never(), d);
        assert old(entity).matchers + [Never()] + [] == entity.matchers;
      }
    }
  }

  /** `FieldContext`. */
  class FieldContext {
    var entity: FieldEntity

    constructor()
      ensures entity == FieldEntity([], false)
    {
      entity := FieldEntity([], false);
    }

    predicate Matches(f: FieldData)
      reads this
    {
      All(entity.matchers, f)
    }

    /** `match(matcher)` and `matcher(block)`. */
    method Match(m: FieldData -> bool)
      modifies this
      ensures entity == old(entity).(matchers := old(entity).matchers + [m])
      ensures forall f :: Matches(f) <==> old(Matches(f)) && m(f)
    {
      entity := entity.(matchers := entity.matchers + [m]);
      forall f ensures Matches(f) <==> old(Matches(f)) && m(f) {
        AllAppend(old(entity.matchers), m, f);
      }
    }

    method SetAllowMissing(value: bool)
      modifies this
      ensures entity == old(entity).(allowMissing := value)
    {
      entity := entity.(allowMissing := value);
    }

    /** `isType(type)`; `isType(node)` is `isType(node.type)`. */
    method IsType(t: JType)
      modifies this
      ensures entity == old(entity).(matchers := old(entity).matchers + [FieldIsType(t)])
      ensures forall f :: Matches(f) <==> old(Matches(f)) && (f.field.desc == Descriptor(t))
    {
      Match(FieldIsType(t));
    }

    method IsTypeDesc(desc: string)
      modifies this
      ensures entity == old(entity).(matchers := old(entity).matchers + [FieldIsTypeDesc(desc)])
      ensures forall f :: Matches(f) <==> old(Matches(f)) && (f.field.desc == desc)
    {
      Match(FieldIsTypeDesc(desc));
    }

    method StaticValue(constant: Option<Value>)
      modifies this
      ensures entity == old(entity).(matchers := old(entity).matchers + [FieldStaticValue(constant)])
      ensures forall f :: Matches(f) <==> old(Matches(f)) && (f.field.value == constant)
    {
      Match(FieldStaticValue(constant));
    }

    /** `access(flags)`; `isStatic()`, `isPrivate()`, `isFinal()`,
        `isPublic()` and `isProtected()` pass their flag. */
    method Access(flags: bv32)
      modifies this
      ensures entity == old(entity).(matchers := old(entity).matchers + [FieldAccess(flags)])
      ensures forall f :: Matches(f) <==> old(Matches(f)) && (HasFlag(f.field.access, flags))
    {
      Match(FieldAccess(flags));
    }

    method Named(name: string)
      modifies this
      ensures entity == old(entity).(matchers := old(entity).matchers + [FieldNamed(name)])
      ensures forall f :: Matches(f) <==> old(Matches(f)) && (f.field.name == name)
    {
      Match(FieldNamed(name));
    }

    method MatchLazy(block: seq<FieldData -> bool>)
      modifies this
      ensures entity == old(entity).(matchers := old(entity).matchers + [FieldLazy(block)])
      ensures forall f :: Matches(f) <==> old(Matches(f)) && (All(block, f))
    {
      Match(FieldLazy(block));
    }

    method NoMatch()
      modifies this
      ensures entity == old(entity).(matchers := old(entity).matchers + [Never()])
      ensures forall f :: !Matches(f)
    {
      Match(Never());
      forall f ensures !Matches(f) {
        AllAppend(old(entity).matchers, Never(), f);
        assert old(entity).matchers + [Never()] + [] == entity.matchers;
      }
    }
  }

  /** `ClassContext`, with its `MethodsContext` and `FieldsContext`. */
  class ClassContext {
    var spec: ClassSpec
    /** `MethodsContext.unnamedCounter`. */
    var unnamedCounter: nat

    constructor()
      ensures spec == ClassSpec([], 1.0, [], [], [], []) && unnamedCounter == 0
    {
      spec := ClassSpec([], 1.0, [], [], [], []);
      unnamedCounter := 0;
    }

    predicate Matches(c: ClassRecord)
      reads this
    {
      All(spec.matchers, c)
    }

    /** `node match matcher`. */
    method Match(m: ClassRecord -> bool)
      modifies this
      ensures spec == old(spec).(matchers := old(spec).matchers + [m]) && unnamedCounter == old(unnamedCounter)
      ensures forall c :: Matches(c) <==> old(Matches(c)) && m(c)
    {
      spec := spec.(matchers := spec.matchers + [m]);
      forall c ensures Matches(c) <==> old(Matches(c)) && m(c) {
        AllAppend(old(spec.matchers), m, c);
      }
    }

    method ConstantsHas(cst: Value)
      modifies this
      ensures spec == old(spec).(matchers := old(spec).matchers + [ClassConstantsHas(cst)]) && unnamedCounter == old(unnamedCounter)
      ensures forall c :: Matches(c) <==> old(Matches(c)) && (cst in ClassConstants(c))
    {
      Match(ClassConstantsHas(cst));
    }

    method StringsHas(s: string)
      modifies this
      ensures spec == old(spec).(matchers := old(spec).matchers + [ClassStringsHas(s)]) && unnamedCounter == old(unnamedCounter)
      ensures forall c :: Matches(c) <==> old(Matches(c)) && (s in ClassStrings(c))
    {
      Match(ClassStringsHas(s));
    }

    /** `strings hasPartial part` is `strings some { it.contains(part) }`. */
    method StringsSome(p: string -> bool)
      modifies this
      ensures spec == old(spec).(matchers := old(spec).matchers + [ClassStringsSome(p)]) && unnamedCounter == old(unnamedCounter)
      ensures forall c :: Matches(c) <==> old(Matches(c)) && (AnyString(ClassStrings(c), p))
    {
      Match(ClassStringsSome(p));
    }

    method IsEnum()
      modifies this
      ensures spec == old(spec).(matchers := old(spec).matchers + [ClassIsEnum()]) && unnamedCounter == old(unnamedCounter)
      ensures forall c :: Matches(c) <==> old(Matches(c)) && (c.superName == Some("java/lang/Enum"))
    {
      Match(ClassIsEnum());
    }

    /** `access(flag)`; `isStatic()`, `isPrivate()`, `isFinal()`,
        `isInterface()`, `isPublic()` and `isAbstract()` pass their flag. */
    method Access(flag: bv32)
      modifies this
      ensures spec == old(spec).(matchers := old(spec).matchers + [ClassAccess(flag)]) && unnamedCounter == old(unnamedCounter)
      ensures forall c :: Matches(c) <==> old(Matches(c)) && (HasFlag(c.access, flag))
    {
      Match(ClassAccess(flag));
    }

    method Named(name: string)
      modifies this
      ensures spec == old(spec).(matchers := old(spec).matchers + [ClassNamed(name)]) && unnamedCounter == old(unnamedCounter)
      ensures forall c :: Matches(c) <==> old(Matches(c)) && (c.name == name)
    {
      Match(ClassNamed(name));
    }

    method Extends(name: string)
      modifies this
      ensures spec == old(spec).(matchers := old(spec).matchers + [ClassExtends(name)]) && unnamedCounter == old(unnamedCounter)
      ensures forall c :: Matches(c) <==> old(Matches(c)) && (c.superName == Some(name))
    {
      Match(ClassExtends(name));
    }

    method Implements(name: string)
      modifies this
      ensures spec == old(spec).(matchers := old(spec).matchers + [ClassImplements(name)]) && unnamedCounter == old(unnamedCounter)
      ensures forall c :: Matches(c) <==> old(Matches(c)) && (name in c.interfaces)
    {
      Match(ClassImplements(name));
    }

    /** `existingThreshold = value`. */
    method SetExistingThreshold(value: real)
      modifies this
      ensures spec == old(spec).(existingThreshold := value) && unnamedCounter == old(unnamedCounter)
    {
      spec := spec.(existingThreshold := value);
    }

    /** `name { block }` in `methods { }`: `ctx` is the context the block
        built. */
    method AddMethod(name: string, ctx: MethodContext)
      modifies this
      ensures spec == old(spec).(methodEntities := Put(old(spec).methodEntities, name, ctx.entity))
      ensures unnamedCounter == old(unnamedCounter)
    {
      spec := spec.(methodEntities := Put(spec.methodEntities, name, ctx.entity));
    }

    /** `unnamedMethod { block }`: a method under the next unnamed name. */
    method UnnamedMethod(ctx: MethodContext)
      modifies this
      ensures spec == old(spec).(methodEntities := Put(old(spec).methodEntities, "__unnamed" + Decimal(old(unnamedCounter)), ctx.entity))
      ensures unnamedCounter == old(unnamedCounter) + 1
    {
      var n := unnamedCounter;
      unnamedCounter := unnamedCounter + 1;
      spec := spec.(methodEntities := Put(spec.methodEntities, "__unnamed" + Decimal(n), ctx.entity));
    }

    /** `name { block }` in `fields { }`. */
    method AddField(name: string, ctx: FieldContext)
      modifies this
      ensures spec == old(spec).(fieldEntities := Put(old(spec).fieldEntities, name, ctx.entity))
      ensures unnamedCounter == old(unnamedCounter)
    {
      spec := spec.(fieldEntities := Put(spec.fieldEntities, name, ctx.entity));
    }

    /** `transform { block }`. */
    method Transform(block: ClassBlock)
      modifies this
      ensures spec == old(spec).(transformations := old(spec).transformations + [block]) && unnamedCounter == old(unnamedCounter)
    {
      spec := spec.(transformations := spec.transformations + [block]);
    }

    /** `onFound(hook)`. */
    method OnFound(hook: Hook)
      modifies this
      ensures spec == old(spec).(foundHooks := old(spec).foundHooks + [hook]) && unnamedCounter == old(unnamedCounter)
    {
      spec := spec.(foundHooks := spec.foundHooks + [hook]);
    }
  }

  /** `methodByFinder { block }`: the first method the context matches. */
  function MethodByFinder(c: ClassRecord, matchers: seq<MethodData -> bool>): (r: Option<MethodData>)
    ensures r.Some? <==> exists i :: 0 <= i < |c.methods| && All(matchers, MethodData(c, c.methods[i]))
    ensures r.Some? ==> r.value.owner == c && r.value.node in c.methods && All(matchers, r.value)
  {
    var ds := MethodDataOf(c);
    var r := Find(ds, (d: MethodData) => All(matchers, d));
    if r.None? then
      assert forall i :: 0 <= i < |c.methods| ==> !All(matchers, MethodData(c, c.methods[i])) by {
        forall i | 0 <= i < |c.methods| ensures !All(matchers, MethodData(c, c.methods[i])) {
          assert ds[i] == MethodData(c, c.methods[i]);
        }
      }
      r
    else
      r
  }

  /** Whether a method satisfies every matcher of a context. */
  function MatchesAll(matchers: seq<MethodData -> bool>): MethodData -> bool {
    (d: MethodData) => All(matchers, d)
  }

  /** `allMethodsByFinder { block }`: every method the context matches, in
      order. */
  function AllMethodsByFinder(c: ClassRecord, matchers: seq<MethodData -> bool>): (r: seq<MethodData>)
    ensures forall d :: d in r <==> d in MethodDataOf(c) && All(matchers, d)
    ensures KeptInOrder(MethodDataOf(c), MatchesAll(matchers), r)
  {
    var p := MatchesAll(matchers);
    var r := Filter(MethodDataOf(c), p);
    forall d ensures d in r <==> d in MethodDataOf(c) && All(matchers, d) {
      FilterMembership(MethodDataOf(c), p, d);
    }
    FilterKeepsOrder(MethodDataOf(c), p);
    r
  }
}
