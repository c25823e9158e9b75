/** Method and class transforms (Transforming.kt). A method transform is a
    visitor placed in front of a parent visitor: it sees each event of a
    method body and forwards what it decides to the parent. `Step` gives
    what one visitor forwards for one event, `Apply` what it forwards for a
    whole body, and `Pipeline` what a folded list of transforms forwards.
    `TransformVisitor` is the visitor object itself, and
    `MethodTransformContext` the DSL that collects transforms. */
module Transforming {
  import opened Wrappers
  import opened KotlinStrings
  import opened Jvm
  import opened JvmTypes
  import opened Extensions
  import opened Descriptions
  import opened Emitters

  /** What each DSL call adds. Handlers are the events they emit. */
  datatype Transform =
    | Overwrite(body: seq<Event>)
    | Enter(enterHandler: seq<Event>)
    | Exit(exitHandler: int -> seq<Event>)
    | Advice(adviceMatcher: MethodDescription -> bool, before: seq<Event>, after: seq<Event>, handleOnce: bool)
    | ReplaceCall(callMatcher: MethodDescription -> bool, matchOnce: bool, replacement: seq<Event>)
    | ReplaceConstants(mapping: map<Value, Value>)
    | ReplaceString(from: string, to: string)
    | Custom(rewrite: Event -> seq<Event>)

  /** The description a call visitor builds for a call: access -1, every bit
      set. */
  function CallDescription(insn: Insn): (d: MethodDescription)
    requires insn.Call?
    ensures d.name == insn.name && d.descriptor == insn.desc && d.owner == insn.owner
    ensures d.isInterface == insn.isInterface && d.access == 0xFFFF_FFFF
  {
    MethodDescription(insn.name, insn.desc, insn.owner, 0xFFFF_FFFF, insn.isInterface)
  }

  /** An xRETURN or ATHROW instruction. */
  predicate IsExit(e: Event) {
    e.Ins? && e.insn.Op? && (IRETURN <= e.insn.opcode <= RETURN || e.insn.opcode == ATHROW)
  }

  predicate IsCallTo(matcher: MethodDescription -> bool, e: Event) {
    e.Ins? && e.insn.Call? && matcher(CallDescription(e.insn))
  }

  /** `map[value] ?: value`. */
  function MapValue(m: map<Value, Value>, v: Value): Value {
    if v in m then m[v] else v
  }

  function MapValues(m: map<Value, Value>, vs: seq<Value>): (r: seq<Value>)
    ensures |r| == |vs| && forall i :: 0 <= i < |vs| ==> r[i] == MapValue(m, vs[i])
  {
    seq(|vs|, i requires 0 <= i < |vs| => MapValue(m, vs[i]))
  }

  /** `if (value is String) value.replace(from, to) else value`. */
  function ReplaceInValue(v: Value, from: string, to: string): Value {
    if v.StringValue? then StringValue(ReplaceAll(v.s, from, to)) else v
  }

  function ReplaceInValues(vs: seq<Value>, from: string, to: string): (r: seq<Value>)
    ensures |r| == |vs| && forall i :: 0 <= i < |vs| ==> r[i] == ReplaceInValue(vs[i], from, to)
  {
    seq(|vs|, i requires 0 <= i < |vs| => ReplaceInValue(vs[i], from, to))
  }

  /** The int that `replaceConstants` loads for an int instruction: a
      BIPUSH or SIPUSH operand mapped to an `Int` is replaced, anything else
      kept. */
  function MappedOperand(m: map<Value, Value>, op: int, x: int32): int32 {
    if (op == BIPUSH || op == SIPUSH) && IntValue(x) in m && m[IntValue(x)].IntValue? then m[IntValue(x)].i
    else x
  }

  /** `replaceConstants` on an int instruction, corrected: BIPUSH and SIPUSH
      are re-emitted as a load of the (mapped) int, every other int
      instruction (NEWARRAY) is kept. */
  function ReplaceIntInsn(m: map<Value, Value>, op: int, x: int32): (r: seq<Insn>)
    ensures op == BIPUSH || op == SIPUSH ==> r == IntConstantInsns(MappedOperand(m, op, x))
    ensures (op == BIPUSH || op == SIPUSH) && IntValue(x) in m && m[IntValue(x)].IntValue? ==> r == IntConstantInsns(m[IntValue(x)].i)
    ensures op != BIPUSH && op != SIPUSH ==> r == [IntOp(op, x)]
  {
    if op == BIPUSH || op == SIPUSH then IntConstantInsns(MappedOperand(m, op, x)) else [IntOp(op, x)]
  }

  /** The same as written: every int instruction becomes a load of its
      operand, so a NEWARRAY becomes a push of its array-type code. */
  function ReplaceIntInsnAsWritten(m: map<Value, Value>, op: int, x: int32): (r: seq<Insn>)
    ensures op == BIPUSH || op == SIPUSH ==> r == ReplaceIntInsn(m, op, x)
    ensures op != BIPUSH && op != SIPUSH ==> r == IntConstantInsns(x)
  {
    IntConstantInsns(MappedOperand(m, op, x))
  }

  /** What one transform visitor forwards to its parent for one event, and
      its once-flag (`hasHandled`, `hasMatched`) afterwards. */
  function Step(t: Transform, flag: bool, e: Event): (r: (bool, seq<Event>))
    ensures flag ==> r.0
    ensures r.0 && !flag ==> (t.Advice? || t.ReplaceCall?) && e.Ins? && e.insn.Call?
    ensures (t.Enter? || t.Exit? || t.Advice?) ==> e in r.1
  {
    match t
    case Overwrite(body) =>
      if e.Code? then (flag, [Code] + body + [Maxs(0, 0), End])
      else if e.Parameter? then (flag, [e])
      else (flag, [])
    case Enter(h) =>
      if e.Code? then (flag, [Code] + h) else (flag, [e])
    case Exit(h) =>
      if IsExit(e) then (flag, h(e.insn.opcode) + [e]) else (flag, [e])
    case Advice(matcher, before, after, handleOnce) =>
      if !(e.Ins? && e.insn.Call?) || (flag && handleOnce) then (flag, [e])
      else if matcher(CallDescription(e.insn)) then (true, before + [e] + after)
      else (flag, [e])
    case ReplaceCall(matcher, matchOnce, replacement) =>
      if e.Ins? && e.insn.Call? && matcher(CallDescription(e.insn)) && (!flag || !matchOnce) then
        (true, replacement)
      else (flag, [e])
    case ReplaceConstants(m) =>
      if e.Ins? && e.insn.Ldc? then (flag, [Ins(Ldc(MapValue(m, e.insn.cst)))])
      else if e.Ins? && e.insn.Indy? then (flag, [Ins(Indy(e.insn.name, e.insn.desc, MapValues(m, e.insn.bsmArgs)))])
      else if e.Ins? && e.insn.IntOp? then (flag, InsEvents(ReplaceIntInsn(m, e.insn.opcode, e.insn.operand)))
      else (flag, [e])
    case ReplaceString(from, to) =>
      if e.Ins? && e.insn.Ldc? then (flag, [Ins(Ldc(ReplaceInValue(e.insn.cst, from, to)))])
      else if e.Ins? && e.insn.Indy? then (flag, [Ins(Indy(e.insn.name, e.insn.desc, ReplaceInValues(e.insn.bsmArgs, from, to)))])
      else (flag, [e])
    case Custom(f) => (flag, f(e))
  }

  /** What one transform visitor forwards for a whole stream of events. */
  function Apply(t: Transform, flag: bool, evs: seq<Event>): seq<Event>
    decreases |evs|
  {
    if |evs| == 0 then []
    else
      var (f, out) := Step(t, flag, evs[0]);
      out + Apply(t, f, evs[1..])
  }

  /** The once-flag after a stream. */
  function FinalFlag(t: Transform, flag: bool, evs: seq<Event>): bool
    decreases |evs|
  {
    if |evs| == 0 then flag else FinalFlag(t, Step(t, flag, evs[0]).0, evs[1..])
  }

  /** A visitor forwards a stream piece by piece: the second piece is handled
      from the flag the first left. */
  lemma {:induction false} ApplyConcat(t: Transform, flag: bool, a: seq<Event>, b: seq<Event>)
    ensures Apply(t, flag, a + b) == Apply(t, flag, a) + Apply(t, FinalFlag(t, flag, a), b)
    ensures FinalFlag(t, flag, a + b) == FinalFlag(t, FinalFlag(t, flag, a), b)
    decreases |a|
  {
    if |a| == 0 {
      assert a + b == b;
    } else {
      var (f, out) := Step(t, flag, a[0]);
      TailOfConcat(a, b);
      ApplyConcat(t, f, a[1..], b);
      Regroup3(out, Apply(t, f, a[1..]), Apply(t, FinalFlag(t, f, a[1..]), b));
    }
  }

  /** `List<MethodTransform>.fold(parent)`: element 0 wraps the parent and
      the last element is outermost, so the last transform sees the events
      first and the first transform sees them last. */
  function Pipeline(ts: seq<Transform>, evs: seq<Event>): seq<Event>
    decreases |ts|
  {
    if |ts| == 0 then evs else Pipeline(ts[..|ts| - 1], Apply(ts[|ts| - 1], false, evs))
  }

  /** Folding a concatenation: the later list processes the events before
      the earlier one. */
  lemma {:induction false} PipelineConcat(a: seq<Transform>, b: seq<Transform>, evs: seq<Event>)
    ensures Pipeline(a + b, evs) == Pipeline(a, Pipeline(b, evs))
    decreases |b|
  {
    if |b| == 0 {
      assert a + b == a;
    } else {
      var b' := b[..|b| - 1];
      assert (a + b)[..|a + b| - 1] == a + b';
      assert (a + b)[|a + b| - 1] == b[|b| - 1];
      PipelineConcat(a, b', Apply(b[|b| - 1], false, evs));
    }
  }

  /** The first transform added is the last to see the events. */
  lemma FirstTransformIsInnermost(t: Transform, rest: seq<Transform>, evs: seq<Event>)
    ensures Pipeline([t] + rest, evs) == Apply(t, false, Pipeline(rest, evs))
  {
    PipelineConcat([t], rest, evs);
    assert [t][..0] == [];
  }

  /** A stream with one event singled out: what comes before, that event
      handled from the flag the prefix left, and what comes after. */
  lemma ApplyAround(t: Transform, flag: bool, a: seq<Event>, e: Event, b: seq<Event>)
    ensures Apply(t, flag, a + [e] + b)
         == Apply(t, flag, a) + Step(t, FinalFlag(t, flag, a), e).1
            + Apply(t, Step(t, FinalFlag(t, flag, a), e).0, b)
  {
    var f0 := FinalFlag(t, flag, a);
    Regroup3(a, [e], b);
    ApplyConcat(t, flag, a, [e] + b);
    ApplyCons(t, f0, e, b);
    Regroup3(Apply(t, flag, a), Step(t, f0, e).1, Apply(t, Step(t, f0, e).0, b));
  }

  /** One more event at the end of a stream. */
  lemma ApplySnoc(t: Transform, flag: bool, a: seq<Event>, e: Event)
    ensures Apply(t, flag, a + [e]) == Apply(t, flag, a) + Step(t, FinalFlag(t, flag, a), e).1
    ensures FinalFlag(t, flag, a + [e]) == Step(t, FinalFlag(t, flag, a), e).0
  {
    ApplyConcat(t, flag, a, [e]);
    assert [e][1..] == [];
  }

  lemma ApplyCons(t: Transform, flag: bool, e: Event, b: seq<Event>)
    ensures Apply(t, flag, [e] + b) == Step(t, flag, e).1 + Apply(t, Step(t, flag, e).0, b)
  {
    assert ([e] + b)[0] == e && ([e] + b)[1..] == b;
  }

  // ---------------------------------------------------------------------
  // Per-transform behaviour

  /** Transforms without a once-flag never change it. */
  predicate Stateless(t: Transform) {
    !t.Advice? && !t.ReplaceCall?
  }

  lemma {:induction false} StatelessFlag(t: Transform, flag: bool, evs: seq<Event>)
    requires Stateless(t)
    ensures FinalFlag(t, flag, evs) == flag
    decreases |evs|
  {
    if |evs| > 0 {
      StatelessFlag(t, flag, evs[1..]);
    }
  }

  /** An event the transform passes on unchanged, keeping the flag. */
  predicate PassesThrough(t: Transform, flag: bool, e: Event) {
    Step(t, flag, e) == (flag, [e])
  }

  /** A stream of events the transform passes through comes out unchanged. */
  lemma {:induction false} ApplyPassesThrough(t: Transform, flag: bool, evs: seq<Event>)
    requires forall i :: 0 <= i < |evs| ==> PassesThrough(t, flag, evs[i])
    ensures Apply(t, flag, evs) == evs && FinalFlag(t, flag, evs) == flag
    decreases |evs|
  {
    if |evs| > 0 {
      ApplyPassesThrough(t, flag, evs[1..]);
      assert evs == [evs[0]] + evs[1..];
    }
  }

  /** `methodEnter` inserts its handler right after the one `visitCode` and
      changes nothing else. */
  lemma MethodEnterInsertsAfterCode(h: seq<Event>, a: seq<Event>, b: seq<Event>)
    requires Code !in a && Code !in b
    ensures Apply(Enter(h), false, a + [Code] + b) == a + [Code] + h + b
  {
    var t := Enter(h);
    ApplyPassesThrough(t, false, a);
    ApplyPassesThrough(t, false, b);
    ApplyAround(t, false, a, Code, b);
  }

  /** `methodExit` leaves a body without exits unchanged. */
  lemma MethodExitWithoutExits(h: int -> seq<Event>, evs: seq<Event>)
    requires forall i :: 0 <= i < |evs| ==> !IsExit(evs[i])
    ensures Apply(Exit(h), false, evs) == evs
  {
    ApplyPassesThrough(Exit(h), false, evs);
  }

  /** `methodExit` runs the handler, for the exit's opcode, right before each
      exit instruction. */
  lemma MethodExitBeforeExit(h: int -> seq<Event>, a: seq<Event>, e: Event, b: seq<Event>)
    requires IsExit(e)
    ensures Apply(Exit(h), false, a + [e] + b)
         == Apply(Exit(h), false, a) + h(e.insn.opcode) + [e] + Apply(Exit(h), false, b)
  {
    var t := Exit(h);
    StatelessFlag(t, false, a);
    ApplyAround(t, false, a, e, b);
  }

  /** `methodExit(opcode) { h }`: the handler for exactly one exit opcode. */
  function ExitOn(opcode: int, h: seq<Event>): int -> seq<Event> {
    op => if op == opcode then h else []
  }

  /** The opcode variant fires only for its own opcode. */
  lemma ExitOnFiresOnlyForOpcode(opcode: int, h: seq<Event>, e: Event)
    requires IsExit(e)
    ensures Step(Exit(ExitOn(opcode, h)), false, e).1 == (if e.insn.opcode == opcode then h + [e] else [e])
  {
  }

  /** With `handleOnce`, `callAdvice` advises the first matching call only:
      the handlers surround it and everything else passes unchanged. */
  lemma CallAdviceOnce(m: MethodDescription -> bool, before: seq<Event>, after: seq<Event>,
                       a: seq<Event>, c: Event, b: seq<Event>)
    requires forall i :: 0 <= i < |a| ==> !IsCallTo(m, a[i])
    requires IsCallTo(m, c)
    ensures Apply(Advice(m, before, after, true), false, a + [c] + b) == a + before + [c] + after + b
  {
    var t := Advice(m, before, after, true);
    ApplyPassesThrough(t, false, a);
    ApplyPassesThrough(t, true, b);
    ApplyAround(t, false, a, c, b);
  }

  /** Without `handleOnce`, every matching call is advised, the flag playing
      no part. */
  lemma CallAdviceEvery(m: MethodDescription -> bool, before: seq<Event>, after: seq<Event>,
                        flag: bool, a: seq<Event>, c: Event, b: seq<Event>)
    requires IsCallTo(m, c)
    ensures Apply(Advice(m, before, after, false), flag, a + [c] + b)
         == Apply(Advice(m, before, after, false), flag, a) + before + [c] + after
            + Apply(Advice(m, before, after, false), flag, b)
  {
    var t := Advice(m, before, after, false);
    ApplyAround(t, flag, a, c, b);
    AdviceFlagIrrelevant(m, before, after, Step(t, FinalFlag(t, flag, a), c).0, flag, b);
  }

  lemma {:induction false} AdviceFlagIrrelevant(m: MethodDescription -> bool, before: seq<Event>, after: seq<Event>,
                                                f: bool, g: bool, evs: seq<Event>)
    ensures Apply(Advice(m, before, after, false), f, evs) == Apply(Advice(m, before, after, false), g, evs)
    decreases |evs|
  {
    if |evs| > 0 {
      var t := Advice(m, before, after, false);
      AdviceFlagIrrelevant(m, before, after, Step(t, f, evs[0]).0, Step(t, g, evs[0]).0, evs[1..]);
    }
  }

  /** With `matchOnce`, `replaceCall` replaces the first matching call only. */
  lemma ReplaceCallOnce(m: MethodDescription -> bool, r: seq<Event>, a: seq<Event>, c: Event, b: seq<Event>)
    requires forall i :: 0 <= i < |a| ==> !IsCallTo(m, a[i])
    requires IsCallTo(m, c)
    ensures Apply(ReplaceCall(m, true, r), false, a + [c] + b) == a + r + b
  {
    var t := ReplaceCall(m, true, r);
    ApplyPassesThrough(t, false, a);
    ApplyPassesThrough(t, true, b);
    ApplyAround(t, false, a, c, b);
  }

  /** Without `matchOnce`, every matching call is replaced. */
  lemma ReplaceCallEvery(m: MethodDescription -> bool, r: seq<Event>, a: seq<Event>, c: Event, b: seq<Event>)
    requires IsCallTo(m, c)
    ensures Apply(ReplaceCall(m, false, r), false, a + [c] + b)
         == Apply(ReplaceCall(m, false, r), false, a) + r + Apply(ReplaceCall(m, false, r), false, b)
  {
    var t := ReplaceCall(m, false, r);
    ApplyAround(t, false, a, c, b);
    ReplaceFlagIrrelevant(m, r, Step(t, FinalFlag(t, false, a), c).0, false, b);
  }

  lemma {:induction false} ReplaceFlagIrrelevant(m: MethodDescription -> bool, r: seq<Event>, f: bool, g: bool, evs: seq<Event>)
    ensures Apply(ReplaceCall(m, false, r), f, evs) == Apply(ReplaceCall(m, false, r), g, evs)
    decreases |evs|
  {
    if |evs| > 0 {
      var t := ReplaceCall(m, false, r);
      ReplaceFlagIrrelevant(m, r, Step(t, f, evs[0]).0, Step(t, g, evs[0]).0, evs[1..]);
    }
  }

  /** A non-matching call passes both call visitors unchanged. */
  lemma NonMatchingCallsPass(m: MethodDescription -> bool, before: seq<Event>, after: seq<Event>, once: bool,
                             r: seq<Event>, flag: bool, e: Event)
    requires !IsCallTo(m, e)
    ensures PassesThrough(Advice(m, before, after, once), flag, e)
    ensures PassesThrough(ReplaceCall(m, once, r), flag, e)
  {
  }

  /** `overwrite` keeps the parameters and replaces the whole body: code,
      the new body, `visitMaxs(0, 0)` and `visitEnd`. */
  lemma OverwriteReplacesBody(body: seq<Event>, params: seq<Event>, rest: seq<Event>)
    requires forall i :: 0 <= i < |params| ==> params[i].Parameter?
    requires forall i :: 0 <= i < |rest| ==> !rest[i].Code? && !rest[i].Parameter?
    ensures Apply(Overwrite(body), false, params + [Code] + rest) == params + [Code] + body + [Maxs(0, 0), End]
  {
    var t := Overwrite(body);
    var out := [Code] + body + [Maxs(0, 0), End];
    assert Apply(t, false, params) == params && FinalFlag(t, false, params) == false by {
      forall i | 0 <= i < |params|
        ensures PassesThrough(t, false, params[i])
      {
        assert params[i].Parameter?;
      }
      ApplyPassesThrough(t, false, params);
    }
    assert Apply(t, false, rest) == [] by {
      DropsAll(body, rest);
    }
    assert Step(t, false, Code) == (false, out);
    ApplyAround(t, false, params, Code, rest);
    assert Apply(t, false, params + [Code] + rest) == params + out + [];
    assert params + out + [] == params + out;
    assert params + out == params + [Code] + body + [Maxs(0, 0), End] by {
      ConcatAssoc(params, [Code], body, [Maxs(0, 0), End]);
    }
  }

  lemma {:induction false} DropsAll(body: seq<Event>, rest: seq<Event>)
    requires forall i :: 0 <= i < |rest| ==> !rest[i].Code? && !rest[i].Parameter?
    ensures Apply(Overwrite(body), false, rest) == []
    decreases |rest|
  {
    if |rest| > 0 {
      DropsAll(body, rest[1..]);
    }
  }

  /** `replaceConstants` keeps the value of every BIPUSH and SIPUSH: the
      re-emitted load pushes the mapped int, or the original operand when it
      is not mapped to an int. */
  lemma ReplaceConstantsKeepsIntPushes(m: map<Value, Value>, op: int, x: int32, stack: seq<StackValue>)
    requires op == BIPUSH || op == SIPUSH
    requires op == BIPUSH ==> -0x80 <= x < 0x80
    requires op == SIPUSH ==> -0x8000 <= x < 0x8000
    ensures Run(ReplaceIntInsn(m, op, x), stack) == Some(stack + [IntV(MappedOperand(m, op, x))])
    ensures (IntValue(x) !in m || !m[IntValue(x)].IntValue?) ==> Run(ReplaceIntInsn(m, op, x), stack) == Run([IntOp(op, x)], stack)
  {
    IntConstantPushes(MappedOperand(m, op, x), stack);
    assert Run([IntOp(op, x)], stack) == Run([], stack + [IntV(x)]);
  }

  /** As written, `replaceConstants` turns `NEWARRAY T_INT` into a push of
      the type code 10: the array is no longer created. The corrected
      version keeps the instruction. */
  lemma ReplaceConstantsDropsNewArrayAsWritten(m: map<Value, Value>)
    ensures ReplaceIntInsnAsWritten(m, NEWARRAY, 10) == [IntOp(BIPUSH, 10)]
    ensures ReplaceIntInsn(m, NEWARRAY, 10) == [IntOp(NEWARRAY, 10)]
  {
  }

  /** A value survives mapping and mapping back when the maps are inverse
      and the value is either replaced or not a replacement. */
  predicate Inverse(m: map<Value, Value>, inv: map<Value, Value>) {
    forall k :: k in m ==> m[k] in inv && inv[m[k]] == k
  }

  predicate Restorable(m: map<Value, Value>, inv: map<Value, Value>, v: Value) {
    v in m || v !in inv
  }

  /** The constants an LDC or invokedynamic event loads. */
  predicate EventConstantsRestorable(m: map<Value, Value>, inv: map<Value, Value>, e: Event) {
    (e.Ins? && e.insn.Ldc? ==> Restorable(m, inv, e.insn.cst))
    && (e.Ins? && e.insn.Indy? ==> forall j :: 0 <= j < |e.insn.bsmArgs| ==> Restorable(m, inv, e.insn.bsmArgs[j]))
  }

  /** One event through the map and back. */
  lemma ReplaceConstantsEventRoundTrip(m: map<Value, Value>, inv: map<Value, Value>, e: Event)
    requires Inverse(m, inv)
    requires !(e.Ins? && e.insn.IntOp?)
    requires EventConstantsRestorable(m, inv, e)
    ensures Apply(ReplaceConstants(inv), false, Step(ReplaceConstants(m), false, e).1) == [e]
  {
    var out := Step(ReplaceConstants(m), false, e).1;
    assert |out| == 1;
    assert out[1..] == [];
    if e.Ins? && e.insn.Indy? {
      var args := e.insn.bsmArgs;
      assert MapValues(inv, MapValues(m, args)) == args;
    }
  }

  /** Replacing constants and then replacing them back with the inverse map
      restores a body without int instructions. */
  lemma {:induction false} ReplaceConstantsRoundTrip(m: map<Value, Value>, inv: map<Value, Value>, evs: seq<Event>)
    requires Inverse(m, inv)
    requires forall i :: 0 <= i < |evs| ==> !(evs[i].Ins? && evs[i].insn.IntOp?)
    requires forall i :: 0 <= i < |evs| ==> EventConstantsRestorable(m, inv, evs[i])
    ensures Apply(ReplaceConstants(inv), false, Apply(ReplaceConstants(m), false, evs)) == evs
    decreases |evs|
  {
    if |evs| > 0 {
      var e := evs[0];
      var out := Step(ReplaceConstants(m), false, e).1;
      ReplaceConstantsEventRoundTrip(m, inv, e);
      ReplaceConstantsRoundTrip(m, inv, evs[1..]);
      ApplyConcat(ReplaceConstants(inv), false, out, Apply(ReplaceConstants(m), false, evs[1..]));
      StatelessFlag(ReplaceConstants(inv), false, out);
      assert evs == [e] + evs[1..];
    }
  }

  /** `replaceString(w, w)` changes nothing, for a non-empty `w`. */
  lemma {:induction false} ReplaceStringSelf(w: string, evs: seq<Event>)
    requires |w| > 0
    ensures Apply(ReplaceString(w, w), false, evs) == evs
  {
    forall i | 0 <= i < |evs|
      ensures PassesThrough(ReplaceString(w, w), false, evs[i])
    {
      var e := evs[i];
      if e.Ins? && e.insn.Ldc? && e.insn.cst.StringValue? {
        ReplaceAllSelf(e.insn.cst.s, w);
      }
      if e.Ins? && e.insn.Indy? {
        var args := e.insn.bsmArgs;
        forall j | 0 <= j < |args| && args[j].StringValue?
          ensures ReplaceInValue(args[j], w, w) == args[j]
        {
          ReplaceAllSelf(args[j].s, w);
        }
        assert ReplaceInValues(args, w, w) == args;
      }
    }
    ApplyPassesThrough(ReplaceString(w, w), false, evs);
  }

  /** `replaceString` leaves a body unchanged when no string constant in it
      contains the searched text. */
  lemma {:induction false} ReplaceStringAbsent(from: string, to: string, evs: seq<Event>)
    requires |from| > 0
    requires forall i ::
               (0 <= i < |evs| && evs[i].Ins? && evs[i].insn.Ldc? && evs[i].insn.cst.StringValue?)
               ==> !Contains(evs[i].insn.cst.s, from)
    requires forall i, j ::
               (0 <= i < |evs| && evs[i].Ins? && evs[i].insn.Indy? && 0 <= j < |evs[i].insn.bsmArgs|
                && evs[i].insn.bsmArgs[j].StringValue?) ==> !Contains(evs[i].insn.bsmArgs[j].s, from)
    ensures Apply(ReplaceString(from, to), false, evs) == evs
  {
    forall i | 0 <= i < |evs|
      ensures PassesThrough(ReplaceString(from, to), false, evs[i])
    {
      var e := evs[i];
      if e.Ins? && e.insn.Ldc? && e.insn.cst.StringValue? {
        ReplaceAllAbsent(e.insn.cst.s, from, to);
      }
      if e.Ins? && e.insn.Indy? {
        var args := e.insn.bsmArgs;
        forall j | 0 <= j < |args| && args[j].StringValue?
          ensures ReplaceInValue(args[j], from, to) == args[j]
        {
          ReplaceAllAbsent(args[j].s, from, to);
        }
        assert ReplaceInValues(args, from, to) == args;
      }
    }
    ApplyPassesThrough(ReplaceString(from, to), false, evs);
  }

  // ---------------------------------------------------------------------
  // Handlers that would re-enter their own visitor

  function Events(t: Transform): seq<Event>
    requires t.Enter? || t.Advice? || t.ReplaceCall?
  {
    if t.Enter? then t.enterHandler
    else if t.Advice? then t.before + t.after
    else t.replacement
  }

  /** Handlers run on the visitor itself, so what they emit passes its own
      overrides again. A handler that emits what its visitor intercepts
      (a `visitCode` for `methodEnter`, an exit for `methodExit`, a matching
      call for `callAdvice` without `handleOnce` or for `replaceCall`) would
      recurse without end. Every other handler event passes through
      unchanged, which is what `Step` forwards. */
  ghost predicate NoReentry(t: Transform) {
    match t
    case Enter(h) => Code !in h
    case Exit(h) => forall op, i :: 0 <= i < |h(op)| ==> !IsExit(h(op)[i])
    case Advice(m, before, after, once) =>
      !once ==> forall i :: 0 <= i < |before + after| ==> !IsCallTo(m, (before + after)[i])
    case ReplaceCall(m, _, r) => forall i :: 0 <= i < |r| ==> !IsCallTo(m, r[i])
    case _ => true
  }

  /** Under `NoReentry`, the handlers' own events pass the visitor
      unchanged, with the flag it has while they run. */
  lemma HandlersPassThrough(t: Transform, flag: bool)
    requires NoReentry(t)
    requires t.Enter? || t.ReplaceCall? || (t.Advice? && (!t.handleOnce || flag))
    ensures forall i :: 0 <= i < |Events(t)| ==> PassesThrough(t, flag, Events(t)[i])
  {
  }

  // ---------------------------------------------------------------------
  // The visitor object

  /** One transform's visitor in front of its parent. */
  class TransformVisitor {
    const transform: Transform
    const parent: MethodSink
    /** `hasHandled` for `callAdvice`, `hasMatched` for `replaceCall`. */
    var flag: bool

    constructor(t: Transform, parent: MethodSink)
      requires NoReentry(t)
      ensures transform == t && this.parent == parent && !flag
    {
      transform := t;
      this.parent := parent;
      flag := false;
    }

    /** The visitor's override for one event. */
    method Accept(e: Event)
      modifies this, parent
      ensures parent.events == old(parent.events) + Step(transform, old(flag), e).1
      ensures flag == Step(transform, old(flag), e).0
    {
      match transform {
        case Overwrite(body) =>
          AcceptOverwrite(e);
        case Enter(h) =>
          parent.Visit(e);
          if e.Code? {
            parent.VisitEvents(h);
          }
        case Exit(h) =>
          if IsExit(e) {
            parent.VisitEvents(h(e.insn.opcode));
          }
          parent.Visit(e);
        case Advice(matcher, before, after, handleOnce) =>
          AcceptAdvice(e);
        case ReplaceCall(matcher, matchOnce, replacement) =>
          if e.Ins? && e.insn.Call? && matcher(CallDescription(e.insn)) && (!flag || !matchOnce) {
            parent.VisitEvents(replacement);
            flag := true;
          } else {
            parent.Visit(e);
          }
        case ReplaceConstants(m) =>
          AcceptReplaceConstants(e);
        case ReplaceString(from, to) =>
          if e.Ins? && e.insn.Ldc? {
            parent.VisitInsn(Ldc(ReplaceInValue(e.insn.cst, from, to)));
          } else if e.Ins? && e.insn.Indy? {
            parent.VisitInsn(Indy(e.insn.name, e.insn.desc, ReplaceInValues(e.insn.bsmArgs, from, to)));
          } else {
            parent.Visit(e);
          }
        case Custom(f) =>
          parent.VisitEvents(f(e));
      }
    }

    /** `overwrite`: the body replaces the code; only parameters pass. */
    method AcceptOverwrite(e: Event)
      requires transform.Overwrite?
      modifies this, parent
      ensures parent.events == old(parent.events) + Step(transform, old(flag), e).1
      ensures flag == Step(transform, old(flag), e).0
    {
      var body := transform.body;
      if e.Code? {
        parent.Visit(Code);
        parent.VisitEvents(body);
        parent.Visit(Maxs(0, 0));
        parent.Visit(End);
      } else if e.Parameter? {
        parent.Visit(e);
      }
    }

    /** `callAdvice`: the handlers go around a matching call. */
    method AcceptAdvice(e: Event)
      requires transform.Advice?
      modifies this, parent
      ensures parent.events == old(parent.events) + Step(transform, old(flag), e).1
      ensures flag == Step(transform, old(flag), e).0
    {
      var matcher, before, after, handleOnce := transform.adviceMatcher, transform.before, transform.after, transform.handleOnce;
      if !(e.Ins? && e.insn.Call?) || (flag && handleOnce) {
        parent.Visit(e);
      } else {
        var matches := matcher(CallDescription(e.insn));
        if matches {
          flag := true;
          parent.VisitEvents(before);
        }
        parent.Visit(e);
        if matches {
          parent.VisitEvents(after);
        }
      }
    }

    /** `replaceConstants`: every loaded constant goes through the map. */
    method AcceptReplaceConstants(e: Event)
      requires transform.ReplaceConstants?
      modifies this, parent
      ensures parent.events == old(parent.events) + Step(transform, old(flag), e).1
      ensures flag == Step(transform, old(flag), e).0
    {
      var m := transform.mapping;
      if e.Ins? && e.insn.Ldc? {
        parent.VisitInsn(Ldc(MapValue(m, e.insn.cst)));
      } else if e.Ins? && e.insn.Indy? {
        parent.VisitInsn(Indy(e.insn.name, e.insn.desc, MapValues(m, e.insn.bsmArgs)));
      } else if e.Ins? && e.insn.IntOp? {
        if e.insn.opcode == BIPUSH || e.insn.opcode == SIPUSH {
          var _ := parent.LoadConstant(IntValue(MappedOperand(m, e.insn.opcode, e.insn.operand)));
        } else {
          parent.Visit(e);
        }
      } else {
        parent.Visit(e);
      }
    }

    /** Feeding a whole body, event by event. */
    method Feed(evs: seq<Event>)
      modifies this, parent
      ensures parent.events == old(parent.events) + Apply(transform, old(flag), evs)
      ensures flag == FinalFlag(transform, old(flag), evs)
    {
      var i := 0;
      while i < |evs|
        invariant 0 <= i <= |evs|
        invariant parent.events == old(parent.events) + Apply(transform, old(flag), evs[..i])
        invariant flag == FinalFlag(transform, old(flag), evs[..i])
      {
        Accept(evs[i]);
        assert evs[..i + 1] == evs[..i] + [evs[i]];
        ApplySnoc(transform, old(flag), evs[..i], evs[i]);
        Regroup3(old(parent.events), Apply(transform, old(flag), evs[..i]), Step(transform, FinalFlag(transform, old(flag), evs[..i]), evs[i]).1);
        i := i + 1;
      }
      assert evs[..i] == evs;
    }
  }

  // ---------------------------------------------------------------------
  // Class transforms

  /** A class transform: `asClassTransform` of a method's transforms, or
      `ClassTransformContext.methodVisitor`, which wraps every method. */
  datatype ClassTransform =
    | ForMethod(transforms: seq<Transform>, target: MethodDescription)
    | EveryMethod(visitor: MethodData -> Transform)

  /** The class node's method with a name and descriptor, as `find` gives
      it. */
  function NodeMethod(node: ClassRecord, name: string, desc: string): (r: Option<MethodRecord>)
    ensures r.Some? ==> r.value in node.methods && r.value.name == name && r.value.desc == desc
    ensures r.None? ==> forall j :: 0 <= j < |node.methods| ==> !(node.methods[j].name == name && node.methods[j].desc == desc)
  {
    Find(node.methods, (m: MethodRecord) => m.name == name && m.desc == desc)
  }

  predicate Targets(target: MethodDescription, e: ClassEvent) {
    e.MethodDecl? && target.name == e.mname && target.descriptor == e.mdesc
  }

  /** What one class transform forwards for one class event. */
  function ClassStep(ct: ClassTransform, node: ClassRecord, e: ClassEvent): (r: Result<ClassEvent>)
    ensures !e.MethodDecl? ==> r == Success(e)
    ensures r.Failure? <==> e.MethodDecl? && (ct.EveryMethod? || Targets(ct.target, e))
                            && NodeMethod(node, e.mname, e.mdesc).None?
    ensures r.Success? && e.MethodDecl? ==> r.value.MethodDecl? && r.value == e.(body := r.value.body)
    ensures r.Success? && ct.ForMethod? && !Targets(ct.target, e) ==> r == Success(e)
  {
    if !e.MethodDecl? then Success(e)
    else match ct
      case ForMethod(ts, target) =>
        if !Targets(target, e) then Success(e)
        else
          (match NodeMethod(node, e.mname, e.mdesc)
           case None => Failure("ClassNode and ClassVisitor were called on different class files!")
           case Some(_) => Success(e.(body := Pipeline(ts, e.body))))
      case EveryMethod(v) =>
        match NodeMethod(node, e.mname, e.mdesc)
        case None => Failure("Collection contains no element matching the predicate.")
        case Some(m) => Success(e.(body := Apply(v(MethodData(node, m)), false, e.body)))
  }

  function ApplyClass(ct: ClassTransform, node: ClassRecord, evs: seq<ClassEvent>): (r: Result<seq<ClassEvent>>)
    ensures r.Failure? <==> exists i :: 0 <= i < |evs| && ClassStep(ct, node, evs[i]).Failure?
    ensures r.Success? ==> |r.value| == |evs| && forall i :: 0 <= i < |evs| ==> ClassStep(ct, node, evs[i]) == Success(r.value[i])
    decreases |evs|
  {
    if |evs| == 0 then Success([])
    else match ClassStep(ct, node, evs[0])
      case Failure(msg) => Failure(msg)
      case Success(e) =>
        match ApplyClass(ct, node, evs[1..])
        case Failure(msg) => Failure(msg)
        case Success(rest) => Success([e] + rest)
  }

  /** `List<ClassTransform>.fold(parent, node)`, in the same order as the
      method-level fold. */
  function ClassPipeline(cts: seq<ClassTransform>, node: ClassRecord, evs: seq<ClassEvent>): (r: Result<seq<ClassEvent>>)
    ensures r.Success? ==> |r.value| == |evs|
    ensures r.Success? ==> forall i :: 0 <= i < |evs| && !evs[i].MethodDecl? ==> r.value[i] == evs[i]
    ensures r.Success? ==> forall i :: 0 <= i < |evs| && evs[i].MethodDecl? ==>
      r.value[i].MethodDecl? && r.value[i] == evs[i].(body := r.value[i].body)
    decreases |cts|
  {
    if |cts| == 0 then Success(evs)
    else match ApplyClass(cts[|cts| - 1], node, evs)
      case Failure(msg) => Failure(msg)
      case Success(out) => ClassPipeline(cts[..|cts| - 1], node, out)
  }

  /** `asClassTransform` applies the folded transforms to the target method
      only, leaves every other event as it was, and fails exactly when the
      class visits the target method but the node lacks it. */
  lemma AsClassTransformTargetsOneMethod(ts: seq<Transform>, target: MethodDescription,
                                         node: ClassRecord, evs: seq<ClassEvent>)
    ensures var r := ApplyClass(ForMethod(ts, target), node, evs);
      (r.Failure? <==> exists i :: 0 <= i < |evs| && Targets(target, evs[i])
                                   && NodeMethod(node, target.name, target.descriptor).None?)
      && (r.Success? ==> |r.value| == |evs| && forall i :: 0 <= i < |evs| ==>
            r.value[i] == (if Targets(target, evs[i]) then evs[i].(body := Pipeline(ts, evs[i].body)) else evs[i]))
  {
    ForMethodFailsIff(ts, target, node, evs);
    ForMethodRewrites(ts, target, node, evs);
  }

  /** Some event declares the target method. */
  predicate AnyTargets(target: MethodDescription, evs: seq<ClassEvent>) {
    exists i :: 0 <= i < |evs| && Targets(target, evs[i])
  }

  lemma AnyTargetsCons(target: MethodDescription, evs: seq<ClassEvent>)
    requires |evs| > 0
    ensures AnyTargets(target, evs) <==> Targets(target, evs[0]) || AnyTargets(target, evs[1..])
  {
    if AnyTargets(target, evs[1..]) {
      var i :| 0 <= i < |evs[1..]| && Targets(target, evs[1..][i]);
      assert evs[i + 1] == evs[1..][i];
    }
    if AnyTargets(target, evs) && !Targets(target, evs[0]) {
      var i :| 0 <= i < |evs| && Targets(target, evs[i]);
      assert evs[1..][i - 1] == evs[i];
    }
  }

  /** When `asClassTransform` fails. */
  lemma {:induction false} ForMethodFailsIff(ts: seq<Transform>, target: MethodDescription, node: ClassRecord, evs: seq<ClassEvent>)
    ensures ApplyClass(ForMethod(ts, target), node, evs).Failure?
            <==> AnyTargets(target, evs) && NodeMethod(node, target.name, target.descriptor).None?
    decreases |evs|
  {
    if |evs| > 0 {
      ForMethodFailsIff(ts, target, node, evs[1..]);
      AnyTargetsCons(target, evs);
    }
  }

  /** What a successful `asClassTransform` forwards. */
  lemma {:induction false} ForMethodRewrites(ts: seq<Transform>, target: MethodDescription, node: ClassRecord, evs: seq<ClassEvent>)
    ensures var r := ApplyClass(ForMethod(ts, target), node, evs);
      r.Success? ==> |r.value| == |evs| && forall i :: 0 <= i < |evs| ==>
        r.value[i] == (if Targets(target, evs[i]) then evs[i].(body := Pipeline(ts, evs[i].body)) else evs[i])
    decreases |evs|
  {
    if |evs| > 0 {
      ForMethodRewrites(ts, target, node, evs[1..]);
      var r := ApplyClass(ForMethod(ts, target), node, evs);
      if r.Success? {
        var rest := ApplyClass(ForMethod(ts, target), node, evs[1..]);
        forall i | 0 <= i < |evs|
          ensures r.value[i] == (if Targets(target, evs[i]) then evs[i].(body := Pipeline(ts, evs[i].body)) else evs[i])
        {
          if i > 0 { assert r.value[i] == rest.value[i - 1] && evs[i] == evs[1..][i - 1]; }
        }
      }
    }
  }


  // ---------------------------------------------------------------------
  // The DSLs

  /** `MethodTransformContext`: the transforms collected for one method, in
      the order the DSL calls were made, and the two class-writer options. */
  class MethodTransformContext {
    const owner: ClassRecord
    const node: MethodRecord
    var shouldExpandFrames: bool
    var allowComputeFrames: bool
    var transforms: seq<Transform>

    constructor(owner: ClassRecord, node: MethodRecord)
      ensures this.owner == owner && this.node == node
      ensures !shouldExpandFrames && allowComputeFrames && transforms == []
    {
      this.owner := owner;
      this.node := node;
      shouldExpandFrames := false;
      allowComputeFrames := true;
      transforms := [];
    }

    /** `add(transform)`, `+transform` and `visitor(wrapper)`. */
    method Add(t: Transform)
      requires NoReentry(t)
      modifies this
      ensures transforms == old(transforms) + [t]
      ensures shouldExpandFrames == old(shouldExpandFrames) && allowComputeFrames == old(allowComputeFrames)
    {
      transforms := transforms + [t];
    }

    /** `overwrite { body }`: refused once a transform was added. */
    method Overwrite(body: seq<Event>) returns (r: Result<()>)
      modifies this
      ensures r.Success? <==> old(transforms) == []
      ensures r.Success? ==> transforms == [Transform.Overwrite(body)]
      ensures r.Failure? ==> transforms == old(transforms)
      ensures shouldExpandFrames == old(shouldExpandFrames) && allowComputeFrames == old(allowComputeFrames)
    {
      if transforms != [] {
        return Failure("Cannot overwrite method that has transforms defined!");
      }
      transforms := transforms + [Transform.Overwrite(body)];
      return Success(());
    }

    /** `fixedValue(cst)`: the body loads the constant and returns it with
      the return instruction of the method's return type. */
    method FixedValue(cst: Value) returns (r: Result<()>)
      modifies this
      ensures r.Success? <==> old(transforms) == [] && FixedValueBody(cst, node.desc).Success?
      ensures r.Success? ==> transforms == [Transform.Overwrite(InsEvents(FixedValueBody(cst, node.desc).value))]
      ensures r.Failure? ==> transforms == old(transforms)
      ensures shouldExpandFrames == old(shouldExpandFrames) && allowComputeFrames == old(allowComputeFrames)
    {
      var body := FixedValueBody(cst, node.desc);
      if body.Failure? {
        return Failure(body.error);
      }
      r := Overwrite(InsEvents(body.value));
    }

    /** `stubValue()`: the body loads the default value of the return type
      and returns it. */
    method StubValue() returns (r: Result<()>)
      modifies this
      ensures r.Success? <==> old(transforms) == [] && StubValueBody(node.desc).Success?
      ensures r.Success? ==> transforms == [Transform.Overwrite(InsEvents(StubValueBody(node.desc).value))]
      ensures r.Failure? ==> transforms == old(transforms)
      ensures shouldExpandFrames == old(shouldExpandFrames) && allowComputeFrames == old(allowComputeFrames)
    {
      var body := StubValueBody(node.desc);
      if body.Failure? {
        return Failure(body.error);
      }
      r := Overwrite(InsEvents(body.value));
    }

    method ExpandFrames()
      modifies this
      ensures shouldExpandFrames && allowComputeFrames == old(allowComputeFrames) && transforms == old(transforms)
    {
      shouldExpandFrames := true;
    }

    method DisableFrameComputing()
      modifies this
      ensures !allowComputeFrames && shouldExpandFrames == old(shouldExpandFrames) && transforms == old(transforms)
    {
      allowComputeFrames := false;
    }

    /** `methodEnter { h }`. */
    method MethodEnter(h: seq<Event>)
      requires Code !in h
      modifies this
      ensures transforms == old(transforms) + [Enter(h)]
      ensures shouldExpandFrames == old(shouldExpandFrames) && allowComputeFrames == old(allowComputeFrames)
    {
      Add(Enter(h));
    }

    /** `methodExit { op -> h(op) }`. */
    method MethodExit(h: int -> seq<Event>)
      requires forall op, i :: 0 <= i < |h(op)| ==> !IsExit(h(op)[i])
      modifies this
      ensures transforms == old(transforms) + [Exit(h)]
      ensures shouldExpandFrames == old(shouldExpandFrames) && allowComputeFrames == old(allowComputeFrames)
    {
      Add(Exit(h));
    }

    /** `methodExit(opcode) { h }`. */
    method MethodExitOn(opcode: int, h: seq<Event>)
      requires forall i :: 0 <= i < |h| ==> !IsExit(h[i])
      modifies this
      ensures transforms == old(transforms) + [Exit(ExitOn(opcode, h))]
      ensures shouldExpandFrames == old(shouldExpandFrames) && allowComputeFrames == old(allowComputeFrames)
    {
      Add(Exit(ExitOn(opcode, h)));
    }

    /** `callAdvice(matcher, beforeCall, afterCall, handleOnce)`. */
    method CallAdvice(m: MethodDescription -> bool, before: seq<Event>, after: seq<Event>, handleOnce: bool)
      requires !handleOnce ==> forall i :: 0 <= i < |before + after| ==> !IsCallTo(m, (before + after)[i])
      modifies this
      ensures transforms == old(transforms) + [Advice(m, before, after, handleOnce)]
      ensures shouldExpandFrames == old(shouldExpandFrames) && allowComputeFrames == old(allowComputeFrames)
    {
      Add(Advice(m, before, after, handleOnce));
    }

    /** `replaceCall(matcher, matchOnce, replacement)`. */
    method ReplaceCallWith(m: MethodDescription -> bool, matchOnce: bool, replacement: seq<Event>)
      requires forall i :: 0 <= i < |replacement| ==> !IsCallTo(m, replacement[i])
      modifies this
      ensures transforms == old(transforms) + [ReplaceCall(m, matchOnce, replacement)]
      ensures shouldExpandFrames == old(shouldExpandFrames) && allowComputeFrames == old(allowComputeFrames)
    {
      Add(ReplaceCall(m, matchOnce, replacement));
    }

    /** `advice(enter, exit)`: `methodEnter` then `methodExit`. */
    method AdviceBoth(enter: seq<Event>, exit: int -> seq<Event>)
      requires Code !in enter
      requires forall op, i :: 0 <= i < |exit(op)| ==> !IsExit(exit(op)[i])
      modifies this
      ensures transforms == old(transforms) + [Enter(enter), Exit(exit)]
      ensures shouldExpandFrames == old(shouldExpandFrames) && allowComputeFrames == old(allowComputeFrames)
    {
      MethodEnter(enter);
      MethodExit(exit);
    }

    /** `replaceConstants(map)`; `replaceConstant(from, to)` is the one-entry
      map. */
    method ReplaceConstantsWith(m: map<Value, Value>)
      modifies this
      ensures transforms == old(transforms) + [ReplaceConstants(m)]
      ensures shouldExpandFrames == old(shouldExpandFrames) && allowComputeFrames == old(allowComputeFrames)
    {
      Add(ReplaceConstants(m));
    }

    /** `replaceString(from, to)`. */
    method ReplaceStringWith(from: string, to: string)
      modifies this
      ensures transforms == old(transforms) + [ReplaceString(from, to)]
      ensures shouldExpandFrames == old(shouldExpandFrames) && allowComputeFrames == old(allowComputeFrames)
    {
      Add(ReplaceString(from, to));
    }

    /** `asMethodVisitor(parent)`: what the folded visitors forward to the
      parent for a body. */
    function AsMethodEvents(evs: seq<Event>): seq<Event>
      reads this
    {
      Pipeline(transforms, evs)
    }

    /** `asClassTransform()`: the transforms, aimed at this method. */
    function AsClassTransform(): (ct: ClassTransform)
      reads this
      ensures ct.ForMethod? && ct.target == NodeAsDescriptionIn(node, owner)
    {
      ForMethod(transforms, NodeAsDescriptionIn(node, owner))
    }
  }

  /** The body `fixedValue(cst)` writes: the constant's load and the return
      instruction of the descriptor's return type. */
  function FixedValueBody(cst: Value, desc: string): (r: Result<seq<Insn>>)
    ensures r.Success? <==> LoadConstantInsns(cst).Success? && ReturnType(desc).Some? && !ReturnType(desc).value.Meth?
    ensures r.Success? ==> r.value == LoadConstantInsns(cst).value + [Op(TypedOpcode(ReturnType(desc).value, IRETURN).value)]
  {
    match LoadConstantInsns(cst)
    case Failure(msg) => Failure(msg)
    case Success(load) =>
      match ReturnType(desc)
      case None => Failure("malformed method descriptor")
      case Some(ret) =>
        match TypedOpcode(ret, IRETURN)
        case Failure(msg) => Failure(msg)
        case Success(op) => Success(load + [Op(op)])
  }

  /** `fixedValue(cst)` pushes exactly the constant and then returns with an
      instruction from IRETURN..RETURN. */
  lemma FixedValueReturnsConstant(cst: Value, desc: string)
    requires FixedValueBody(cst, desc).Success?
    ensures var b := FixedValueBody(cst, desc).value;
      |b| >= 2 && Run(b[..|b| - 1], []) == Some([Pushed(cst).value])
      && b[|b| - 1].Op? && IRETURN <= b[|b| - 1].opcode <= RETURN
  {
    LoadConstantPushesValue(cst, []);
    var b := FixedValueBody(cst, desc).value;
    assert b[..|b| - 1] == LoadConstantInsns(cst).value;
    assert [] + [Pushed(cst).value] == [Pushed(cst).value];
  }

  /** The body `stubValue()` writes: the stub load and the typed return. */
  function StubValueBody(desc: string): (r: Result<seq<Insn>>)
    ensures r.Success? <==> ReturnType(desc).Some? && !ReturnType(desc).value.Meth?
    ensures r.Success? ==> |r.value| == 2 && r.value[0] == Op(StubLoadInsn(ReturnType(desc).value).value)
    ensures r.Success? ==> r.value[1].Op? && ReturnFor(r.value[0].opcode) == r.value[1].opcode
  {
    match ReturnType(desc)
    case None => Failure("malformed method descriptor")
    case Some(ret) =>
      if ret.Meth? then Failure("Invalid non-value type")
      else
        StubMatchesReturn(ret);
        Success([Op(StubLoadInsn(ret).value), Op(TypedOpcode(ret, IRETURN).value)])
  }

  /** `ClassTransformContext`: class transforms in the order they were
      added. */
  class ClassTransformContext {
    const node: ClassRecord
    var transforms: seq<ClassTransform>

    constructor(node: ClassRecord)
      ensures this.node == node && transforms == []
    {
      this.node := node;
      transforms := [];
    }

    method Add(ct: ClassTransform)
      modifies this
      ensures transforms == old(transforms) + [ct]
    {
      transforms := transforms + [ct];
    }

    /** `methodVisitor(visitor)`: wraps the visitor of every method. */
    method MethodVisitor(visitor: MethodData -> Transform)
      modifies this
      ensures transforms == old(transforms) + [EveryMethod(visitor)]
    {
      Add(EveryMethod(visitor));
    }
  }
}
