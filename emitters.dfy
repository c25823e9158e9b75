/** The instruction emitters of VisitorExtensions.kt. A `MethodSink` stands
    for the `MethodVisitor` they extend: each emitter appends a fixed,
    statable run of instruction events to it. Each emitter's run is given by
    a pure function (`...Insns`), and what that run does is stated about the
    function: the constant `loadConstant` leaves on the operand stack, the
    descriptors that `box` and `unbox` call, the opcodes of field access. */
module Emitters {
  import opened Wrappers
  import opened KotlinStrings
  import opened Jvm
  import opened JvmTypes
  import opened Extensions
  import opened Descriptions

  /** `n` copies of `x`; `repeat(n) { ... }`. */
  function Repeat<T>(x: T, n: nat): (r: seq<T>)
    ensures |r| == n && forall i :: 0 <= i < n ==> r[i] == x
  {
    seq(n, _ => x)
  }

  lemma RepeatOnce(x: Insn)
    ensures InsEvents(Repeat(x, 1)) == [Ins(x)]
  {
  }

  // ---------------------------------------------------------------------
  // What a run of instructions leaves on the operand stack

  /** An operand-stack entry: an int, a long, a float or double bit pattern,
      null, or a reference to a loaded constant. */
  datatype StackValue = IntV(i: int) | LongV(l: int) | FloatV(fbits: int) | DoubleV(dbits: int)
                      | NullV | ConstV(c: Value)

  /** The low `bits` bits of `x` read as a two's-complement number; what
      ASM writes for a BIPUSH (8 bits) or SIPUSH (16 bits) operand and what
      I2B and I2S compute. */
  function SignExtend(x: int, bits: nat): (r: int)
    requires bits == 8 || bits == 16
    ensures bits == 8 ==> -0x80 <= r < 0x80
    ensures bits == 16 ==> -0x8000 <= r < 0x8000
    ensures bits == 8 && -0x80 <= x < 0x80 ==> r == x
    ensures bits == 16 && -0x8000 <= x < 0x8000 ==> r == x
  {
    var m := if bits == 8 then 0x100 else 0x1_0000;
    var b := x % m;
    if b < m / 2 then b else b - m
  }

  /** What a constant-loading instruction pushes (chapter 6 of the Java
      Virtual Machine Specification, for ACONST_NULL, ICONST_i, LCONST_l,
      BIPUSH, SIPUSH, LDC, I2B, I2S, I2C and I2L); `None` for any other
      instruction or an ill-typed stack. */
  function Exec(insn: Insn, stack: seq<StackValue>): Option<seq<StackValue>> {
    match insn
    case Op(op) =>
      if op == ACONST_NULL then Some(stack + [NullV])
      else if ICONST_M1 <= op <= ICONST_5 then Some(stack + [IntV(op - ICONST_0)])
      else if op == LCONST_0 || op == LCONST_1 then Some(stack + [LongV(op - LCONST_0)])
      else if (op == I2B || op == I2S || op == I2C || op == I2L) && |stack| > 0 && stack[|stack| - 1].IntV? then
        var i := stack[|stack| - 1].i;
        var v := if op == I2B then IntV(SignExtend(i, 8))
                 else if op == I2S then IntV(SignExtend(i, 16))
                 else if op == I2C then IntV(i % 0x1_0000)
                 else LongV(i);
        Some(stack[..|stack| - 1] + [v])
      else None
    case IntOp(op, x) =>
      if op == BIPUSH then Some(stack + [IntV(SignExtend(x, 8))])
      else if op == SIPUSH then Some(stack + [IntV(SignExtend(x, 16))])
      else None
    case Ldc(c) => Some(stack + [LdcPushes(c)])
    case _ => None
  }

  function LdcPushes(c: Value): StackValue {
    match c
    case IntValue(i) => IntV(i)
    case LongValue(l) => LongV(l)
    case FloatValue(b) => FloatV(b)
    case DoubleValue(b) => DoubleV(b)
    case _ => ConstV(c)
  }

  function Run(insns: seq<Insn>, stack: seq<StackValue>): Option<seq<StackValue>> {
    if |insns| == 0 then Some(stack)
    else match Exec(insns[0], stack)
      case None => None
      case Some(s) => Run(insns[1..], s)
  }

  /** The stack entry a constant is: booleans, bytes, shorts, chars and ints
      are ints (section 2.11.1 of the Java Virtual Machine Specification);
      `None` for a value that is no JVM constant. */
  function Pushed(v: Value): Option<StackValue> {
    match v
    case NullValue => Some(NullV)
    case BoolValue(b) => Some(IntV(if b then 1 else 0))
    case ByteValue(x) => Some(IntV(x))
    case ShortValue(x) => Some(IntV(x))
    case CharValue(c) => Some(IntV(c))
    case IntValue(i) => Some(IntV(i))
    case LongValue(l) => Some(LongV(l))
    case FloatValue(b) => Some(FloatV(b))
    case DoubleValue(b) => Some(DoubleV(b))
    case OtherValue(_) => None
    case _ => Some(ConstV(v))
  }

  // ---------------------------------------------------------------------
  // loadConstant

  /** The int branch of `loadConstant`: the shortest of ICONST_i, BIPUSH,
      SIPUSH and LDC (section 6.5 of the Java Virtual Machine
      Specification). */
  function IntConstantInsns(i: int32): (r: seq<Insn>)
    ensures |r| == 1
    ensures -1 <= i <= 5 ==> r[0] == Op(ICONST_0 + i) && ICONST_M1 <= r[0].opcode <= ICONST_5
    ensures (i < -1 || i > 5) && -0x80 <= i < 0x80 ==> r[0] == IntOp(BIPUSH, i)
    ensures (i < -0x80 || i >= 0x80) && -0x8000 <= i < 0x8000 ==> r[0] == IntOp(SIPUSH, i)
    ensures (i < -0x8000 || i >= 0x8000) ==> r[0] == Ldc(IntValue(i))
  {
    if -1 <= i <= 5 then [Op(ICONST_0 + i)]
    else if -0x80 <= i < 0x80 then [IntOp(BIPUSH, i)]
    else if -0x8000 <= i < 0x8000 then [IntOp(SIPUSH, i)]
    else [Ldc(IntValue(i))]
  }

  /** The long branch: LCONST_0/1, a BIPUSH or SIPUSH widened by I2L, or LDC. */
  function LongConstantInsns(l: int64): (r: seq<Insn>)
    ensures l == 0 ==> r == [Op(LCONST_0)]
    ensures l == 1 ==> r == [Op(LCONST_1)]
    ensures l != 0 && l != 1 && -0x80 <= l < 0x80 ==> r == [IntOp(BIPUSH, l), Op(I2L)]
    ensures (l < -0x80 || l >= 0x80) && -0x8000 <= l < 0x8000 ==> r == [IntOp(SIPUSH, l), Op(I2L)]
    ensures (l < -0x8000 || l >= 0x8000) ==> r == [Ldc(LongValue(l))]
  {
    if l == 0 then [Op(LCONST_0)]
    else if l == 1 then [Op(LCONST_1)]
    else if -0x80 <= l < 0x80 then [IntOp(BIPUSH, l), Op(I2L)]
    else if -0x8000 <= l < 0x8000 then [IntOp(SIPUSH, l), Op(I2L)]
    else [Ldc(LongValue(l))]
  }

  /** A char code as the signed 16-bit operand SIPUSH takes. */
  function CharOperand(code: uint16): int16 {
    if code < 0x8000 then code else code - 0x1_0000
  }

  /** `loadConstant(value)` with the char branch corrected to SIPUSH of the
      code's 16 bits (see `LoadConstantAsWritten` for the branch as
      written). Floats and doubles are loaded with LDC. */
  function LoadConstantInsns(v: Value): (r: Result<seq<Insn>>)
    ensures r.Success? <==> !v.OtherValue?
    ensures r.Success? ==> |r.value| >= 1
    ensures v.NullValue? ==> r == Success([Op(ACONST_NULL)])
    ensures v.BoolValue? ==> r == Success([Op(if v.b then ICONST_1 else ICONST_0)])
    ensures v.ByteValue? ==> r == Success([IntOp(BIPUSH, v.byte), Op(I2B)])
    ensures v.ShortValue? ==> r == Success([IntOp(SIPUSH, v.short), Op(I2S)])
    ensures v.CharValue? ==> r == Success([IntOp(SIPUSH, CharOperand(v.code)), Op(I2C)])
    ensures v.IntValue? ==> r == Success(IntConstantInsns(v.i))
    ensures v.LongValue? ==> r == Success(LongConstantInsns(v.l))
    ensures v.FloatValue? || v.DoubleValue? || v.StringValue? || v.TypeValue? || v.HandleValue? || v.CondyValue?
            ==> r == Success([Ldc(v)])
  {
    match v
    case NullValue => Success([Op(ACONST_NULL)])
    case BoolValue(b) => Success([Op(if b then ICONST_1 else ICONST_0)])
    case ByteValue(x) => Success([IntOp(BIPUSH, x), Op(I2B)])
    case IntValue(i) => Success(IntConstantInsns(i))
    case FloatValue(_) => Success([Ldc(v)])
    case DoubleValue(_) => Success([Ldc(v)])
    case LongValue(l) => Success(LongConstantInsns(l))
    case CharValue(c) => Success([IntOp(SIPUSH, CharOperand(c)), Op(I2C)])
    case ShortValue(x) => Success([IntOp(SIPUSH, x), Op(I2S)])
    case OtherValue(_) => Failure("Constant value is not a valid JVM constant!")
    case _ => Success([Ldc(v)])
  }

  /** `loadConstant` as written: a char is pushed with BIPUSH of its code,
      which ASM writes as one byte. */
  function LoadConstantAsWritten(v: Value): (r: Result<seq<Insn>>)
    ensures !v.CharValue? ==> r == LoadConstantInsns(v)
    ensures v.CharValue? ==> r == Success([IntOp(BIPUSH, v.code), Op(I2C)])
  {
    if v.CharValue? then Success([IntOp(BIPUSH, v.code), Op(I2C)]) else LoadConstantInsns(v)
  }

  /** The int branch pushes exactly the int. */
  lemma IntConstantPushes(i: int32, stack: seq<StackValue>)
    ensures Run(IntConstantInsns(i), stack) == Some(stack + [IntV(i)])
  {
    var insns := IntConstantInsns(i);
    assert insns[1..] == [];
  }

  /** The long branch pushes exactly the long. */
  lemma LongConstantPushes(l: int64, stack: seq<StackValue>)
    ensures Run(LongConstantInsns(l), stack) == Some(stack + [LongV(l)])
  {
    var insns := LongConstantInsns(l);
    if l != 0 && l != 1 && -0x8000 <= l < 0x8000 {
      RunPair(insns[0], Op(I2L), stack);
      var s1 := stack + [IntV(l)];
      assert s1[..|s1| - 1] == stack;
    } else {
      assert insns[1..] == [];
    }
  }

  /** A two-instruction run is the second instruction after the first. */
  lemma RunPair(a: Insn, b: Insn, stack: seq<StackValue>)
    ensures Run([a, b], stack) == (match Exec(a, stack) case None => None case Some(s) => Exec(b, s))
  {
    assert [a, b][1..] == [b];
    match Exec(a, stack)
    case None =>
    case Some(s) =>
      assert Run([a, b], stack) == Run([b], s);
      assert [b][1..] == [];
  }

  /** `loadConstant` is correct: every JVM constant is accepted, and its
      instructions push exactly that constant onto any stack. */
  lemma LoadConstantPushesValue(v: Value, stack: seq<StackValue>)
    ensures LoadConstantInsns(v).Success? <==> Pushed(v).Some?
    ensures LoadConstantInsns(v).Success? ==>
      Run(LoadConstantInsns(v).value, stack) == Some(stack + [Pushed(v).value])
  {
    match v
    case IntValue(i) => IntConstantPushes(i, stack);
    case LongValue(l) => LongConstantPushes(l, stack);
    case ByteValue(x) =>
      RunPair(IntOp(BIPUSH, x), Op(I2B), stack);
      assert (stack + [IntV(x)])[..|stack|] == stack;
    case ShortValue(x) =>
      RunPair(IntOp(SIPUSH, x), Op(I2S), stack);
      assert (stack + [IntV(x)])[..|stack|] == stack;
    case CharValue(c) =>
      var s := CharOperand(c);
      RunPair(IntOp(SIPUSH, s), Op(I2C), stack);
      assert (stack + [IntV(s)])[..|stack|] == stack;
      assert (s as int) % 0x1_0000 == c;
    case OtherValue(_) =>
    case _ =>
      assert LoadConstantInsns(v).value[1..] == [];
  }

  /** As written, a char above 127 is loaded wrongly: BIPUSH keeps only the
      low byte, sign-extended, and I2C turns the code 200 into 65480. */
  lemma CharAsWrittenLoadsWrongCode(stack: seq<StackValue>)
    ensures LoadConstantAsWritten(CharValue(200)).Success?
    ensures Run(LoadConstantAsWritten(CharValue(200)).value, stack) == Some(stack + [IntV(65480)])
    ensures Pushed(CharValue(200)) == Some(IntV(200))
  {
    RunPair(IntOp(BIPUSH, 200), Op(I2C), stack);
    assert SignExtend(200, 8) == -56;
    assert (stack + [IntV(-56)])[..|stack|] == stack;
  }

  // ---------------------------------------------------------------------
  // Box, unbox, type classes

  /** `Type.boxedType`: the wrapper class of a primitive sort, `Void`
      included. */
  function BoxedType(t: JType): (r: Result<string>)
    ensures r.Success? <==> IsPrimitive(t)
    ensures r.Success? ==> StartsWith(r.value, "java/lang/") && ';' !in r.value
    ensures t == Prim(Void) ==> r == Success("java/lang/Void")
    ensures t == Prim(Boolean) ==> r == Success("java/lang/Boolean")
    ensures t == Prim(Char) ==> r == Success("java/lang/Character")
    ensures t == Prim(Byte) ==> r == Success("java/lang/Byte")
    ensures t == Prim(Short) ==> r == Success("java/lang/Short")
    ensures t == Prim(Int) ==> r == Success("java/lang/Integer")
    ensures t == Prim(Float) ==> r == Success("java/lang/Float")
    ensures t == Prim(Long) ==> r == Success("java/lang/Long")
    ensures t == Prim(Double) ==> r == Success("java/lang/Double")
  {
    match t
    case Prim(p) =>
      Success(match p
        case Char => "java/lang/Character"
        case Boolean => "java/lang/Boolean"
        case Int => "java/lang/Integer"
        case Long => "java/lang/Long"
        case Float => "java/lang/Float"
        case Double => "java/lang/Double"
        case Byte => "java/lang/Byte"
        case Short => "java/lang/Short"
        case Void => "java/lang/Void")
    case _ => Failure("type isn't primitive")
  }

  /** `box(type)`: `Wrapper.valueOf(t)LWrapper;`; nothing for void. */
  function BoxInsns(t: JType): (r: Result<seq<Insn>>)
    ensures r.Success? <==> IsPrimitive(t)
    ensures r.Success? && t != Prim(Void) ==>
      (|r.value| == 1 && r.value[0].Call?
       && r.value[0].opcode == INVOKESTATIC && r.value[0].owner == BoxedType(t).value
       && r.value[0].name == "valueOf" && !r.value[0].isInterface)
    ensures t == Prim(Void) ==> r == Success([])
  {
    if !IsPrimitive(t) then Failure("type must be primitive!")
    else if t == Prim(Void) then Success([])
    else
      var boxed := BoxedType(t).value;
      Success([Call(INVOKESTATIC, boxed, "valueOf", "(" + Descriptor(t) + ")L" + boxed + ";", false)])
  }

  /** The wrapper class `unbox` casts to and the method it calls, with the
      return descriptor corrected to "J" for long. */
  function UnboxTarget(t: JType): (r: (string, string, string))
    ensures r.0 == (if t == Prim(Char) then "java/lang/Character"
                    else if t == Prim(Boolean) then "java/lang/Boolean" else "java/lang/Number")
    ensures t.Prim? && t != Prim(Void) ==>
      r.1 == (if t == Prim(Byte) || t == Prim(Short) then "int" else PrimName(t.p)) + "Value"
    ensures t.Prim? && t != Prim(Void) ==>
      r.2 == [PrimChar(if t == Prim(Byte) || t == Prim(Short) then Int else t.p)]
  {
    var owner := if t == Prim(Char) then "java/lang/Character"
                 else if t == Prim(Boolean) then "java/lang/Boolean"
                 else "java/lang/Number";
    if t == Prim(Char) then (owner, "charValue", "C")
    else if t == Prim(Boolean) then (owner, "booleanValue", "Z")
    else if t == Prim(Double) then (owner, "doubleValue", "D")
    else if t == Prim(Float) then (owner, "floatValue", "F")
    else if t == Prim(Long) then (owner, "longValue", "J")
    else (owner, "intValue", "I")
  }

  /** The target as written: `longValue` with return descriptor "L". */
  function UnboxTargetAsWritten(t: JType): (r: (string, string, string))
    ensures t != Prim(Long) ==> r == UnboxTarget(t)
  {
    if t == Prim(Long) then ("java/lang/Number", "longValue", "L") else UnboxTarget(t)
  }

  /** `unbox(type)`: CHECKCAST to the wrapper, then its `xxxValue()`. */
  function UnboxInsns(t: JType): (r: Result<seq<Insn>>)
    ensures r.Success? <==> IsPrimitive(t)
    ensures t == Prim(Void) ==> r == Success([])
    ensures r.Success? && t != Prim(Void) ==>
      (|r.value| == 2
       && r.value[0] == TypeOp(CHECKCAST, UnboxTarget(t).0)
       && r.value[1].Call? && r.value[1].opcode == INVOKEVIRTUAL && !r.value[1].isInterface
       && r.value[1].owner == UnboxTarget(t).0 && r.value[1].name == UnboxTarget(t).1)
  {
    if !IsPrimitive(t) then Failure("type must be primitive!")
    else if t == Prim(Void) then Success([])
    else
      var (owner, name, ret) := UnboxTarget(t);
      Success([TypeOp(CHECKCAST, owner), Call(INVOKEVIRTUAL, owner, name, "()" + ret, false)])
  }

  /** Boxing calls a `valueOf` that takes exactly the primitive and returns
      its wrapper. */
  lemma BoxCallsValueOf(t: JType)
    requires IsPrimitive(t) && t != Prim(Void)
    ensures ArgumentTypes(BoxInsns(t).value[0].desc) == Some([t])
    ensures ReturnType(BoxInsns(t).value[0].desc) == Some(Obj(BoxedType(t).value))
  {
    var boxed := BoxedType(t).value;
    assert BoxInsns(t).value[0].desc == "(" + Descriptor(t) + ")L" + boxed + ";";
    OneArgumentDescriptor(t, boxed);
    MethodDescriptorRoundTrip(Meth([t], Obj(boxed)));
  }

  /** The descriptor of a method taking one argument and returning an
      object, spelled out. */
  lemma OneArgumentDescriptor(t: JType, owner: string)
    ensures Descriptor(Meth([t], Obj(owner))) == "(" + Descriptor(t) + ")L" + owner + ";"
  {
    assert ArgsDescriptor([t]) == Descriptor(t) + ArgsDescriptor([]);
  }

  /** Unboxing calls a method with a well-formed descriptor, no arguments
      and the primitive's own computational type as result (`intValue` for
      byte and short). */
  lemma UnboxCallsTypedValue(t: JType)
    requires IsPrimitive(t) && t != Prim(Void)
    ensures var d := UnboxInsns(t).value[1].desc;
            ArgumentTypes(d) == Some([]) && ReturnType(d).Some? &&
            (ReturnType(d).value == t || (t in {Prim(Byte), Prim(Short)} && ReturnType(d).value == Prim(Int)))
  {
    var d := UnboxInsns(t).value[1].desc;
    var ret := if t == Prim(Byte) || t == Prim(Short) then Prim(Int) else t;
    assert Descriptor(Meth([], ret)) == d;
    MethodDescriptorRoundTrip(Meth([], ret));
  }

  /** As written, unboxing a long calls `longValue` with the malformed
      descriptor "()L", which names no method of `Number`. */
  lemma UnboxLongAsWrittenIsMalformed()
    ensures var (_, name, ret) := UnboxTargetAsWritten(Prim(Long)); name == "longValue" && ReturnType("()" + ret).None?
    ensures var (_, _, ret) := UnboxTarget(Prim(Long)); ReturnType("()" + ret) == Some(Prim(Long))
  {
    assert ("()" + "L")[1..] == ")L";
    assert ")L"[1..] == "L";
    assert ("()" + "J")[1..] == ")J";
    assert ")J"[1..] == "J";
  }

  /** `loadTypeClass(type)`: LDC of the type for objects and arrays, the
      wrapper's `TYPE` field for primitives; method types are refused. */
  function LoadTypeClassInsns(t: JType): (r: Result<seq<Insn>>)
    ensures r.Success? <==> !t.Meth?
    ensures r.Success? ==> |r.value| == 1
    ensures t.Obj? || t.Arr? ==> r == Success([Ldc(TypeValue(Descriptor(t)))])
    ensures t.Prim? ==> r == Success([FieldOp(GETSTATIC, BoxedType(t).value, "TYPE", "Ljava/lang/Class;")])
  {
    match t
    case Meth(_, _) => Failure("Cannot load a method type as type class!")
    case Obj(_) => LoadConstantInsns(TypeValue(Descriptor(t)))
    case Arr(_) => LoadConstantInsns(TypeValue(Descriptor(t)))
    case Prim(_) => Success([FieldOp(GETSTATIC, BoxedType(t).value, "TYPE", "Ljava/lang/Class;")])
  }

  // ---------------------------------------------------------------------
  // Fields, invocations, construction

  /** `getField`/`setField` on a description: the static or instance variant
      on the described owner, name and descriptor. */
  function FieldAccessInsn(f: FieldDescription, isGet: bool): (r: Insn)
    ensures r.FieldOp? && r.owner == f.owner && r.name == f.name && r.desc == f.descriptor
    ensures FieldInsnIsStatic(r) <==> f.IsStatic()
    ensures isGet <==> (r.opcode == GETSTATIC || r.opcode == GETFIELD)
  {
    var op := if isGet then (if f.IsStatic() then GETSTATIC else GETFIELD)
              else (if f.IsStatic() then PUTSTATIC else PUTFIELD);
    FieldOp(op, f.owner, f.name, f.descriptor)
  }

  /** `getField(insn, static)` and `setField(insn, static)`: the access
      re-targeted at a field instruction's field; `static` defaults to the
      instruction's own. */
  function FieldAccessFrom(insn: Insn, isGet: bool, isStatic: bool := insn.FieldOp? && FieldInsnIsStatic(insn)): (r: Insn)
    requires insn.FieldOp?
    ensures r.FieldOp? && r.owner == insn.owner && r.name == insn.name && r.desc == insn.desc
    ensures FieldInsnIsStatic(r) <==> isStatic
    ensures isGet <==> (r.opcode == GETSTATIC || r.opcode == GETFIELD)
  {
    var op := if isGet then (if isStatic then GETSTATIC else GETFIELD)
              else (if isStatic then PUTSTATIC else PUTFIELD);
    FieldOp(op, insn.owner, insn.name, insn.desc)
  }

  /** With the default `static`, the access is static exactly when the
      instruction it copies is, and it reads or writes as asked. */
  lemma FieldAccessDefaultStatic(insn: Insn, isGet: bool)
    requires insn.FieldOp?
    ensures var r := FieldAccessFrom(insn, isGet);
      FieldInsnIsStatic(r) == FieldInsnIsStatic(insn)
      && (isGet ==> r.opcode == (if FieldInsnIsStatic(insn) then GETSTATIC else GETFIELD))
      && (!isGet ==> r.opcode == (if FieldInsnIsStatic(insn) then PUTSTATIC else PUTFIELD))
  {
  }

  /** The node variants `getField(owner, node)`, `setField(owner, node)` and
      the data variants equal the description variant of the node's
      description. */
  lemma FieldInsnVariantsAgree(owner: ClassRecord, node: FieldRecord, isGet: bool)
    ensures var viaNode := FieldOp(
              if isGet then (if IsStatic(node.access) then GETSTATIC else GETFIELD)
              else (if IsStatic(node.access) then PUTSTATIC else PUTFIELD),
              owner.name, node.name, node.desc);
            viaNode == FieldAccessInsn(FieldNodeAsDescription(node, owner.name), isGet)
            && viaNode == FieldAccessInsn(FieldDataAsDescription(FieldData(owner, node)), isGet)
  {
  }

  /** `invokeMethod(description)`: the opcode of its invocation type and the
      description's own interface flag. */
  function InvokeInsn(d: MethodDescription): (r: Insn)
    ensures r.Call? && r.owner == d.owner && r.name == d.name && r.desc == d.descriptor
    ensures r.isInterface == d.isInterface
    ensures FromOpcode(r.opcode) == Success(InvocationTypeOf(d))
  {
    FromOpcodeRoundTrip(InvocationTypeOf(d), InvocationTypeOf(d));
    Call(InvocationTypeOf(d).Opcode(), d.owner, d.name, d.descriptor, d.isInterface)
  }

  /** `invokeMethod(type, owner, name, descriptor)`: the interface flag is set
      exactly for INTERFACE. */
  function InvokeTypedInsn(t: InvocationType, owner: string, name: string, descriptor: string): (r: Insn)
    ensures r.Call? && r.owner == owner && r.name == name && r.desc == descriptor
    ensures r.isInterface <==> t == INTERFACE
    ensures FromOpcode(r.opcode) == Success(t)
  {
    FromOpcodeRoundTrip(t, t);
    Call(t.Opcode(), owner, name, descriptor, t == INTERFACE)
  }

  /** The two `invokeMethod`s emit the same call exactly when the
      description's interface flag says what its invocation type says. */
  lemma InvokeVariantsAgree(d: MethodDescription)
    ensures InvokeInsn(d) == InvokeTypedInsn(InvocationTypeOf(d), d.owner, d.name, d.descriptor)
        <==> (d.isInterface <==> InvocationTypeOf(d) == INTERFACE)
  {
  }

  /** `construct(className, descriptor) { args }`: NEW, DUP, the arguments'
      instructions, then the constructor call. */
  function ConstructInsns(className: string, descriptor: string, args: seq<Insn>): (r: seq<Insn>)
    ensures |r| == |args| + 3
    ensures r[0] == TypeOp(NEW, className) && r[1] == Op(DUP) && r[2..|r| - 1] == args
    ensures r[|r| - 1] == Call(INVOKESPECIAL, className, "<init>", descriptor, false)
  {
    [TypeOp(NEW, className), Op(DUP)] + args + [Call(INVOKESPECIAL, className, "<init>", descriptor, false)]
  }

  lemma ConstructEvents(className: string, descriptor: string, args: seq<Insn>)
    ensures InsEvents(ConstructInsns(className, descriptor, args))
         == [Ins(TypeOp(NEW, className)), Ins(Op(DUP))] + InsEvents(args)
            + [Ins(Call(INVOKESPECIAL, className, "<init>", descriptor, false))]
  {
    var head := [TypeOp(NEW, className), Op(DUP)];
    var call := Call(INVOKESPECIAL, className, "<init>", descriptor, false);
    assert ConstructInsns(className, descriptor, args) == head + args + [call];
    InsEventsAppend(head, args);
    InsEventsAppend(head + args, [call]);
    assert InsEvents(head) == [Ins(TypeOp(NEW, className)), Ins(Op(DUP))];
    assert InsEvents([call]) == [Ins(call)];
  }

  /** `construct(description) { args }`: refused unless the description is a
      constructor; then the same as constructing its owner. */
  function ConstructDescribedInsns(c: MethodDescription, args: seq<Insn>): (r: Result<seq<Insn>>)
    ensures r.Success? <==> c.IsConstructor()
    ensures r.Success? ==> r.value == ConstructInsns(c.owner, c.descriptor, args)
  {
    if !c.IsConstructor() then Failure("constructor is not a constructor")
    else Success(ConstructInsns(c.owner, c.descriptor, args))
  }

  // ---------------------------------------------------------------------
  // The sink

  /** A `MethodVisitor` seen as the list of events it has received. */
  class MethodSink {
    var events: seq<Event>

    constructor()
      ensures events == []
    {
      events := [];
    }

    method Visit(e: Event)
      modifies this
      ensures events == old(events) + [e]
    {
      events := events + [e];
    }

    method VisitInsn(insn: Insn)
      modifies this
      ensures events == old(events) + [Ins(insn)]
    {
      events := events + [Ins(insn)];
    }

    /** Appends a run of events, in order. */
    method VisitEvents(es: seq<Event>)
      modifies this
      ensures events == old(events) + es
    {
      var i := 0;
      while i < |es|
        invariant 0 <= i <= |es|
        invariant events == old(events) + es[..i]
      {
        Visit(es[i]);
        assert es[..i + 1] == es[..i] + [es[i]];
        i := i + 1;
      }
      assert es[..i] == es;
    }

    /** Appends a whole run of instructions, one event each, in order. */
    method VisitAll(insns: seq<Insn>)
      modifies this
      ensures events == old(events) + InsEvents(insns)
    {
      var i := 0;
      while i < |insns|
        invariant 0 <= i <= |insns|
        invariant events == old(events) + InsEvents(insns[..i])
      {
        VisitInsn(insns[i]);
        assert InsEvents(insns[..i + 1]) == InsEvents(insns[..i]) + [Ins(insns[i])];
        i := i + 1;
      }
      assert insns[..i] == insns;
    }

    /** `loadConstant(value)`, with the char branch corrected. */
    method LoadConstant(v: Value) returns (r: Result<()>)
      modifies this
      ensures r.Success? <==> LoadConstantInsns(v).Success?
      ensures r.Success? ==> events == old(events) + InsEvents(LoadConstantInsns(v).value)
      ensures r.Failure? ==> events == old(events)
    {
      match v {
        case NullValue => VisitInsn(Op(ACONST_NULL));
        case BoolValue(b) => VisitInsn(Op(if b then ICONST_1 else ICONST_0));
        case ByteValue(x) => VisitPair(IntOp(BIPUSH, x), Op(I2B));
        case IntValue(i) => LoadInt(i);
        case LongValue(l) => LoadLong(l);
        case CharValue(c) => VisitPair(IntOp(SIPUSH, CharOperand(c)), Op(I2C));
        case ShortValue(x) => VisitPair(IntOp(SIPUSH, x), Op(I2S));
        case OtherValue(_) =>
          return Failure("Constant value is not a valid JVM constant!");
        case _ => VisitInsn(Ldc(v));
      }
      return Success(());
    }

    /** Two instructions in a row. */
    method VisitPair(a: Insn, b: Insn)
      modifies this
      ensures events == old(events) + InsEvents([a, b])
    {
      VisitInsn(a);
      VisitInsn(b);
      assert InsEvents([a, b]) == [Ins(a), Ins(b)];
    }

    /** The int branch of `loadConstant`. */
    method LoadInt(i: int32)
      modifies this
      ensures events == old(events) + InsEvents(IntConstantInsns(i))
    {
      if -1 <= i <= 5 {
        VisitInsn(Op(ICONST_0 + i));
      } else if -0x80 <= i < 0x80 {
        VisitInsn(IntOp(BIPUSH, i));
      } else if -0x8000 <= i < 0x8000 {
        VisitInsn(IntOp(SIPUSH, i));
      } else {
        VisitInsn(Ldc(IntValue(i)));
      }
    }

    /** The long branch of `loadConstant`. */
    method LoadLong(l: int64)
      modifies this
      ensures events == old(events) + InsEvents(LongConstantInsns(l))
    {
      if l == 0 {
        VisitInsn(Op(LCONST_0));
      } else if l == 1 {
        VisitInsn(Op(LCONST_1));
      } else if -0x80 <= l < 0x80 {
        VisitPair(IntOp(BIPUSH, l), Op(I2L));
      } else if -0x8000 <= l < 0x8000 {
        VisitPair(IntOp(SIPUSH, l), Op(I2L));
      } else {
        VisitInsn(Ldc(LongValue(l)));
      }
    }

    /** `dup(n = 1)`: n DUP instructions; refused for n < 1. */
    method Dup(n: int := 1) returns (r: Result<()>)
      modifies this
      ensures r.Success? <==> n >= 1
      ensures r.Success? ==> events == old(events) + InsEvents(Repeat(Op(DUP), n))
      ensures r.Failure? ==> events == old(events)
    {
      if n < 1 {
        return Failure("n < 1, cannot dup less than one time");
      }
      var i := 0;
      while i < n
        invariant 0 <= i <= n
        invariant events == old(events) + InsEvents(Repeat(Op(DUP), i))
      {
        VisitInsn(Op(DUP));
        assert Repeat(Op(DUP), i + 1) == Repeat(Op(DUP), i) + [Op(DUP)];
        i := i + 1;
      }
      return Success(());
    }

    /** `pop(n = 1)`: n POP instructions; refused for n < 1. */
    method Pop(n: int := 1) returns (r: Result<()>)
      modifies this
      ensures r.Success? <==> n >= 1
      ensures r.Success? ==> events == old(events) + InsEvents(Repeat(Op(POP), n))
      ensures r.Failure? ==> events == old(events)
    {
      if n < 1 {
        return Failure("n < 1, cannot pop less than one time");
      }
      var i := 0;
      while i < n
        invariant 0 <= i <= n
        invariant events == old(events) + InsEvents(Repeat(Op(POP), i))
      {
        VisitInsn(Op(POP));
        assert Repeat(Op(POP), i + 1) == Repeat(Op(POP), i) + [Op(POP)];
        i := i + 1;
      }
      return Success(());
    }

    /** `returnMethod(opcode = RETURN)`: one return instruction from
        IRETURN..RETURN. */
    method ReturnMethod(opcode: int := RETURN) returns (r: Result<()>)
      modifies this
      ensures r.Success? <==> IRETURN <= opcode <= RETURN
      ensures r.Success? ==> events == old(events) + [Ins(Op(opcode))]
      ensures r.Failure? ==> events == old(events)
    {
      if !(IRETURN <= opcode <= RETURN) {
        return Failure("Invalid return opcode");
      }
      VisitInsn(Op(opcode));
      return Success(());
    }

    /** `load(index, opcode = ALOAD)`: one load from ILOAD..ALOAD. */
    method Load(index: nat, opcode: int := ALOAD) returns (r: Result<()>)
      modifies this
      ensures r.Success? <==> ILOAD <= opcode <= ALOAD
      ensures r.Success? ==> events == old(events) + [Ins(VarOp(opcode, index))]
      ensures r.Failure? ==> events == old(events)
    {
      if !(ILOAD <= opcode <= ALOAD) {
        return Failure("Invalid load opcode");
      }
      VisitInsn(VarOp(opcode, index));
      return Success(());
    }

    /** `load(index, type)`: the load variant of the type; refused for void
      and method types, which have none. */
    method LoadTyped(index: nat, t: JType) returns (r: Result<()>)
      modifies this
      ensures r.Success? <==> !t.Meth? && t != Prim(Void)
      ensures r.Success? ==> events == old(events) + [Ins(VarOp(TypedOpcode(t, ILOAD).value, index))]
      ensures r.Failure? ==> events == old(events)
    {
      var op := TypedOpcode(t, ILOAD);
      if op.Failure? {
        return Failure(op.error);
      }
      r := Load(index, op.value);
    }

    /** `store(index, opcode = ASTORE)`: one store from ISTORE..ASTORE. */
    method Store(index: nat, opcode: int := ASTORE) returns (r: Result<()>)
      modifies this
      ensures r.Success? <==> ISTORE <= opcode <= ASTORE
      ensures r.Success? ==> events == old(events) + [Ins(VarOp(opcode, index))]
      ensures r.Failure? ==> events == old(events)
    {
      if !(ISTORE <= opcode <= ASTORE) {
        return Failure("Invalid store opcode");
      }
      VisitInsn(VarOp(opcode, index));
      return Success(());
    }

    /** `getField(description)`. */
    method GetField(f: FieldDescription)
      modifies this
      ensures events == old(events) + [Ins(FieldAccessInsn(f, true))]
    {
      VisitInsn(FieldOp(if f.IsStatic() then GETSTATIC else GETFIELD, f.owner, f.name, f.descriptor));
    }

    /** `setField(description)`. */
    method SetField(f: FieldDescription)
      modifies this
      ensures events == old(events) + [Ins(FieldAccessInsn(f, false))]
    {
      VisitInsn(FieldOp(if f.IsStatic() then PUTSTATIC else PUTFIELD, f.owner, f.name, f.descriptor));
    }

    /** `invokeMethod(description)`; the `MethodData` variant passes the
      data's description. */
    method InvokeMethod(d: MethodDescription)
      modifies this
      ensures events == old(events) + [Ins(InvokeInsn(d))]
    {
      VisitInsn(Call(InvocationTypeOf(d).Opcode(), d.owner, d.name, d.descriptor, d.isInterface));
    }

    /** `invokeMethod(invocationType, owner, name, descriptor)`. */
    method InvokeTyped(t: InvocationType, owner: string, name: string, descriptor: string)
      modifies this
      ensures events == old(events) + [Ins(InvokeTypedInsn(t, owner, name, descriptor))]
    {
      VisitInsn(Call(t.Opcode(), owner, name, descriptor, t == INTERFACE));
    }

    /** `construct(className, descriptor) { args }`; `args` stands for what
      the block emits. */
    method Construct(className: string, descriptor: string, args: seq<Insn>)
      modifies this
      ensures events == old(events) + InsEvents(ConstructInsns(className, descriptor, args))
    {
      var call := Call(INVOKESPECIAL, className, "<init>", descriptor, false);
      ghost var e0 := events;
      VisitInsn(TypeOp(NEW, className));
      ghost var e1 := events;
      var _ := Dup(1);
      RepeatOnce(Op(DUP));
      assert events == e1 + [Ins(Op(DUP))];
      VisitAll(args);
      VisitInsn(call);
      assert events == e0 + ([Ins(TypeOp(NEW, className)), Ins(Op(DUP))] + InsEvents(args) + [Ins(call)]);
      ConstructEvents(className, descriptor, args);
    }

    /** `construct(description) { args }`: refused unless a constructor. */
    method ConstructDescribed(c: MethodDescription, args: seq<Insn>) returns (r: Result<()>)
      modifies this
      ensures r.Success? <==> ConstructDescribedInsns(c, args).Success?
      ensures r.Success? ==> events == old(events) + InsEvents(ConstructDescribedInsns(c, args).value)
      ensures r.Failure? ==> events == old(events)
    {
      if !c.IsConstructor() {
        return Failure("constructor is not a constructor");
      }
      Construct(c.owner, c.descriptor, args);
      return Success(());
    }

    /** `box(type)`. */
    method Box(t: JType) returns (r: Result<()>)
      modifies this
      ensures r.Success? <==> BoxInsns(t).Success?
      ensures r.Success? ==> events == old(events) + InsEvents(BoxInsns(t).value)
      ensures r.Failure? ==> events == old(events)
    {
      if !IsPrimitive(t) {
        return Failure("type must be primitive!");
      }
      if t == Prim(Void) {
        return Success(());
      }
      var boxed := BoxedType(t).value;
      InvokeTyped(STATIC, boxed, "valueOf", "(" + Descriptor(t) + ")L" + boxed + ";");
      return Success(());
    }

    /** `unbox(type)`, with the long descriptor corrected. */
    method Unbox(t: JType) returns (r: Result<()>)
      modifies this
      ensures r.Success? <==> UnboxInsns(t).Success?
      ensures r.Success? ==> events == old(events) + InsEvents(UnboxInsns(t).value)
      ensures r.Failure? ==> events == old(events)
    {
      if !IsPrimitive(t) {
        return Failure("type must be primitive!");
      }
      if t == Prim(Void) {
        return Success(());
      }
      var (owner, name, ret) := UnboxTarget(t);
      VisitInsn(TypeOp(CHECKCAST, owner));
      InvokeTyped(VIRTUAL, owner, name, "()" + ret);
      return Success(());
    }

    /** `loadTypeClass(type)`. */
    method LoadTypeClass(t: JType) returns (r: Result<()>)
      modifies this
      ensures r.Success? <==> LoadTypeClassInsns(t).Success?
      ensures r.Success? ==> events == old(events) + InsEvents(LoadTypeClassInsns(t).value)
      ensures r.Failure? ==> events == old(events)
    {
      match t {
        case Meth(_, _) => return Failure("Cannot load a method type as type class!");
        case Obj(_) => r := LoadConstant(TypeValue(Descriptor(t)));
        case Arr(_) => r := LoadConstant(TypeValue(Descriptor(t)));
        case Prim(_) =>
          VisitInsn(FieldOp(GETSTATIC, BoxedType(t).value, "TYPE", "Ljava/lang/Class;"));
          return Success(());
      }
    }
  }
}
