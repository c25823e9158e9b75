/** The class-file vocabulary the library works on, as ASM's tree and visitor
    APIs present it: opcodes (chapter 7 of the Java Virtual Machine
    Specification, Java SE 8), access flags (its sections 4.1, 4.5 and 4.6),
    constant values, instructions, method-visitor events and the class, method
    and field nodes. Bytes are not modelled: a class is the node ASM builds. */
module Jvm {
  import opened Wrappers

  // Kotlin's fixed-width integer types
  type int8 = x: int | -0x80 <= x < 0x80
  type int16 = x: int | -0x8000 <= x < 0x8000
  type uint16 = x: int | 0 <= x < 0x1_0000
  type int32 = x: int | -0x8000_0000 <= x < 0x8000_0000
  type int64 = x: int | -0x8000_0000_0000_0000 <= x < 0x8000_0000_0000_0000

  // Opcodes
  const NOP := 0
  const ACONST_NULL := 1
  const ICONST_M1 := 2
  const ICONST_0 := 3
  const ICONST_1 := 4
  const ICONST_5 := 8
  const LCONST_0 := 9
  const LCONST_1 := 10
  const FCONST_0 := 11
  const FCONST_1 := 12
  const FCONST_2 := 13
  const DCONST_0 := 14
  const DCONST_1 := 15
  const BIPUSH := 16
  const SIPUSH := 17
  const LDC := 18
  const ILOAD := 21
  const LLOAD := 22
  const FLOAD := 23
  const DLOAD := 24
  const ALOAD := 25
  const ISTORE := 54
  const ASTORE := 58
  const AASTORE := 83
  const POP := 87
  const DUP := 89
  const I2L := 133
  const I2B := 145
  const I2C := 146
  const I2S := 147
  const IFNULL := 198
  const IRETURN := 172
  const LRETURN := 173
  const FRETURN := 174
  const DRETURN := 175
  const ARETURN := 176
  const RETURN := 177
  const GETSTATIC := 178
  const PUTSTATIC := 179
  const GETFIELD := 180
  const PUTFIELD := 181
  const INVOKEVIRTUAL := 182
  const INVOKESPECIAL := 183
  const INVOKESTATIC := 184
  const INVOKEINTERFACE := 185
  const INVOKEDYNAMIC := 186
  const NEW := 187
  const NEWARRAY := 188
  const ANEWARRAY := 189
  const ATHROW := 191
  const CHECKCAST := 192

  // Access flags. A Kotlin `Int` used as a bit set is modelled by its 32 bits.
  const ACC_PUBLIC: bv32 := 0x0001
  const ACC_PRIVATE: bv32 := 0x0002
  const ACC_PROTECTED: bv32 := 0x0004
  const ACC_STATIC: bv32 := 0x0008
  const ACC_FINAL: bv32 := 0x0010
  const ACC_INTERFACE: bv32 := 0x0200
  const ACC_ABSTRACT: bv32 := 0x0400

  /** `access and flags != 0`. */
  predicate HasFlag(access: bv32, flags: bv32) {
    access & flags != 0
  }

  /** A constant as it appears in an LDC instruction, a bootstrap argument, a
      field's ConstantValue or an argument of `loadConstant` (Kotlin `Any?`).
      Floating-point values are kept as their IEEE 754 bit patterns and never
      computed with. */
  datatype Value =
    | NullValue
    | BoolValue(b: bool)
    | ByteValue(byte: int8)
    | ShortValue(short: int16)
    | CharValue(code: uint16)
    | IntValue(i: int32)
    | LongValue(l: int64)
    | FloatValue(fbits: int)
    | DoubleValue(dbits: int)
    | StringValue(s: string)
    | TypeValue(desc: string)
    | HandleValue(tag: int, owner: string, name: string, hdesc: string, isInterface: bool)
    | CondyValue(cname: string, cdesc: string)
    | OtherValue(className: string)

  /** One instruction node. `Mark` is a label in the instruction list. */
  datatype Insn =
    | Op(opcode: int)
    | IntOp(opcode: int, operand: int32)
    | VarOp(opcode: int, index: nat)
    | TypeOp(opcode: int, typeName: string)
    | FieldOp(opcode: int, owner: string, name: string, desc: string)
    | Call(opcode: int, owner: string, name: string, desc: string, isInterface: bool)
    | Indy(name: string, desc: string, bsmArgs: seq<Value>)
    | Jump(opcode: int, target: nat)
    | Mark(markId: nat)
    | Ldc(cst: Value)

  /** One call on a MethodVisitor, in the order a ClassReader makes them. */
  datatype Event =
    | Parameter(pname: string, paccess: bv32)
    | Code
    | Ins(insn: Insn)
    | Maxs(maxStack: int, maxLocals: int)
    | End

  /** Each instruction as the event that visits it. */
  function InsEvents(insns: seq<Insn>): (r: seq<Event>)
    ensures |r| == |insns|
    ensures forall i :: 0 <= i < |insns| ==> r[i] == Ins(insns[i])
  {
    seq(|insns|, i requires 0 <= i < |insns| => Ins(insns[i]))
  }

  /** Concatenation regrouped. */
  lemma Regroup3<T>(a: seq<T>, b: seq<T>, c: seq<T>)
    ensures a + (b + c) == a + b + c
  {
  }

  lemma TailOfConcat<T>(a: seq<T>, b: seq<T>)
    requires |a| > 0
    ensures (a + b)[0] == a[0] && (a + b)[1..] == a[1..] + b
  {
  }

  lemma ConcatAssoc<T>(a: seq<T>, b: seq<T>, c: seq<T>, d: seq<T>)
    ensures a + (b + c + d) == a + b + c + d
  {
  }

  lemma InsEventsAppend(a: seq<Insn>, b: seq<Insn>)
    ensures InsEvents(a + b) == InsEvents(a) + InsEvents(b)
  {
  }

  /** One call on a ClassVisitor: the header, a method with the events its
      visitor receives, and the end. Fields, annotations and attributes are
      not modelled. */
  datatype ClassEvent =
    | Header(version: int, caccess: bv32, cname: string, signature: Option<string>,
             superName: Option<string>, interfaces: seq<string>)
    | MethodDecl(maccess: bv32, mname: string, mdesc: string, body: seq<Event>)
    | ClassEnd

  datatype MethodRecord = MethodRecord(name: string, desc: string, access: bv32, insns: seq<Insn>)

  datatype FieldRecord = FieldRecord(name: string, desc: string, access: bv32, value: Option<Value>)

  datatype ClassRecord = ClassRecord(
    name: string,
    superName: Option<string>,
    interfaces: seq<string>,
    access: bv32,
    methods: seq<MethodRecord>,
    fields: seq<FieldRecord>)
}
