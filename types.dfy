/** ASM's `Type`: the value, object, array and method types of section 4.3 of
    the Java Virtual Machine Specification (Java SE 8), their descriptors,
    a descriptor parser, and the per-type helpers the library calls
    (`sort`, `size`, `getOpcode`, `internalName`). */
module JvmTypes {
  import opened Wrappers
  import opened KotlinStrings
  import opened Jvm

  /** The primitive sorts, `VOID` included, in ASM's numbering order. */
  datatype Primitive = Void | Boolean | Char | Byte | Short | Int | Float | Long | Double

  datatype JType =
    | Prim(p: Primitive)
    | Obj(name: string)
    | Arr(elem: JType)
    | Meth(args: seq<JType>, ret: JType)

  /** ASM's `Type.getSort()`. */
  datatype Sort = VOID | BOOLEAN | CHAR | BYTE | SHORT | INT | FLOAT | LONG | DOUBLE | ARRAY | OBJECT | METHOD

  function SortOf(t: JType): Sort {
    match t
    case Prim(p) =>
      (match p
       case Void => VOID case Boolean => BOOLEAN case Char => CHAR
       case Byte => BYTE case Short => SHORT case Int => INT
       case Float => FLOAT case Long => LONG case Double => DOUBLE)
    case Obj(_) => OBJECT
    case Arr(_) => ARRAY
    case Meth(_, _) => METHOD
  }

  /** A type that a field, a local or an argument can have: no void, no
      method type, and object names free of the descriptor terminator. */
  predicate FieldType(t: JType) {
    match t
    case Prim(p) => p != Void
    case Obj(n) => ';' !in n
    case Arr(e) => FieldType(e)
    case Meth(_, _) => false
  }

  /** A method type whose arguments are field types and whose return type is
      void or a field type. */
  predicate MethodType(t: JType) {
    t.Meth? && (forall i :: 0 <= i < |t.args| ==> FieldType(t.args[i]))
    && (t.ret == Prim(Void) || FieldType(t.ret))
  }

  function PrimChar(p: Primitive): char {
    match p
    case Void => 'V' case Boolean => 'Z' case Char => 'C' case Byte => 'B'
    case Short => 'S' case Int => 'I' case Float => 'F' case Long => 'J' case Double => 'D'
  }

  /** `Type.getClassName()` of a primitive: its Java keyword. */
  function PrimName(p: Primitive): string {
    match p
    case Void => "void" case Boolean => "boolean" case Char => "char" case Byte => "byte"
    case Short => "short" case Int => "int" case Float => "float" case Long => "long" case Double => "double"
  }

  /** `Type.getDescriptor()`. */
  function Descriptor(t: JType): string
    decreases t
  {
    match t
    case Prim(p) => [PrimChar(p)]
    case Obj(n) => "L" + n + ";"
    case Arr(e) => "[" + Descriptor(e)
    case Meth(args, ret) => "(" + ArgsDescriptor(args) + ")" + Descriptor(ret)
  }

  function ArgsDescriptor(args: seq<JType>): string
    decreases args
  {
    if |args| == 0 then "" else Descriptor(args[0]) + ArgsDescriptor(args[1..])
  }

  /** Reads one field type from the front of `s`, giving it and the rest:
      what was read is exactly that type's descriptor. */
  function ParseFieldType(s: string): (r: Option<(JType, string)>)
    ensures r.Some? ==> |r.value.1| < |s|
    ensures r.Some? ==> FieldType(r.value.0) && s == Descriptor(r.value.0) + r.value.1
    decreases |s|
  {
    if |s| == 0 then None
    else if s[0] == 'L' then
      if ';' in s[1..] then
        var k := IndexOf(s[1..], ';');
        var n := s[1..][..k];
        assert s == "L" + n + ";" + s[1..][k + 1..] by {
          assert s == [s[0]] + s[1..];
          assert s[1..] == n + [s[1..][k]] + s[1..][k + 1..];
        }
        Some((Obj(n), s[1..][k + 1..]))
      else None
    else if s[0] == '[' then
      match ParseFieldType(s[1..])
      case None => None
      case Some((e, rest)) =>
        assert s == "[" + Descriptor(e) + rest by { assert s == [s[0]] + s[1..]; }
        Some((Arr(e), rest))
    else if s[0] == 'Z' then Some((Prim(Boolean), s[1..]))
    else if s[0] == 'C' then Some((Prim(Char), s[1..]))
    else if s[0] == 'B' then Some((Prim(Byte), s[1..]))
    else if s[0] == 'S' then Some((Prim(Short), s[1..]))
    else if s[0] == 'I' then Some((Prim(Int), s[1..]))
    else if s[0] == 'F' then Some((Prim(Float), s[1..]))
    else if s[0] == 'J' then Some((Prim(Long), s[1..]))
    else if s[0] == 'D' then Some((Prim(Double), s[1..]))
    else None
  }

  /** Reads field types up to and including the closing parenthesis: what
      was read is exactly the list's descriptors and `)`. */
  function ParseArgs(s: string): (r: Option<(seq<JType>, string)>)
    ensures r.Some? ==> |r.value.1| < |s|
    ensures r.Some? ==> (forall i :: 0 <= i < |r.value.0| ==> FieldType(r.value.0[i]))
                        && s == ArgsDescriptor(r.value.0) + ")" + r.value.1
    decreases |s|
  {
    if |s| == 0 then None
    else if s[0] == ')' then
      assert s == ArgsDescriptor([]) + ")" + s[1..] by { assert s == [s[0]] + s[1..]; }
      Some(([], s[1..]))
    else
      match ParseFieldType(s)
      case None => None
      case Some((t, rest)) =>
        match ParseArgs(rest)
        case None => None
        case Some((ts, rest2)) =>
          ParsedArgsCons(s, t, rest, ts, rest2);
          Some(([t] + ts, rest2))
  }

  /** One more field type in front of parsed arguments. */
  lemma ParsedArgsCons(s: string, t: JType, rest: string, ts: seq<JType>, rest2: string)
    requires FieldType(t) && s == Descriptor(t) + rest
    requires (forall i :: 0 <= i < |ts| ==> FieldType(ts[i])) && rest == ArgsDescriptor(ts) + ")" + rest2
    ensures forall i :: 0 <= i < |[t] + ts| ==> FieldType(([t] + ts)[i])
    ensures s == ArgsDescriptor([t] + ts) + ")" + rest2
  {
    var all := [t] + ts;
    assert all[0] == t && all[1..] == ts;
    assert ArgsDescriptor(all) == Descriptor(t) + ArgsDescriptor(ts);
  }

  /** A whole method descriptor `(args)ret`, nothing after it. */
  function ParseMethodDescriptor(d: string): (r: Option<JType>)
    ensures r.Some? ==> MethodType(r.value) && Descriptor(r.value) == d
  {
    if |d| == 0 || d[0] != '(' then None
    else
      match ParseArgs(d[1..])
      case None => None
      case Some((args, rest)) =>
        assert d == "(" + ArgsDescriptor(args) + ")" + rest by { assert d == [d[0]] + d[1..]; }
        if rest == "V" then Some(Meth(args, Prim(Void)))
        else
          match ParseFieldType(rest)
          case Some((ret, rest2)) =>
            if rest2 == [] then
              assert rest == Descriptor(ret);
              Some(Meth(args, ret))
            else None
          case None => None
  }

  /** A whole field descriptor, nothing after it. */
  function ParseFieldDescriptor(d: string): (r: Option<JType>)
    ensures r.Some? ==> FieldType(r.value) && Descriptor(r.value) == d
  {
    match ParseFieldType(d)
    case Some((t, rest)) => if rest == [] then Some(t) else None
    case None => None
  }

  /** `Type.getArgumentTypes(desc)`; `None` for a malformed descriptor. */
  function ArgumentTypes(desc: string): (r: Option<seq<JType>>)
    ensures r.Some? ==> exists ret :: MethodType(Meth(r.value, ret)) && Descriptor(Meth(r.value, ret)) == desc
  {
    match ParseMethodDescriptor(desc)
    case Some(m) => Some(m.args)
    case None => None
  }

  /** `Type.getReturnType(desc)`; `None` for a malformed descriptor. */
  function ReturnType(desc: string): (r: Option<JType>)
    ensures r.Some? <==> ArgumentTypes(desc).Some?
    ensures r.Some? ==> MethodType(Meth(ArgumentTypes(desc).value, r.value))
                        && Descriptor(Meth(ArgumentTypes(desc).value, r.value)) == desc
  {
    match ParseMethodDescriptor(desc)
    case Some(m) => Some(m.ret)
    case None => None
  }

  lemma {:induction false} ParseFieldTypeOfDescriptor(t: JType, rest: string)
    requires FieldType(t)
    ensures ParseFieldType(Descriptor(t) + rest) == Some((t, rest))
    decreases t
  {
    var s := Descriptor(t) + rest;
    match t
    case Prim(p) =>
      assert s[1..] == rest;
    case Obj(n) =>
      assert s[1..] == n + ";" + rest;
      assert ';' in s[1..] by { assert s[1..][|n|] == ';'; }
      var k := IndexOf(s[1..], ';');
      assert k == |n|;
      assert s[1..][..k] == n;
      assert s[1..][k + 1..] == rest;
    case Arr(e) =>
      assert s[1..] == Descriptor(e) + rest;
      ParseFieldTypeOfDescriptor(e, rest);
    case Meth(_, _) =>
  }

  lemma {:induction false} ParseArgsOfDescriptor(args: seq<JType>, rest: string)
    requires forall i :: 0 <= i < |args| ==> FieldType(args[i])
    ensures ParseArgs(ArgsDescriptor(args) + ")" + rest) == Some((args, rest))
    decreases |args|
  {
    var s := ArgsDescriptor(args) + ")" + rest;
    if |args| == 0 {
      assert s == ")" + rest;
      assert s[1..] == rest;
    } else {
      var tail := ArgsDescriptor(args[1..]) + ")" + rest;
      assert s == Descriptor(args[0]) + tail;
      ParseFieldTypeOfDescriptor(args[0], tail);
      assert |Descriptor(args[0])| > 0 by { DescriptorNonEmpty(args[0]); }
      assert s[0] != ')' by { DescriptorNotParen(args[0]); }
      ParseArgsOfDescriptor(args[1..], rest);
      assert [args[0]] + args[1..] == args;
    }
  }

  lemma DescriptorNonEmpty(t: JType)
    ensures |Descriptor(t)| > 0
  {
  }

  lemma DescriptorNotParen(t: JType)
    requires FieldType(t)
    ensures Descriptor(t)[0] != ')'
  {
  }

  /** Parsing a method type's descriptor gives the type back, and so do
      `getArgumentTypes` and `getReturnType`, part by part. */
  lemma MethodDescriptorRoundTrip(m: JType)
    requires MethodType(m)
    ensures ParseMethodDescriptor(Descriptor(m)) == Some(m)
    ensures ArgumentTypes(Descriptor(m)) == Some(m.args) && ReturnType(Descriptor(m)) == Some(m.ret)
  {
    var d := Descriptor(m);
    assert d[1..] == ArgsDescriptor(m.args) + ")" + Descriptor(m.ret);
    ParseArgsOfDescriptor(m.args, Descriptor(m.ret));
    if m.ret != Prim(Void) {
      ParseFieldTypeOfDescriptor(m.ret, "");
      assert Descriptor(m.ret) + "" == Descriptor(m.ret);
      assert Descriptor(m.ret) != "V";
    }
  }

  /** Parsing a field type's descriptor gives the type back. */
  lemma FieldDescriptorRoundTrip(t: JType)
    requires FieldType(t)
    ensures ParseFieldDescriptor(Descriptor(t)) == Some(t)
  {
    ParseFieldTypeOfDescriptor(t, "");
    assert Descriptor(t) + "" == Descriptor(t);
  }

  /** `isPrimitive`: every sort but array, object and method, void included. */
  predicate IsPrimitive(t: JType) {
    t.Prim?
  }

  /** `Type.getSize()`: long and double take two local slots or stack words
      (section 2.6.1 of the Java Virtual Machine Specification), void none. */
  function Size(t: JType): (r: nat)
    ensures r == 2 <==> t == Prim(Long) || t == Prim(Double)
    ensures r == 0 <==> t == Prim(Void)
    ensures r <= 2
  {
    match t
    case Prim(p) => if p == Long || p == Double then 2 else if p == Void then 0 else 1
    case _ => 1
  }

  /** `Type.getOpcode(base)` for `base` being ILOAD, ISTORE or IRETURN: the
      variant of the instruction for this type. Load and store have no void
      variant; no instruction has a method-type variant. */
  function TypedOpcode(t: JType, base: int): (r: Result<int>)
    requires base == ILOAD || base == ISTORE || base == IRETURN
    ensures r.Failure? <==> t.Meth? || (t == Prim(Void) && base != IRETURN)
    ensures r.Success? && base == ILOAD ==> ILOAD <= r.value <= ALOAD
    ensures r.Success? && base == ISTORE ==> ISTORE <= r.value <= ASTORE
    ensures r.Success? && base == IRETURN ==> IRETURN <= r.value <= RETURN
    ensures r.Success? ==> (r.value == base + 4 <==> t.Obj? || t.Arr?)
    ensures r.Success? ==> (r.value == base <==> t.Prim? && t.p in {Boolean, Byte, Char, Short, Int})
  {
    match t
    case Meth(_, _) => Failure("getOpcode on a method type")
    case Obj(_) => Success(base + 4)
    case Arr(_) => Success(base + 4)
    case Prim(p) =>
      match p
      case Void => if base == IRETURN then Success(RETURN) else Failure("getOpcode on void")
      case Float => Success(base + 2)
      case Long => Success(base + 1)
      case Double => Success(base + 3)
      case _ => Success(base)
  }

  /** `Type.getInternalName()`: the class name for an object type, the
      descriptor for every other type. */
  function InternalName(t: JType): string {
    if t.Obj? then t.name else Descriptor(t)
  }
}
