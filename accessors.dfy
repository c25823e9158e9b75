/** Accessor generation (Accessors.kt): how a method of an accessor
    interface is matched to a field or a method of the found class, the
    names of the generated classes and of the fields holding reflected
    members, how arguments are loaded from their local slots, and the
    checks made before an accessor class is generated. */
module Accessors {
  import opened Wrappers
  import opened KotlinStrings
  import opened Jvm
  import opened JvmTypes
  import opened Extensions
  import opened Descriptions
  import opened Emitters

  const ACCESSOR_PACKAGE := "com/grappenmaker/jvmutil/accessor/generated"

  // ---------------------------------------------------------------------
  // Choosing an implementation

  /** `FieldImplementation.Type`. */
  datatype AccessorKind = GETTER | SETTER {
    function ParamCount(): nat { if this == GETTER then 0 else 1 }
    function NamePrefix(): string { if this == GETTER then "get" else "set" }

    /** `match(params, name)`. */
    predicate Match(params: nat, name: string) {
      ParamCount() == params && StartsWith(name, NamePrefix())
    }
  }

  /** The default `type` of a `FieldImplementation`: a setter exactly when
      the receiver's name starts with "set". */
  function DefaultKind(receiverName: string): (k: AccessorKind)
    ensures k == SETTER <==> StartsWith(receiverName, "set")
  {
    if StartsWith(receiverName, "set") then SETTER else GETTER
  }

  /** A method of the interface to implement: its name, its argument and
      return types, and whether it has a default body. */
  datatype ReceiverMethod = ReceiverMethod(name: string, args: seq<JType>, ret: JType, isDefault: bool) {
    function Desc(): string { Descriptor(Meth(args, ret)) }
  }

  datatype Implementation =
    | FieldImpl(receiver: ReceiverMethod, fieldTarget: FieldData, kind: AccessorKind)
    | MethodImpl(receiver: ReceiverMethod, methodTarget: MethodData)
    | NotImplemented(receiver: ReceiverMethod)

  /** `map[key]?.nullable()`: a finder's element, absent when the key is
      missing or the finder found nothing. */
  function Lookup<T>(m: map<string, Option<T>>, key: string): Option<T> {
    if key in m then m[key] else None
  }

  /** The field names looked up for a receiver, in order: for a getter- or
      setter-shaped name longer than three characters, the name without its
      prefix and then that name with its first letter lower-cased; for any
      other name, the name itself. */
  function FieldNames(r: ReceiverMethod): (ns: seq<string>)
    ensures 1 <= |ns| <= 2
    ensures |ns| == 2 <==> (GETTER.Match(|r.args|, r.name) || SETTER.Match(|r.args|, r.name)) && |r.name| > 3
    ensures |ns| == 2 ==> (r.name == "get" + ns[0] || r.name == "set" + ns[0]) && |ns[0]| > 0
                          && ns[1] == LowerFirst(ns[0])
    ensures |ns| == 1 ==> ns[0] == r.name
  {
    var params := |r.args|;
    if (GETTER.Match(params, r.name) || SETTER.Match(params, r.name)) && |r.name| > 3 then
      [r.name[3..], LowerFirst(r.name[3..])]
    else [r.name]
  }

  /** `defaultSelectImplementation`. */
  function SelectImplementation(methods: map<string, Option<MethodData>>, fields: map<string, Option<FieldData>>,
                                r: ReceiverMethod, allowNotImplemented: bool): Option<Implementation>
  {
    var params := |r.args|;
    var field :=
      if (GETTER.Match(params, r.name) || SETTER.Match(params, r.name)) && |r.name| > 3 then
        var fieldName := r.name[3..];
        match Lookup(fields, fieldName)
        case Some(f) => Some(f)
        case None => Lookup(fields, LowerFirst(fieldName))
      else Lookup(fields, r.name);
    match field
    case Some(f) => Some(FieldImpl(r, f, DefaultKind(r.name)))
    case None =>
      match Lookup(methods, r.name)
      case Some(m) => Some(MethodImpl(r, m))
      case None => if allowNotImplemented then Some(NotImplemented(r)) else None
  }

  /** Some field is found under one of the looked-up names. */
  predicate FieldFound(fields: map<string, Option<FieldData>>, r: ReceiverMethod) {
    exists i :: 0 <= i < |FieldNames(r)| && Lookup(fields, FieldNames(r)[i]).Some?
  }

  /** A found field always wins, and it is the one under the first name that
      has one; otherwise a method under the receiver's full name; otherwise
      "not implemented" when allowed, and nothing when not. */
  lemma SelectionOrder(methods: map<string, Option<MethodData>>, fields: map<string, Option<FieldData>>,
                       r: ReceiverMethod, allowNotImplemented: bool)
    ensures var s := SelectImplementation(methods, fields, r, allowNotImplemented);
      var ns := FieldNames(r);
      (s.Some? ==> s.value.receiver == r)
      && (s.Some? && s.value.FieldImpl? <==> FieldFound(fields, r))
      && (s.Some? && s.value.FieldImpl? ==>
            s.value.kind == DefaultKind(r.name)
            && exists i :: 0 <= i < |ns| && Lookup(fields, ns[i]) == Some(s.value.fieldTarget)
                           && forall j :: 0 <= j < i ==> Lookup(fields, ns[j]).None?)
      && (s.Some? && s.value.MethodImpl? <==> !FieldFound(fields, r) && Lookup(methods, r.name).Some?)
      && (s.Some? && s.value.MethodImpl? ==> Lookup(methods, r.name) == Some(s.value.methodTarget))
      && (s.Some? && s.value.NotImplemented? <==>
            !FieldFound(fields, r) && Lookup(methods, r.name).None? && allowNotImplemented)
      && (s.None? <==> !FieldFound(fields, r) && Lookup(methods, r.name).None? && !allowNotImplemented)
  {
    var s := SelectImplementation(methods, fields, r, allowNotImplemented);
    var ns := FieldNames(r);
    if |ns| == 2 {
      if Lookup(fields, ns[0]).Some? {
        assert s.value.fieldTarget == Lookup(fields, ns[0]).value;
      } else if Lookup(fields, ns[1]).Some? {
        assert s.value.fieldTarget == Lookup(fields, ns[1]).value;
      }
    } else if Lookup(fields, ns[0]).Some? {
      assert s.value.fieldTarget == Lookup(fields, ns[0]).value;
    }
  }

  /** A getter named "getFoo" looks up the field "Foo", then "foo", and
      never "getFoo"; with an argument it is no getter and looks up
      "getFoo". */
  lemma GetterFieldNames()
    ensures FieldNames(ReceiverMethod("getFoo", [], Prim(Int), false)) == ["Foo", "foo"]
    ensures FieldNames(ReceiverMethod("getFoo", [Prim(Int)], Prim(Int), false)) == ["getFoo"]
    ensures FieldNames(ReceiverMethod("get", [], Prim(Int), false)) == ["get"]
  {
    var foo := "getFoo";
    assert StartsWith(foo, "get") by { assert foo[..3] == "get"; }
    assert foo[3..] == "Foo";
    assert LowerAscii('F') == 'f';
    assert LowerFirst("Foo") == "foo" by { assert [LowerAscii('F')] + "Foo"[1..] == "foo"; }
    assert !StartsWith(foo, "set") by { assert foo[0] != 's'; }
  }

  // ---------------------------------------------------------------------
  // Names

  /** `escapeDesc`: '.', ';', '[' and '/' become "PD$", "SC$", "AR$" and
      "SL$", one after the other. */
  function EscapeDesc(d: string): string {
    ReplaceAll(ReplaceAll(ReplaceAll(ReplaceAll(d, ".", "PD$"), ";", "SC$"), "[", "AR$"), "/", "SL$")
  }

  predicate Escaped(c: char) { c == '.' || c == ';' || c == '[' || c == '/' }

  /** The escaped descriptor holds none of the four characters, keeps every
      other character of the descriptor and adds only characters of the
      replacements. */
  lemma EscapeDescCharacters(d: string, c: char)
    ensures Escaped(c) ==> c !in EscapeDesc(d)
    ensures !Escaped(c) && c in d ==> c in EscapeDesc(d)
    ensures c in EscapeDesc(d) ==> c in d || c in "PDSCARL$"
  {
    var s1 := ReplaceAll(d, ".", "PD$");
    var s2 := ReplaceAll(s1, ";", "SC$");
    var s3 := ReplaceAll(s2, "[", "AR$");
    assert "." == ['.'] && ";" == [';'] && "[" == ['['] && "/" == ['/'];
    ReplaceCharByString(d, '.', "PD$", c);
    ReplaceCharByString(s1, ';', "SC$", c);
    ReplaceCharByString(s2, '[', "AR$", c);
    ReplaceCharByString(s3, '/', "SL$", c);
  }

  /** An element whose access goes through reflection, stored in a field of
      the accessor. Equal targets give equal elements. */
  datatype ReflectedElement =
    | ReflectedMethod(methodTarget: MethodData)
    | ReflectedField(fieldTarget: FieldData)
  {
    function FieldName(): string {
      match this
      case ReflectedMethod(t) => "reflectedMethod_" + t.node.name + "$" + EscapeDesc(t.node.desc)
      case ReflectedField(t) => "reflectedField_" + t.field.name + "$" + EscapeDesc(t.field.desc)
    }

    function FieldType(): string {
      match this
      case ReflectedMethod(t) =>
        if IsConstructorName(t.node.name) then "java/lang/reflect/Constructor" else "java/lang/reflect/Method"
      case ReflectedField(_) => "java/lang/reflect/Field"
    }

    function FieldDesc(): string { "L" + FieldType() + ";" }
  }

  /** A reflected method's field never shares its name with a reflected
      field's, constructors are stored as `Constructor` and other methods as
      `Method`, and the descriptor part of the name is free of the escaped
      characters. */
  lemma ReflectedNames(m: MethodData, f: FieldData)
    ensures ReflectedMethod(m).FieldName() != ReflectedField(f).FieldName()
    ensures ReflectedMethod(m).FieldType() == "java/lang/reflect/Constructor" <==> IsConstructorName(m.node.name)
    ensures StartsWith(ReflectedMethod(m).FieldName(), "reflectedMethod_" + m.node.name + "$")
    ensures forall c :: Escaped(c) ==> c !in ReflectedMethod(m).FieldName()[|"reflectedMethod_" + m.node.name + "$"|..]
  {
    var a := ReflectedMethod(m).FieldName();
    var b := ReflectedField(f).FieldName();
    assert a[9] == 'M' && b[9] == 'F';
    var p := "reflectedMethod_" + m.node.name + "$";
    assert a[..|p|] == p;
    assert a[|p|..] == EscapeDesc(m.node.desc);
    forall c | Escaped(c) ensures c !in a[|p|..] {
      EscapeDescCharacters(m.node.desc, c);
    }
  }

  // ---------------------------------------------------------------------
  // Class names and the counter

  /** The global `accessorCounter`: every read yields the current value and
      increments it. */
  class AccessorCounter {
    var value: nat

    constructor()
      ensures value == 0
    {
      value := 0;
    }

    method Next() returns (n: nat)
      modifies this
      ensures n == old(value) && value == old(value) + 1
    {
      n := value;
      value := value + 1;
    }
  }

  /** `AccessorData`'s two names, initialised in declaration order. */
  method AccessorNames(counter: AccessorCounter, simpleName: string) returns (virtualName: string, staticName: string)
    modifies counter
    ensures virtualName == simpleName + "Virtual" + Decimal(old(counter.value))
    ensures staticName == simpleName + "Static" + Decimal(old(counter.value) + 1)
    ensures counter.value == old(counter.value) + 2
  {
    var n := counter.Next();
    virtualName := simpleName + "Virtual" + Decimal(n);
    var m := counter.Next();
    staticName := simpleName + "Static" + Decimal(m);
  }

  /** `fullVirtualAccessorName` and `fullStaticAccessorName`. */
  function FullAccessorName(name: string): string {
    ACCESSOR_PACKAGE + "/" + name
  }

  predicate IsDigit(c: char) { '0' <= c <= '9' }

  /** The number of digits `s` ends with. */
  function TrailingDigits(s: string): (k: nat)
    ensures k <= |s|
  {
    if |s| == 0 || !IsDigit(s[|s| - 1]) then 0 else 1 + TrailingDigits(s[..|s| - 1])
  }

  /** Digits after a non-digit: `s` ends with exactly those digits. */
  lemma {:induction false} TrailingDigitsAfter(a: string, d: string)
    requires |a| > 0 && !IsDigit(a[|a| - 1])
    requires forall i :: 0 <= i < |d| ==> IsDigit(d[i])
    ensures TrailingDigits(a + d) == |d|
    decreases |d|
  {
    var s := a + d;
    if |d| > 0 {
      assert s[..|s| - 1] == a + d[..|d| - 1];
      TrailingDigitsAfter(a, d[..|d| - 1]);
    } else {
      assert s == a;
    }
  }

  /** Two strings ending in a non-digit and then a number are equal only
      when the numbers are. */
  lemma NumberedNamesDiffer(a: string, b: string, n: nat, m: nat)
    requires |a| > 0 && |b| > 0 && !IsDigit(a[|a| - 1]) && !IsDigit(b[|b| - 1])
    requires a + Decimal(n) == b + Decimal(m)
    ensures n == m
  {
    var s := a + Decimal(n);
    TrailingDigitsAfter(a, Decimal(n));
    TrailingDigitsAfter(b, Decimal(m));
    assert Decimal(n) == s[|a|..];
    assert Decimal(m) == (b + Decimal(m))[|b|..];
    DecimalInjective(n, m);
  }

  /** Names built from distinct counter values never coincide, whatever the
      simple names and whichever of "Virtual" and "Static" they use. */
  lemma AccessorNamesUnique(x: string, y: string, kx: string, ky: string, n: nat, m: nat)
    requires kx == "Virtual" || kx == "Static"
    requires ky == "Virtual" || ky == "Static"
    requires n != m
    ensures x + kx + Decimal(n) != y + ky + Decimal(m)
  {
    if x + kx + Decimal(n) == y + ky + Decimal(m) {
      var a, b := x + kx, y + ky;
      assert a[|a| - 1] == kx[|kx| - 1] && b[|b| - 1] == ky[|ky| - 1];
      NumberedNamesDiffer(a, b, n, m);
    }
  }

  // ---------------------------------------------------------------------
  // Loading the arguments

  /** The total number of local slots the types take. */
  function SumSizes(ts: seq<JType>): nat
    decreases |ts|
  {
    if |ts| == 0 then 0 else SumSizes(ts[..|ts| - 1]) + Size(ts[|ts| - 1])
  }

  /** The slot argument `i` is loaded from: slot 0 is `this`, and every
      earlier argument takes its size. */
  function ParamSlot(args: seq<JType>, i: nat): nat
    requires i <= |args|
  {
    1 + SumSizes(args[..i])
  }

  /** Argument slots follow each other: the first is 1, each next one is
      the previous plus the size of the argument in it, and no two
      arguments share a slot. */
  lemma {:induction false} ParamSlotsDisjoint(args: seq<JType>, i: nat, j: nat)
    requires i < j <= |args|
    ensures ParamSlot(args, 0) == 1
    ensures ParamSlot(args, i + 1) == ParamSlot(args, i) + Size(args[i])
    ensures ParamSlot(args, i) + Size(args[i]) <= ParamSlot(args, j)
    decreases j - i
  {
    assert args[..0] == [];
    assert args[..i + 1][..i] == args[..i];
    if i + 1 < j {
      ParamSlotsDisjoint(args, i + 1, j);
    }
  }

  /** A long takes two slots: `(JI)` loads the int from slot 3. */
  lemma LongTakesTwoSlots()
    ensures ParamSlot([Prim(Long), Prim(Int)], 1) == 3
  {
    assert [Prim(Long), Prim(Int)][..1] == [Prim(Long)];
    assert [Prim(Long)][..0] == [];
  }

  /** `AccessorData.loadDelegate`: a non-null accessor on the stack is
      replaced by its delegate. `lbl` is the label jumped to. */
  function LoadDelegateInsns(fullAccessorName: string, lbl: nat): seq<Insn> {
    [Op(DUP), Jump(IFNULL, lbl), TypeOp(CHECKCAST, fullAccessorName),
     Call(INVOKEVIRTUAL, fullAccessorName, "getDelegate", "()Ljava/lang/Object;", false), Mark(lbl)]
  }

  /** In a reflective call's array, the array and the index `idx` at which
      the argument is stored. */
  function ArgPrefix(idx: nat, isReflected: bool, isArgumentsArray: bool): seq<Insn>
    requires idx < 0x8000_0000
  {
    if isReflected && isArgumentsArray then [Op(DUP)] + IntConstantInsns(idx) else []
  }

  /** The load of the argument from its slot, replaced by its delegate when
      its type is a registered accessor interface. `accessors` maps the
      internal name of each registered accessor interface to its generated
      virtual class; the label of argument `idx` is `idx`. */
  function ArgLoad(accessors: map<string, string>, idx: nat, slot: nat, t: JType): seq<Insn>
    requires FieldType(t)
  {
    [VarOp(TypedOpcode(t, ILOAD).value, slot)]
    + (if InternalName(t) in accessors then LoadDelegateInsns(accessors[InternalName(t)], idx) else [])
  }

  /** For reflection, boxing and the store into the array; otherwise a cast
      to the target's type when that differs from the argument's. */
  function ArgTail(t: JType, target: JType, isReflected: bool, isArgumentsArray: bool): seq<Insn>
    requires FieldType(t)
  {
    if isReflected then
      (if IsPrimitive(t) then BoxInsns(t).value else []) + (if isArgumentsArray then [Op(AASTORE)] else [])
    else if !IsPrimitive(t) && InternalName(t) != InternalName(target) then [TypeOp(CHECKCAST, InternalName(target))]
    else []
  }

  /** What `loadAccessorParams` emits for argument `idx` of type `t`, loaded
      from `slot`, whose target type is `target`. */
  function ArgInsns(accessors: map<string, string>, idx: nat, slot: nat, t: JType, target: JType,
                    isReflected: bool, isArgumentsArray: bool): seq<Insn>
    requires FieldType(t) && idx < 0x8000_0000
  {
    ArgPrefix(idx, isReflected, isArgumentsArray) + ArgLoad(accessors, idx, slot, t)
    + ArgTail(t, target, isReflected, isArgumentsArray)
  }

  /** The events for the first `k` arguments. */
  function ArgsInsns(accessors: map<string, string>, args: seq<JType>, targets: seq<JType>, k: nat,
                     isReflected: bool, isArgumentsArray: bool): seq<Insn>
    requires k <= |args| <= |targets| && |args| < 0x8000_0000
    requires forall i :: 0 <= i < |args| ==> FieldType(args[i])
    decreases k
  {
    if k == 0 then []
    else ArgsInsns(accessors, args, targets, k - 1, isReflected, isArgumentsArray)
         + ArgInsns(accessors, k - 1, ParamSlot(args, k - 1), args[k - 1], targets[k - 1], isReflected, isArgumentsArray)
  }

  /** The array of arguments a reflective call takes: its length and
      ANEWARRAY Object. */
  function ArrayPrefix(n: nat, isReflected: bool, isArgumentsArray: bool): seq<Insn>
    requires n < 0x8000_0000
  {
    if isReflected && isArgumentsArray then IntConstantInsns(n) + [TypeOp(ANEWARRAY, "java/lang/Object")] else []
  }

  method EmitArgPrefix(mv: MethodSink, idx: nat, isReflected: bool, isArgumentsArray: bool)
    requires idx < 0x8000_0000
    modifies mv
    ensures mv.events == old(mv.events) + InsEvents(ArgPrefix(idx, isReflected, isArgumentsArray))
  {
    if isReflected && isArgumentsArray {
      var _ := mv.Dup();
      RepeatOnce(Op(DUP));
      var _ := mv.LoadConstant(IntValue(idx));
      InsEventsAppend([Op(DUP)], IntConstantInsns(idx));
    }
  }

  method EmitArgLoad(mv: MethodSink, accessors: map<string, string>, idx: nat, slot: nat, t: JType)
    requires FieldType(t)
    modifies mv
    ensures mv.events == old(mv.events) + InsEvents(ArgLoad(accessors, idx, slot, t))
  {
    var _ := mv.LoadTyped(slot, t);
    if InternalName(t) in accessors {
      mv.VisitAll(LoadDelegateInsns(accessors[InternalName(t)], idx));
    }
    InsEventsAppend([VarOp(TypedOpcode(t, ILOAD).value, slot)],
                    if InternalName(t) in accessors then LoadDelegateInsns(accessors[InternalName(t)], idx) else []);
  }

  method EmitArgTail(mv: MethodSink, t: JType, target: JType, isReflected: bool, isArgumentsArray: bool)
    requires FieldType(t)
    modifies mv
    ensures mv.events == old(mv.events) + InsEvents(ArgTail(t, target, isReflected, isArgumentsArray))
  {
    if isReflected {
      ghost var boxed: seq<Insn> := [];
      if IsPrimitive(t) {
        var _ := mv.Box(t);
        boxed := BoxInsns(t).value;
      }
      if isArgumentsArray {
        mv.VisitInsn(Op(AASTORE));
        InsEventsAppend(boxed, [Op(AASTORE)]);
      }
    } else if !IsPrimitive(t) && InternalName(t) != InternalName(target) {
      mv.VisitInsn(TypeOp(CHECKCAST, InternalName(target)));
    }
  }

  /** Emitting one argument: its three parts, one after the other. */
  method LoadArg(mv: MethodSink, accessors: map<string, string>, idx: nat, slot: nat, t: JType, target: JType,
                 isReflected: bool, isArgumentsArray: bool)
    requires FieldType(t) && idx < 0x8000_0000
    modifies mv
    ensures mv.events == old(mv.events) + InsEvents(ArgPrefix(idx, isReflected, isArgumentsArray))
                         + InsEvents(ArgLoad(accessors, idx, slot, t)) + InsEvents(ArgTail(t, target, isReflected, isArgumentsArray))
  {
    EmitArgPrefix(mv, idx, isReflected, isArgumentsArray);
    EmitArgLoad(mv, accessors, idx, slot, t);
    EmitArgTail(mv, t, target, isReflected, isArgumentsArray);
  }

  /** `loadAccessorParams`: with an array for a reflective call, its
      creation, then each argument from its slot. */
  method LoadAccessorParams(mv: MethodSink, accessors: map<string, string>, args: seq<JType>, targets: seq<JType>,
                            isReflected: bool, isArgumentsArray: bool)
    requires |args| == |targets| && |args| < 0x8000_0000
    requires forall i :: 0 <= i < |args| ==> FieldType(args[i])
    modifies mv
    ensures mv.events == old(mv.events) + InsEvents(ArrayPrefix(|args|, isReflected, isArgumentsArray))
                         + InsEvents(ArgsInsns(accessors, args, targets, |args|, isReflected, isArgumentsArray))
  {
    EmitArrayPrefix(mv, |args|, isReflected, isArgumentsArray);
    ghost var e0 := mv.events;
    var paramIndex := 1;
    var idx := 0;
    assert args[..0] == [];
    while idx < |args|
      invariant 0 <= idx <= |args|
      invariant paramIndex == ParamSlot(args, idx)
      invariant mv.events == e0 + InsEvents(ArgsInsns(accessors, args, targets, idx, isReflected, isArgumentsArray))
    {
      var t := args[idx];
      LoadArg(mv, accessors, idx, paramIndex, t, targets[idx], isReflected, isArgumentsArray);
      ArgsInsnsStep(e0, accessors, args, targets, idx, isReflected, isArgumentsArray);
      ParamSlotsDisjoint(args, idx, idx + 1);
      paramIndex := paramIndex + Size(t);
      idx := idx + 1;
    }
  }

  /** The events of argument `k` follow those of the arguments before it. */
  lemma ArgsInsnsStep(e0: seq<Event>, accessors: map<string, string>, args: seq<JType>, targets: seq<JType>, k: nat,
                      isReflected: bool, isArgumentsArray: bool)
    requires k < |args| <= |targets| && |args| < 0x8000_0000
    requires forall i :: 0 <= i < |args| ==> FieldType(args[i])
    ensures e0 + InsEvents(ArgsInsns(accessors, args, targets, k, isReflected, isArgumentsArray))
            + InsEvents(ArgPrefix(k, isReflected, isArgumentsArray))
            + InsEvents(ArgLoad(accessors, k, ParamSlot(args, k), args[k]))
            + InsEvents(ArgTail(args[k], targets[k], isReflected, isArgumentsArray))
         == e0 + InsEvents(ArgsInsns(accessors, args, targets, k + 1, isReflected, isArgumentsArray))
  {
    var done := ArgsInsns(accessors, args, targets, k, isReflected, isArgumentsArray);
    var a, b, c := ArgPrefix(k, isReflected, isArgumentsArray), ArgLoad(accessors, k, ParamSlot(args, k), args[k]),
                   ArgTail(args[k], targets[k], isReflected, isArgumentsArray);
    assert ArgsInsns(accessors, args, targets, k + 1, isReflected, isArgumentsArray) == done + (a + b + c);
    InsEventsRegroup(e0, done, a, b, c);
  }

  lemma InsEventsRegroup(e0: seq<Event>, d: seq<Insn>, a: seq<Insn>, b: seq<Insn>, c: seq<Insn>)
    ensures e0 + InsEvents(d + (a + b + c)) == e0 + InsEvents(d) + InsEvents(a) + InsEvents(b) + InsEvents(c)
  {
    InsEventsAppend(d, a + b + c);
    InsEventsAppend(a + b, c);
    InsEventsAppend(a, b);
    Regroup(e0, InsEvents(d), InsEvents(a), InsEvents(b), InsEvents(c));
  }

  lemma Regroup<T>(e: seq<T>, d: seq<T>, a: seq<T>, b: seq<T>, c: seq<T>)
    ensures e + (d + (a + b + c)) == e + d + a + b + c
  {
    ConcatAssoc(d, a, b, c);
    ConcatAssoc(e, d + a, b, c);
    ConcatAssoc(e, d, a, []);
    assert a + [] == a;
  }

  method EmitArrayPrefix(mv: MethodSink, n: nat, isReflected: bool, isArgumentsArray: bool)
    requires n < 0x8000_0000
    modifies mv
    ensures mv.events == old(mv.events) + InsEvents(ArrayPrefix(n, isReflected, isArgumentsArray))
  {
    if isReflected && isArgumentsArray {
      var _ := mv.LoadConstant(IntValue(n));
      mv.VisitInsn(TypeOp(ANEWARRAY, "java/lang/Object"));
      InsEventsAppend(IntConstantInsns(n), [TypeOp(ANEWARRAY, "java/lang/Object")]);
    }
  }

  /** In a reflective call's array, argument `i` is stored at index `i`:
      its events open with DUP and the push of `i`, and close with
      AASTORE; the argument is loaded from its slot. */
  lemma ReflectedArgumentStoredAtIndex(accessors: map<string, string>, idx: nat, slot: nat, t: JType, target: JType)
    requires FieldType(t) && idx < 0x8000_0000
    ensures var a := ArgInsns(accessors, idx, slot, t, target, true, true);
      |a| >= 4 && a[0] == Op(DUP) && [a[1]] == IntConstantInsns(idx)
      && a[2] == VarOp(TypedOpcode(t, ILOAD).value, slot) && a[|a| - 1] == Op(AASTORE)
  {
  }

  // ---------------------------------------------------------------------
  // Checks before generation

  /** Whether an accessor implements a declared interface method: no default
      methods, and for a static accessor neither `isInstance` nor `cast`,
      which it implements itself. */
  function Implemented(isStaticAccessor: bool): ReceiverMethod -> bool {
    (m: ReceiverMethod) => !m.isDefault && (!isStaticAccessor || (m.name != "isInstance" && m.name != "cast"))
  }

  /** The interface methods an accessor implements, in declaration order. */
  function ImplementedMethods(declared: seq<ReceiverMethod>, isStaticAccessor: bool): (r: seq<ReceiverMethod>)
    ensures forall m :: m in r <==> m in declared && !m.isDefault
                                    && (!isStaticAccessor || (m.name != "isInstance" && m.name != "cast"))
    ensures KeptInOrder(declared, Implemented(isStaticAccessor), r)
  {
    var p := Implemented(isStaticAccessor);
    forall m ensures m in Filter(declared, p) <==> m in declared && p(m) {
      FilterMembership(declared, p, m);
    }
    FilterKeepsOrder(declared, p);
    Filter(declared, p)
  }

  /** Choosing an implementation for every method, failing at the first
      without one. */
  function SelectAll(methods: map<string, Option<MethodData>>, fields: map<string, Option<FieldData>>,
                     receivers: seq<ReceiverMethod>, allowNotImplemented: bool): (r: Result<seq<Implementation>>)
    ensures r.Success? <==> forall i :: 0 <= i < |receivers| ==> SelectImplementation(methods, fields, receivers[i], allowNotImplemented).Some?
    ensures r.Success? ==> (|r.value| == |receivers|
      && forall i :: 0 <= i < |receivers| ==> Some(r.value[i]) == SelectImplementation(methods, fields, receivers[i], allowNotImplemented))
    decreases |receivers|
  {
    if |receivers| == 0 then Success([])
    else
      match SelectImplementation(methods, fields, receivers[0], allowNotImplemented)
      case None => Failure("No implementation was found for " + receivers[0].name + " (not implemented was not allowed)")
      case Some(impl) =>
        match SelectAll(methods, fields, receivers[1..], allowNotImplemented)
        case Failure(e) => Failure(e)
        case Success(rest) => Success([impl] + rest)
  }

  /** Whether an implementation goes through reflection: a non-public
      field, or a non-public method (every method with `fullReflect`). */
  predicate NeedsReflection(impl: Implementation, fullReflect: bool) {
    (impl.FieldImpl? && !IsPublic(impl.fieldTarget.field.access))
    || (impl.MethodImpl? && (!IsPublic(impl.methodTarget.node.access) || fullReflect))
  }

  function Reflected(impl: Implementation): ReflectedElement
    requires impl.FieldImpl? || impl.MethodImpl?
  {
    if impl.FieldImpl? then ReflectedField(impl.fieldTarget) else ReflectedMethod(impl.methodTarget)
  }

  /** The checks `implementMethod` makes: the argument counts agree and the
      target is no constructor of an abstract class. A target descriptor
      that does not parse is refused as well. */
  function MethodCheck(impl: Implementation): (r: Result<()>)
    requires impl.MethodImpl?
    ensures var targetArgs := ArgumentTypes(impl.methodTarget.node.desc);
      r.Success? <==> targetArgs.Some? && |impl.receiver.args| == |targetArgs.value|
                      && !(IsAbstract(impl.methodTarget.owner.access) && IsConstructorName(impl.methodTarget.node.name))
  {
    match ArgumentTypes(impl.methodTarget.node.desc)
    case None => Failure("malformed method descriptor")
    case Some(targetArgs) =>
      if |impl.receiver.args| != |targetArgs| then Failure("Argument count mismatch for " + impl.receiver.name)
      else if IsAbstract(impl.methodTarget.owner.access) && IsConstructorName(impl.methodTarget.node.name) then
        Failure("Constructor accessors cannot be in an abstract class.")
      else Success(())
  }

  /** The reflected elements the first `k` implementations register. */
  function ReflectedUpTo(impls: seq<Implementation>, k: nat, fullReflect: bool): set<ReflectedElement>
    requires k <= |impls|
  {
    set i | 0 <= i < k && NeedsReflection(impls[i], fullReflect) :: Reflected(impls[i])
  }

  /** One more implementation adds its element when it needs reflection. */
  lemma ReflectedUpToStep(impls: seq<Implementation>, k: nat, fullReflect: bool)
    requires k < |impls|
    ensures ReflectedUpTo(impls, k + 1, fullReflect)
         == ReflectedUpTo(impls, k, fullReflect)
            + (if NeedsReflection(impls[k], fullReflect) then {Reflected(impls[k])} else {})
  {
    var next := if NeedsReflection(impls[k], fullReflect) then {Reflected(impls[k])} else {};
    forall x | x in ReflectedUpTo(impls, k + 1, fullReflect)
      ensures x in ReflectedUpTo(impls, k, fullReflect) + next
    {
      var i :| 0 <= i < k + 1 && NeedsReflection(impls[i], fullReflect) && x == Reflected(impls[i]);
      if i < k {
        assert x in ReflectedUpTo(impls, k, fullReflect);
      }
    }
  }

  /** The check `implementField` makes implicitly: a setter reads its new
      value's type with `Type.getArgumentTypes(desc).first()`, which throws
      for a receiver without arguments. A receiver such as `setFoo()` bound
      to a field "setFoo" is a setter by its name and reaches that call. */
  function FieldCheck(impl: Implementation): (r: Result<()>)
    requires impl.FieldImpl?
    ensures r.Failure? <==> impl.kind == SETTER && |impl.receiver.args| == 0
  {
    if impl.kind == SETTER && |impl.receiver.args| == 0 then Failure("List is empty.")
    else Success(())
  }

  /** A field implementation passes `FieldCheck`, a method implementation
      `MethodCheck`; others have no check. */
  predicate Passes(impl: Implementation) {
    (impl.FieldImpl? ==> FieldCheck(impl).Success?) && (impl.MethodImpl? ==> MethodCheck(impl).Success?)
  }

  /** Every one of the first `k` implementations passes its check. */
  predicate ChecksPass(impls: seq<Implementation>, k: nat)
    requires k <= |impls|
  {
    forall j :: 0 <= j < k ==> Passes(impls[j])
  }

  /** The checks of one more implementation; the checks of a prefix are
      implied by those of the whole. */
  lemma ChecksPassStep(impls: seq<Implementation>, k: nat)
    requires k < |impls|
    ensures ChecksPass(impls, k + 1) <==> ChecksPass(impls, k) && Passes(impls[k])
    ensures ChecksPass(impls, |impls|) ==> ChecksPass(impls, k + 1)
  {
  }

  /** The reflected fields declared by the first `k` implementations, in
      order: an element is declared when it is first registered, for fields
      and for methods alike (see `RedDeclarationsAsWritten` for the method
      branch as written). */
  function RedDeclarations(impls: seq<Implementation>, k: nat, fullReflect: bool): seq<ReflectedElement>
    requires k <= |impls|
  {
    if k == 0 then []
    else
      var prev := RedDeclarations(impls, k - 1, fullReflect);
      var impl := impls[k - 1];
      if NeedsReflection(impl, fullReflect) && Reflected(impl) !in prev then prev + [Reflected(impl)] else prev
  }

  /** The declarations as written: a field is declared only when it is newly
      added to the set, a method every time it is reflected. */
  function RedDeclarationsAsWritten(impls: seq<Implementation>, k: nat, fullReflect: bool): seq<ReflectedElement>
    requires k <= |impls|
  {
    if k == 0 then []
    else
      var prev := RedDeclarationsAsWritten(impls, k - 1, fullReflect);
      var impl := impls[k - 1];
      if NeedsReflection(impl, fullReflect) && (impl.MethodImpl? || Reflected(impl) !in prev)
      then prev + [Reflected(impl)] else prev
  }

  /** No two declarations coincide. */
  predicate Distinct<T(==)>(xs: seq<T>) {
    forall i, j :: 0 <= i < j < |xs| ==> xs[i] != xs[j]
  }

  /** The corrected declarations name every registered element exactly
      once. */
  lemma {:induction false} RedDeclarationsDistinct(impls: seq<Implementation>, k: nat, fullReflect: bool)
    requires k <= |impls|
    ensures Distinct(RedDeclarations(impls, k, fullReflect))
    ensures forall x :: x in RedDeclarations(impls, k, fullReflect) <==> x in ReflectedUpTo(impls, k, fullReflect)
  {
    if k > 0 {
      RedDeclarationsDistinct(impls, k - 1, fullReflect);
      ReflectedUpToStep(impls, k - 1, fullReflect);
    }
  }

  /** Two receivers bound to the same method that needs reflection: as
      written its field is declared twice, corrected once. */
  lemma SharedTargetDeclarations(r1: ReceiverMethod, r2: ReceiverMethod, m: MethodData, fullReflect: bool)
    requires NeedsReflection(MethodImpl(r1, m), fullReflect)
    ensures var impls := [MethodImpl(r1, m), MethodImpl(r2, m)];
      RedDeclarationsAsWritten(impls, 2, fullReflect) == [ReflectedMethod(m), ReflectedMethod(m)]
      && RedDeclarations(impls, 2, fullReflect) == [ReflectedMethod(m)]
  {
    var impls := [MethodImpl(r1, m), MethodImpl(r2, m)];
    assert RedDeclarationsAsWritten(impls, 1, fullReflect) == [ReflectedMethod(m)];
    assert RedDeclarations(impls, 1, fullReflect) == [ReflectedMethod(m)];
  }

  /** As written, two receivers bound to the same non-public method, such
      as two overloads of one name with equal argument counts, declare its
      reflected field twice, which a class file cannot hold. */
  lemma DuplicateRedAsWritten()
    ensures var owner := ClassRecord("a/B", None, [], 0, [], []);
      var m := MethodData(owner, MethodRecord("foo", "(I)V", ACC_PRIVATE, []));
      var impls := [MethodImpl(ReceiverMethod("foo", [Prim(Int)], Prim(Void), false), m),
                    MethodImpl(ReceiverMethod("foo", [Prim(Long)], Prim(Void), false), m)];
      RedDeclarationsAsWritten(impls, 2, false) == [ReflectedMethod(m), ReflectedMethod(m)]
      && RedDeclarations(impls, 2, false) == [ReflectedMethod(m)]
      && ChecksPass(impls, 2)
  {
    var owner := ClassRecord("a/B", None, [], 0, [], []);
    var m := MethodData(owner, MethodRecord("foo", "(I)V", ACC_PRIVATE, []));
    var r1 := ReceiverMethod("foo", [Prim(Int)], Prim(Void), false);
    var r2 := ReceiverMethod("foo", [Prim(Long)], Prim(Void), false);
    assert !IsPublic(ACC_PRIVATE);
    SharedTargetDeclarations(r1, r2, m, false);
    IntToVoidArguments();
    assert !IsAbstract(0);
    assert MethodCheck(MethodImpl(r1, m)).Success? && MethodCheck(MethodImpl(r2, m)).Success?;
    ChecksPassPair(MethodImpl(r1, m), MethodImpl(r2, m));
  }

  /** Two method implementations that each pass `MethodCheck` pass
      together. */
  lemma ChecksPassPair(a: Implementation, b: Implementation)
    requires a.MethodImpl? && b.MethodImpl?
    requires MethodCheck(a).Success? && MethodCheck(b).Success?
    ensures ChecksPass([a, b], 2)
  {
  }

  /** `getArgumentTypes("(I)V")` is a single int. */
  lemma IntToVoidArguments()
    ensures ArgumentTypes("(I)V") == Some([Prim(Int)])
  {
    assert Descriptor(Meth([Prim(Int)], Prim(Void))) == "(I)V";
    MethodDescriptorRoundTrip(Meth([Prim(Int)], Prim(Void)));
  }

  /** The reflected elements and declarations after `impl` registers its
      element: added to both when it needs reflection and is new. */
  function Registered(impl: Implementation, fullReflect: bool,
                      reflected: set<ReflectedElement>, declared: seq<ReflectedElement>)
    : (set<ReflectedElement>, seq<ReflectedElement>)
  {
    if NeedsReflection(impl, fullReflect) && Reflected(impl) !in reflected
    then (reflected + {Reflected(impl)}, declared + [Reflected(impl)])
    else (reflected, declared)
  }

  /** Registering the next implementation's element takes the elements and
      declarations of a prefix to those of the prefix one longer. */
  lemma RegisteredStep(impls: seq<Implementation>, k: nat, fullReflect: bool)
    requires k < |impls|
    ensures Registered(impls[k], fullReflect, ReflectedUpTo(impls, k, fullReflect), RedDeclarations(impls, k, fullReflect))
         == (ReflectedUpTo(impls, k + 1, fullReflect), RedDeclarations(impls, k + 1, fullReflect))
  {
    ReflectedUpToStep(impls, k, fullReflect);
    RedDeclarationsDistinct(impls, k, fullReflect);
    var prev, impl := RedDeclarations(impls, k, fullReflect), impls[k];
    assert RedDeclarations(impls, k + 1, fullReflect)
        == if NeedsReflection(impl, fullReflect) && Reflected(impl) !in prev then prev + [Reflected(impl)] else prev;
    if NeedsReflection(impl, fullReflect) {
      var set0 := ReflectedUpTo(impls, k, fullReflect);
      assert Reflected(impl) in prev <==> Reflected(impl) in set0;
      if Reflected(impl) in set0 {
        assert set0 + {Reflected(impl)} == set0;
      }
    } else {
      assert ReflectedUpTo(impls, k, fullReflect) + {} == ReflectedUpTo(impls, k, fullReflect);
    }
  }

  /** One implementation of the walk: a field target registers its element
      before its check, a method target after its check; either is
      registered only when it needs reflection and is new. */
  method ReflectOne(impl: Implementation, fullReflect: bool,
                    reflected: set<ReflectedElement>, declared: seq<ReflectedElement>)
    returns (r: Result<(set<ReflectedElement>, seq<ReflectedElement>)>)
    ensures r.Success? <==> Passes(impl)
    ensures r.Success? ==> r.value == Registered(impl, fullReflect, reflected, declared)
  {
    var reflected, declared := reflected, declared;
    if impl.FieldImpl? {
      var red := ReflectedField(impl.fieldTarget);
      if !IsPublic(impl.fieldTarget.field.access) && red !in reflected {
        reflected := reflected + {red};
        declared := declared + [red];
      }
      var check := FieldCheck(impl);
      if check.Failure? {
        return Failure(check.error);
      }
    } else if impl.MethodImpl? {
      var check := MethodCheck(impl);
      if check.Failure? {
        return Failure(check.error);
      }
      var red := ReflectedMethod(impl.methodTarget);
      if (!IsPublic(impl.methodTarget.node.access) || fullReflect) && red !in reflected {
        reflected := reflected + {red};
        declared := declared + [red];
      }
    }
    return Success((reflected, declared));
  }

  /** Walking the implementations: the reflected elements and their field
      declarations in order, or the first refused target. */
  method CollectReflected(impls: seq<Implementation>, fullReflect: bool)
    returns (r: Result<(set<ReflectedElement>, seq<ReflectedElement>)>)
    ensures r.Success? <==> ChecksPass(impls, |impls|)
    ensures r.Success? ==> r.value.0 == ReflectedUpTo(impls, |impls|, fullReflect)
    ensures r.Success? ==> r.value.1 == RedDeclarations(impls, |impls|, fullReflect)
  {
    var reflected: set<ReflectedElement> := {};
    var declared: seq<ReflectedElement> := [];
    var i := 0;
    while i < |impls|
      invariant 0 <= i <= |impls|
      invariant reflected == ReflectedUpTo(impls, i, fullReflect)
      invariant declared == RedDeclarations(impls, i, fullReflect)
      invariant ChecksPass(impls, i)
    {
      RegisteredStep(impls, i, fullReflect);
      ChecksPassStep(impls, i);
      var step := ReflectOne(impls[i], fullReflect, reflected, declared);
      if step.Failure? {
        return Failure(step.error);
      }
      reflected, declared := step.value.0, step.value.1;
      i := i + 1;
    }
    return Success((reflected, declared));
  }

  /** `internalGenerateAccessor` up to the generation of code: the type must
      be an interface, every implemented method needs an implementation,
      and the implementations are walked in order, each registering its
      reflected element and failing on a refused method target. On success
      the result is the implementations and the set of reflected elements. */
  method PlanAccessor(isInterface: bool, isStaticAccessor: bool, declared: seq<ReceiverMethod>,
                      methods: map<string, Option<MethodData>>, fields: map<string, Option<FieldData>>,
                      allowNotImplemented: bool, fullReflect: bool)
    returns (r: Result<(seq<Implementation>, set<ReflectedElement>, seq<ReflectedElement>)>)
    ensures var s := SelectAll(methods, fields, ImplementedMethods(declared, isStaticAccessor), allowNotImplemented);
      (r.Success? <==> isInterface && s.Success? && ChecksPass(s.value, |s.value|))
      && (r.Success? ==> r.value.0 == s.value && r.value.1 == ReflectedUpTo(s.value, |s.value|, fullReflect)
                         && r.value.2 == RedDeclarations(s.value, |s.value|, fullReflect))
  {
    if !isInterface {
      return Failure("is not an interface to implement!");
    }
    var selected := SelectAll(methods, fields, ImplementedMethods(declared, isStaticAccessor), allowNotImplemented);
    if selected.Failure? {
      return Failure(selected.error);
    }
    var reflected := CollectReflected(selected.value, fullReflect);
    if reflected.Failure? {
      return Failure(reflected.error);
    }
    return Success((selected.value, reflected.value.0, reflected.value.1));
  }
}
