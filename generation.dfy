/** Class generation (Generation.kt): the calls `generateClassBytes`,
    `generateClass` and `generateMethod` make on a class writer, recorded
    as a trace of class-visitor events. A generator lambda is modelled by
    the events it emits. Turning the trace into bytes is not modelled. */
module Generation {
  import opened Wrappers
  import opened KotlinStrings
  import opened Jvm
  import opened Extensions
  import opened Emitters

  /** `Opcodes.V1_8`. */
  const V1_8 := 52

  /** The default access of a generated class, `ACC_PUBLIC or ACC_FINAL`. */
  const DefaultClassAccess: bv32 := ACC_PUBLIC | ACC_FINAL

  /** The default of `defaultConstructor` in `generateClassBytes`: no
      constructor for an interface. */
  predicate DefaultConstructorFor(access: bv32) {
    !HasFlag(access, ACC_INTERFACE)
  }

  /** What the visitor of a generated method receives: with a generator,
      code, the generator's events and the maxima; always the end. */
  function MethodBody(generator: Option<seq<Event>>, maxStack: int, maxLocals: int): seq<Event> {
    match generator
    case None => [End]
    case Some(g) => [Code] + g + [Maxs(maxStack, maxLocals), End]
  }

  /** A generated method's body holds code exactly when there is a generator
      whose own events hold none, it ends with `visitEnd`, and the
      generator's events sit between `visitCode` and `visitMaxs`. */
  lemma MethodBodyShape(generator: Option<seq<Event>>, maxStack: int, maxLocals: int)
    ensures var b := MethodBody(generator, maxStack, maxLocals);
      |b| >= 1 && b[|b| - 1] == End
      && (generator.None? ==> Code !in b)
      && (generator.Some? ==>
            |b| == |generator.value| + 3 && b[0] == Code
            && b[1..|b| - 2] == generator.value && b[|b| - 2] == Maxs(maxStack, maxLocals))
  {
    if generator.Some? {
      var b := MethodBody(generator, maxStack, maxLocals);
      assert b[1..|b| - 2] == generator.value;
    }
  }

  /** Under `generateClassBytes`'s default, a class gets the default
      constructor right after its header exactly when its access flags do
      not make it an interface; an interface's trace is the header, the
      generator's events and the end. */
  lemma DefaultConstructorRule(name: string, superName: string, interfaces: seq<string>, access: bv32,
                               version: int, generator: seq<ClassEvent>)
    ensures var t := ClassTrace(name, superName, interfaces, access, DefaultConstructorFor(access), version, generator);
      (access & ACC_INTERFACE == 0 <==> |t| == |generator| + 3 && t[1] == DefaultConstructor(superName))
      && (access & ACC_INTERFACE != 0 ==>
            t == [Header(version, access, name, None, Some(superName), interfaces)] + generator + [ClassEnd])
  {
    var t := ClassTrace(name, superName, interfaces, access, DefaultConstructorFor(access), version, generator);
    if access & ACC_INTERFACE != 0 {
      assert |t| == |generator| + 2;
    }
  }

  /** The body of the default constructor: `super()` on the superclass and
      return. */
  function DefaultConstructorBody(superName: string): seq<Event> {
    MethodBody(Some([Ins(VarOp(ALOAD, 0)), Ins(Call(INVOKESPECIAL, superName, "<init>", "()V", false)), Ins(Op(RETURN))]), 0, 0)
  }

  function DefaultConstructor(superName: string): ClassEvent {
    MethodDecl(ACC_PUBLIC, "<init>", "()V", DefaultConstructorBody(superName))
  }

  /** The whole trace of `generateClassBytes`. */
  function ClassTrace(name: string, superName: string, interfaces: seq<string>, access: bv32,
                      defaultConstructor: bool, version: int, generator: seq<ClassEvent>): seq<ClassEvent>
  {
    [Header(version, access, name, None, Some(superName), interfaces)]
    + (if defaultConstructor then [DefaultConstructor(superName)] else [])
    + generator + [ClassEnd]
  }

  /** The trace opens with the header (no signature, the superclass and the
      interfaces in order), closes with the end, holds the default
      constructor right after the header exactly when asked, and the
      generator's events in between, unchanged. */
  lemma ClassTraceShape(name: string, superName: string, interfaces: seq<string>, access: bv32,
                        defaultConstructor: bool, version: int, generator: seq<ClassEvent>)
    ensures var t := ClassTrace(name, superName, interfaces, access, defaultConstructor, version, generator);
      var k := if defaultConstructor then 2 else 1;
      |t| == k + |generator| + 1
      && t[0] == Header(version, access, name, None, Some(superName), interfaces)
      && t[|t| - 1] == ClassEnd
      && (defaultConstructor ==> t[1] == DefaultConstructor(superName))
      && t[k..|t| - 1] == generator
  {
    var t := ClassTrace(name, superName, interfaces, access, defaultConstructor, version, generator);
    var k := if defaultConstructor then 2 else 1;
    assert t[k..|t| - 1] == generator;
  }

  /** The default constructor is public `<init>()V` and its code is exactly
      ALOAD 0, INVOKESPECIAL superclass.<init>()V, RETURN. */
  lemma DefaultConstructorCode(superName: string)
    ensures var c := DefaultConstructor(superName);
      c.maccess == ACC_PUBLIC && IsConstructorName(c.mname) && c.mdesc == "()V"
      && c.body[1..|c.body| - 2]
         == InsEvents([VarOp(ALOAD, 0), Call(INVOKESPECIAL, superName, "<init>", "()V", false), Op(RETURN)])
  {
    MethodBodyShape(Some([Ins(VarOp(ALOAD, 0)), Ins(Call(INVOKESPECIAL, superName, "<init>", "()V", false)), Ins(Op(RETURN))]), 0, 0);
  }

  /** A class writer, recording what it is told. */
  class ClassWriterSink {
    var trace: seq<ClassEvent>

    constructor()
      ensures trace == []
    {
      trace := [];
    }

    method Visit(e: ClassEvent)
      modifies this
      ensures trace == old(trace) + [e]
    {
      trace := trace + [e];
    }

    /** `generateMethod(name, descriptor, access, maxStack, maxLocals,
        generator)`, with the source's defaults (a public method, zero
        maxima, no generator): the method's visitor receives `MethodBody`. */
    method GenerateMethod(name: string, descriptor: string, access: bv32 := ACC_PUBLIC, maxStack: int := 0,
                          maxLocals: int := 0, generator: Option<seq<Event>> := None)
      modifies this
      ensures trace == old(trace) + [MethodDecl(access, name, descriptor, MethodBody(generator, maxStack, maxLocals))]
    {
      var mv := new MethodSink();
      if generator.Some? {
        mv.Visit(Code);
        mv.VisitEvents(generator.value);
        mv.Visit(Maxs(maxStack, maxLocals));
      }
      mv.Visit(End);
      assert mv.events == MethodBody(generator, maxStack, maxLocals);
      Visit(MethodDecl(access, name, descriptor, mv.events));
    }
  }

  /** `generateClassBytes`: the trace the writer receives. The defaults are
      the source's: a public final subclass of `java/lang/Object` for class
      file version 52, with a default constructor unless `access` makes it
      an interface. */
  method GenerateClassBytes(name: string, generator: seq<ClassEvent>, superName: string := "java/lang/Object",
                            interfaces: seq<string> := [], access: bv32 := DefaultClassAccess,
                            defaultConstructor: bool := DefaultConstructorFor(access), version: int := V1_8)
    returns (trace: seq<ClassEvent>)
    ensures trace == ClassTrace(name, superName, interfaces, access, defaultConstructor, version, generator)
  {
    var writer := new ClassWriterSink();
    writer.Visit(Header(version, access, name, None, Some(superName), interfaces));
    if defaultConstructor {
      var ctor := new MethodSink();
      var _ := ctor.Load(0);
      ctor.VisitInsn(Call(INVOKESPECIAL, superName, "<init>", "()V", false));
      var _ := ctor.ReturnMethod();
      assert ctor.events == [Ins(VarOp(ALOAD, 0)), Ins(Call(INVOKESPECIAL, superName, "<init>", "()V", false)), Ins(Op(RETURN))];
      writer.GenerateMethod("<init>", "()V", generator := Some(ctor.events));
    }
    var i := 0;
    while i < |generator|
      invariant 0 <= i <= |generator|
      invariant writer.trace == [Header(version, access, name, None, Some(superName), interfaces)]
                                + (if defaultConstructor then [DefaultConstructor(superName)] else [])
                                + generator[..i]
    {
      writer.Visit(generator[i]);
      assert generator[..i + 1] == generator[..i] + [generator[i]];
      i := i + 1;
    }
    assert generator[..i] == generator;
    writer.Visit(ClassEnd);
    trace := writer.trace;
  }

  /** `generateClass`: the trace, and the name the loader is given, the
      internal name with '/' replaced by '.'. The defaults are the source's:
      a public final subclass of `java/lang/Object` with a default
      constructor, for class file version 52 (Java 8). */
  method GenerateClass(name: string, generator: seq<ClassEvent>, superName: string := "java/lang/Object",
                       interfaces: seq<string> := [], access: bv32 := DefaultClassAccess,
                       defaultConstructor: bool := true, version: int := V1_8)
    returns (trace: seq<ClassEvent>, loaderName: string)
    ensures trace == ClassTrace(name, superName, interfaces, access, defaultConstructor, version, generator)
    ensures loaderName == BinaryNameOf(name)
    ensures '/' !in loaderName && |loaderName| == |name|
  {
    trace := GenerateClassBytes(name, generator, superName, interfaces, access, defaultConstructor, version);
    loaderName := ReplaceChar(name, '/', '.');
    assert forall i :: 0 <= i < |loaderName| ==> loaderName[i] != '/';
  }
}
