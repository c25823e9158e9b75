# nasty-jvm-util, modelled in Dafny

This project models the core of nasty-jvm-util, a Kotlin layer over the ASM
bytecode library that locates classes, methods and fields among loaded JVM
classes by structural fingerprints and rewrites them by chaining method
visitors. A class file is an abstract record (`Jvm.ClassRecord`: name,
superclass, interfaces, access, methods and fields), a method body is the
sequence of visitor events it is visited with (`visitCode`, instructions,
`visitMaxs`, `visitEnd`, `visitParameter`), and every `MethodVisitor` is a
sink that records the events it receives. Opcodes follow chapter 7 of the
Java Virtual Machine Specification (Java SE 8), access flags sections 4.1,
4.5 and 4.6, with flags as 32-bit bit-vectors.

The modules follow the repository's files:

- `Wrappers`: `Option` and `Result`, the model of nullable results and of
  `error(...)`.
- `KotlinStrings`: the few Kotlin standard-library string operations the
  core uses (`replace`, `split`, `joinToString`, `substringAfter`,
  `Int.toString`, `replaceFirstChar`), with their properties.
- `Jvm`: opcodes, access flags, constant values, instructions, visitor
  events, class and method records.
- `JvmTypes`: ASM's `Type` as a datatype, with a descriptor parser
  (section 4.3 of the Java Virtual Machine Specification) proved to invert
  the descriptor printer, sizes and typed opcodes.
- `Extensions` (Extensions.kt): constants, strings, calls and references of
  methods and classes, the lookups by name, `isSystemClass`, the flag
  predicates, `stubLoadInsn`, the neighbour search over instructions and
  the compaction of long/double halves in stack-map frames (section 4.7.4 of the Java Virtual Machine Specification).
- `Descriptions` (Descriptions.kt): method and field descriptions,
  similarity, conversions and the choice of invocation type.
- `Emitters` (VisitorExtensions.kt): the instruction emitters as methods of
  a `MethodSink` class proved against functions giving the exact
  instruction sequence, plus the JVM meaning of the constant pushes, which
  shows that `loadConstant` pushes its value (section 6.5 of the Java Virtual Machine Specification).
- `Transforming` (Transforming.kt): every method transform as a stream
  transducer (`Step`/`Apply`) with its once-flag, a `TransformVisitor`
  class that forwards events to a parent sink, the order `fold` stacks
  visitors in, `asClassTransform`, and the `MethodTransformContext` and
  `ClassTransformContext` DSLs as classes.
- `Generation` (Generation.kt): `generateClassBytes`, `generateMethod` and
  `generateClass` as the event trace a class writer receives.
- `Hierarchy` (LoaderClassWriter.kt): `getCommonSuperClass` over an abstract
  hierarchy map from a class name to its superclass and interface flag, or
  to nothing when the class cannot be loaded.
- `Accessors` (Accessors.kt): implementation selection, reflected-element
  names, the accessor counter, argument slots and the argument loading of
  `loadAccessorParams`, and the checks of `internalGenerateAccessor`.
- `Matching` (ClassFinding.kt): the matcher DSL: every context is a class
  holding a list of matchers, and a context matches when all of them do.
- `Finder` (ClassFinding.kt): `findAll` and the slot containers, the
  `ClassFinder` state machine with its `offer`, the element finders, the
  decision of `FinderContext.transform` and the `toString` recipe split of
  `useStringInfo`.

The state-changing parts of the library are classes whose methods are
proved against functions of the old state: `ClassFinder.Offer` against
`Finder.OfferSpec`, `TransformVisitor.Accept` against `Transforming.Step`,
`MethodSink` emitters against the instruction functions, and so on. The
properties the library promises are lemmas about those functions.

## Model

All source paths are under `src/main/kotlin/com/grappenmaker/jvmutil/`;
the table spells them out.

| member | source | states |
|---|---|---|
| KotlinStrings.ReplaceAllSelf | src/main/kotlin/com/grappenmaker/jvmutil/Transforming.kt:350-366 | `s.replace(w, w)` returns `s` for a non-empty `w`, the fact behind `replaceString(w, w)` being the identity |
| KotlinStrings.ReplaceAllAbsent | src/main/kotlin/com/grappenmaker/jvmutil/Transforming.kt:350-366 | a string in which the searched text does not occur is returned unchanged by `replace` |
| KotlinStrings.ReplaceCharByString | src/main/kotlin/com/grappenmaker/jvmutil/Accessors.kt:745-749 | replacing a character by a string: a character is in the result iff it is a kept character of the input, or comes from the replacement and the replaced character occurred |
| KotlinStrings.SplitJoin | src/main/kotlin/com/grappenmaker/jvmutil/ClassFinding.kt:1384-1386 | `split` undoes `joinToString` for a self-separating delimiter when no piece contains it |
| KotlinStrings.DecimalInjective | src/main/kotlin/com/grappenmaker/jvmutil/Accessors.kt:52-53 | distinct counter values print as distinct decimal strings |
| KotlinStrings.LowerFirst | src/main/kotlin/com/grappenmaker/jvmutil/Accessors.kt:111 | `replaceFirstChar { it.lowercase() }` on ASCII: keeps the length and every character after the first; a capital A-Z becomes the same letter in lower case, any other first character is kept |
| KotlinStrings.LowerAscii | src/main/kotlin/com/grappenmaker/jvmutil/Accessors.kt:111 | `Char.lowercase()` on ASCII: A-Z map to a-z at the same offset, every other character is unchanged |
| KotlinStrings.IndexOf | src/main/kotlin/com/grappenmaker/jvmutil/ClassFinding.kt:1384 | the index found holds the character and no earlier index does |
| KotlinStrings.LastIndexOf | src/main/kotlin/com/grappenmaker/jvmutil/ClassFinding.kt:1384 | the index found holds the character and no later index does |
| KotlinStrings.Split | src/main/kotlin/com/grappenmaker/jvmutil/ClassFinding.kt:1385 | `split` never returns an empty list |
| Jvm.InsEvents | src/main/kotlin/com/grappenmaker/jvmutil/VisitorExtensions.kt:315-377 | each instruction becomes exactly one event visiting it, index by index |
| Jvm.InsEventsAppend | src/main/kotlin/com/grappenmaker/jvmutil/VisitorExtensions.kt:151-156 | the events of concatenated instruction runs are the concatenated events |
| JvmTypes.ParseFieldType | src/main/kotlin/com/grappenmaker/jvmutil/Extensions.kt:335-345 | a parsed field type is a proper field type and the input is exactly its descriptor followed by the rest |
| JvmTypes.ParseArgs | src/main/kotlin/com/grappenmaker/jvmutil/Extensions.kt:335 | the arguments read are field types and the input is exactly their descriptors, then `)`, then the rest |
| JvmTypes.ParseFieldTypeOfDescriptor | src/main/kotlin/com/grappenmaker/jvmutil/Extensions.kt:345 | reading a field type's descriptor in front of any text gives the type and exactly that text |
| JvmTypes.ParseArgsOfDescriptor | src/main/kotlin/com/grappenmaker/jvmutil/Extensions.kt:335 | reading the descriptors of an argument list and `)` gives the list and the text after it |
| JvmTypes.DescriptorNonEmpty | src/main/kotlin/com/grappenmaker/jvmutil/Extensions.kt:345 | no type has an empty descriptor |
| JvmTypes.DescriptorNotParen | src/main/kotlin/com/grappenmaker/jvmutil/Extensions.kt:335 | no field type's descriptor starts with `)`, so argument lists end where they should |
| JvmTypes.MethodDescriptorRoundTrip | src/main/kotlin/com/grappenmaker/jvmutil/Extensions.kt:335-340 | `getArgumentTypes` and `getReturnType` of a method type's descriptor give back its arguments and return type |
| JvmTypes.FieldDescriptorRoundTrip | src/main/kotlin/com/grappenmaker/jvmutil/Extensions.kt:345 | `Type.getType` of a field type's descriptor gives the type back |
| JvmTypes.ParseMethodDescriptor | src/main/kotlin/com/grappenmaker/jvmutil/Extensions.kt:335-340 | a descriptor that parses as a method type is exactly that type's descriptor |
| JvmTypes.ParseFieldDescriptor | src/main/kotlin/com/grappenmaker/jvmutil/Extensions.kt:345 | a descriptor that parses as a field type is exactly that type's descriptor |
| JvmTypes.ArgumentTypes | src/main/kotlin/com/grappenmaker/jvmutil/Extensions.kt:335 | `Type.getArgumentTypes`: the arguments found are those of a method type whose descriptor is exactly the input |
| JvmTypes.ReturnType | src/main/kotlin/com/grappenmaker/jvmutil/Extensions.kt:340 | `Type.getReturnType`: defined exactly when the arguments are, and then with them forms a method type whose descriptor is exactly the input |
| JvmTypes.Size | src/main/kotlin/com/grappenmaker/jvmutil/Accessors.kt:567 | `Type.getSize`: two slots exactly for long and double, none exactly for void, one otherwise |
| JvmTypes.TypedOpcode | src/main/kotlin/com/grappenmaker/jvmutil/VisitorExtensions.kt:193 | `Type.getOpcode`: fails exactly for a method type and for void outside returns; the load, store or return variant stays within ILOAD..ALOAD, ISTORE..ASTORE or IRETURN..RETURN, the A variant exactly for references and the I variant exactly for the int-like sorts |
| Extensions.NameConversionsRoundTrip | src/main/kotlin/com/grappenmaker/jvmutil/Extensions.kt:17 | the internal name and the loader's binary name convert into each other, and their conversions never leave the other separator behind |
| Extensions.ClassResourceName | src/main/kotlin/com/grappenmaker/jvmutil/Extensions.kt:47 | the resource name is the internal name, free of '.', followed by ".class"; for a dotted name without '/' the part before ".class" converts back to the name |
| Extensions.FirstIndex | src/main/kotlin/com/grappenmaker/jvmutil/Extensions.kt:52 | the index found satisfies the predicate and no earlier element does; none is found iff no element satisfies it |
| Extensions.Find | src/main/kotlin/com/grappenmaker/jvmutil/Extensions.kt:52 | `find` gives an element of the list satisfying the predicate, the first one, and nothing iff no element satisfies it |
| Extensions.MethodByName | src/main/kotlin/com/grappenmaker/jvmutil/Extensions.kt:52 | the method found has the name, is a method of the class and no earlier method has that name; none iff no method has it |
| Extensions.MethodByInvoke | src/main/kotlin/com/grappenmaker/jvmutil/Extensions.kt:57-58 | the method found has the call's name and descriptor, and none is found iff no method has both |
| Extensions.FieldByName | src/main/kotlin/com/grappenmaker/jvmutil/Extensions.kt:68 | the field found has the name and no earlier field does; none iff no field has it |
| Extensions.LdcConstantsMembership | src/main/kotlin/com/grappenmaker/jvmutil/Extensions.kt:80-85 | a value is an LDC constant of a method iff some LDC instruction loads it |
| Extensions.IndyArgsMembership | src/main/kotlin/com/grappenmaker/jvmutil/Extensions.kt:80-85 | a value is a bootstrap argument iff some invokedynamic passes it |
| Extensions.MethodConstantsMembership | src/main/kotlin/com/grappenmaker/jvmutil/Extensions.kt:80-85 | `MethodNode.hasConstant` holds iff some LDC loads the value or some invokedynamic passes it |
| Extensions.AllMethodConstantsMembership | src/main/kotlin/com/grappenmaker/jvmutil/Extensions.kt:73 | a value is among the methods' constants iff some method has it as a constant |
| Extensions.FieldValuesMembership | src/main/kotlin/com/grappenmaker/jvmutil/Extensions.kt:73 | a value is among the fields' values iff some field holds it as its non-null value |
| Extensions.ClassConstantsMembership | src/main/kotlin/com/grappenmaker/jvmutil/Extensions.kt:73 | a class's constants are exactly its methods' constants and its fields' values, and `hasConstant` sees only the former |
| Extensions.FieldOnlyConstantIsNotReported | src/main/kotlin/com/grappenmaker/jvmutil/Extensions.kt:73-100 | a constant held only by a field is in `constants` while `ClassNode.hasConstant` is false |
| Extensions.StringsOfMembership | src/main/kotlin/com/grappenmaker/jvmutil/Extensions.kt:78-90 | `strings` holds exactly the string constants, and never more entries than the constants |
| Extensions.Filter | src/main/kotlin/com/grappenmaker/jvmutil/Extensions.kt:110 | the filtered list is no longer than the input |
| Extensions.FilterKeepsOrder | src/main/kotlin/com/grappenmaker/jvmutil/Extensions.kt:110 | the filtered list holds exactly the elements at the positions that pass, in increasing order of position: order and multiplicity are kept |
| Extensions.FilterMembership | src/main/kotlin/com/grappenmaker/jvmutil/Extensions.kt:110 | an element is kept iff it is in the list and passes the filter |
| Extensions.FilterAny | src/main/kotlin/com/grappenmaker/jvmutil/Extensions.kt:115 | some filtered element satisfies `p` iff some element of the list passes both the filter and `p` |
| Extensions.CallsMatchingIff | src/main/kotlin/com/grappenmaker/jvmutil/Extensions.kt:110-120 | `calls(matcher)` holds iff some instruction of the method is a method call satisfying the matcher |
| Extensions.ReferencesMatchingIff | src/main/kotlin/com/grappenmaker/jvmutil/Extensions.kt:125-135 | `references(matcher)` holds iff some instruction is a field access satisfying the matcher |
| Extensions.StartsWithAny | src/main/kotlin/com/grappenmaker/jvmutil/Extensions.kt:153 | holds iff some listed prefix starts the name |
| Extensions.SystemClassExamples | src/main/kotlin/com/grappenmaker/jvmutil/Extensions.kt:145-153 | JDK, Kotlin, ASM and library classes are system classes and a class in the default package is not |
| Extensions.FlagTestsAreIndependent | src/main/kotlin/com/grappenmaker/jvmutil/Extensions.kt:173-253 | each flag predicate is a single-bit test: or-ing in one flag makes its predicate true and leaves every other predicate unchanged |
| Extensions.StubLoadInsn | src/main/kotlin/com/grappenmaker/jvmutil/Extensions.kt:311-320 | every type except a method type has a stub load: NOP exactly for void, ICONST_0 exactly for boolean, byte, short, char and int, LCONST_0, FCONST_0 and DCONST_0 exactly for long, float and double, ACONST_NULL exactly for objects and arrays |
| Extensions.StubMatchesReturn | src/main/kotlin/com/grappenmaker/jvmutil/Extensions.kt:311-320 | the stub value of every non-method type is what that type's return instruction returns |
| Extensions.NextOrNull | src/main/kotlin/com/grappenmaker/jvmutil/Extensions.kt:353-362 | the result is the nearest instruction strictly after the start that has the kind and satisfies the block; null iff there is none |
| Extensions.PreviousOrNull | src/main/kotlin/com/grappenmaker/jvmutil/Extensions.kt:367-376 | the result is the nearest instruction strictly before the start that has the kind and satisfies the block; null iff there is none |
| Extensions.Next | src/main/kotlin/com/grappenmaker/jvmutil/Extensions.kt:364 | fails exactly when `nextOrNull` finds nothing, otherwise gives the same instruction |
| Extensions.Previous | src/main/kotlin/com/grappenmaker/jvmutil/Extensions.kt:378-379 | fails exactly when `previousOrNull` finds nothing, otherwise gives the same instruction |
| Extensions.AsFrameValues | src/main/kotlin/com/grappenmaker/jvmutil/Extensions.kt:384-387 | fails on an empty list; otherwise keeps the first entry, is never longer than the input, loses no entry other than TOP, adds none, and changes nothing when no TOP or no long/double occurs |
| Extensions.DropPadding | src/main/kotlin/com/grappenmaker/jvmutil/Extensions.kt:384-387 | the `filterIndexed` step: keeps every entry other than TOP, adds none, and drops nothing when there is no TOP or no long/double before it |
| Extensions.DropPaddingOfExpand | src/main/kotlin/com/grappenmaker/jvmutil/Extensions.kt:384-387 | dropping the TOP halves after LONG and DOUBLE undoes padding them in |
| Extensions.CompactionUndoesExpansion | src/main/kotlin/com/grappenmaker/jvmutil/Extensions.kt:384-387 | `asFrameValues` of the analyzer's expanded list (each long and double followed by TOP) is the original list of verification types |
| Descriptions.SimilarMeansEqualUpToIgnored | src/main/kotlin/com/grappenmaker/jvmutil/Descriptions.kt:23-24 | `isSimilar` holds iff name and descriptor are equal and, with `matchOwner`, the owner too |
| Descriptions.SimilarIsEquivalence | src/main/kotlin/com/grappenmaker/jvmutil/Descriptions.kt:23-24 | similarity is reflexive, symmetric and transitive, and matching owners only makes it stricter |
| Descriptions.SimilarToDataIff | src/main/kotlin/com/grappenmaker/jvmutil/Descriptions.kt:26-27 | a description is similar to method data iff it names that method's name, descriptor and, if asked, owner |
| Descriptions.DataAsDescription | src/main/kotlin/com/grappenmaker/jvmutil/Descriptions.kt:92-97 | copies name, descriptor, owner name and access, and takes the interface flag from the owner's access |
| Descriptions.NodeAsDescription | src/main/kotlin/com/grappenmaker/jvmutil/Descriptions.kt:99-103 | copies name, descriptor and access, uses the given owner and the given interface flag |
| Descriptions.NodeAsDescriptionIn | src/main/kotlin/com/grappenmaker/jvmutil/Descriptions.kt:105 | a method of a class node is described with the node's name as owner and the node's interface flag |
| Descriptions.FieldDataAsDescription | src/main/kotlin/com/grappenmaker/jvmutil/Descriptions.kt:131-135 | the description of field data names the field, its descriptor, its owning class and its access |
| Descriptions.FieldNodeAsDescription | src/main/kotlin/com/grappenmaker/jvmutil/Descriptions.kt:137-143 | copies name, descriptor and access, with the given owner |
| Descriptions.DescriptionsAgree | src/main/kotlin/com/grappenmaker/jvmutil/Descriptions.kt:92-105 | describing a method or field through its data or through the node and its owner gives the same description |
| Descriptions.FromOpcode | src/main/kotlin/com/grappenmaker/jvmutil/Descriptions.kt:166-169 | succeeds iff the opcode is in INVOKEVIRTUAL..INVOKEDYNAMIC, and then gives a type with that opcode |
| Descriptions.FromOpcodeRoundTrip | src/main/kotlin/com/grappenmaker/jvmutil/Descriptions.kt:158-169 | `getFromOpcode(t.opcode) == t` for every invocation type |
| Descriptions.InvocationTypeOf | src/main/kotlin/com/grappenmaker/jvmutil/Descriptions.kt:176-182 | SPECIAL iff private or `<init>`, else STATIC iff static, else INTERFACE iff the owner is an interface, else VIRTUAL; never DYNAMIC |
| Descriptions.DataInvocationTypeAgrees | src/main/kotlin/com/grappenmaker/jvmutil/Descriptions.kt:187-193 | the `MethodData` variant chooses the same type as the description of the data |
| Emitters.Repeat | src/main/kotlin/com/grappenmaker/jvmutil/VisitorExtensions.kt:161-172 | `n` copies of the instruction: length `n` and every entry equal to it |
| Emitters.SignExtend | src/main/kotlin/com/grappenmaker/jvmutil/VisitorExtensions.kt:324-335 | the result fits the signed range of the width and equals the input when the input already fits |
| Emitters.IntConstantInsns | src/main/kotlin/com/grappenmaker/jvmutil/VisitorExtensions.kt:324-335 | exactly one instruction: ICONST_M1..ICONST_5 for -1..5 (ICONST_0 plus the value), else BIPUSH of the value for a byte, else SIPUSH for a short, else LDC of the int |
| Emitters.LongConstantInsns | src/main/kotlin/com/grappenmaker/jvmutil/VisitorExtensions.kt:350-364 | LCONST_0 for 0, LCONST_1 for 1, BIPUSH then I2L for a byte, SIPUSH then I2L for a short, else LDC of the long |
| Emitters.IntConstantPushes | src/main/kotlin/com/grappenmaker/jvmutil/VisitorExtensions.kt:324-335 | executing the int branch pushes exactly the int |
| Emitters.LongConstantPushes | src/main/kotlin/com/grappenmaker/jvmutil/VisitorExtensions.kt:350-364 | LCONST_0/1, BIPUSH or SIPUSH then I2L, or LDC, and executing it pushes exactly the long |
| Emitters.LoadConstantInsns | src/main/kotlin/com/grappenmaker/jvmutil/VisitorExtensions.kt:315-377 | fails exactly for a value that is no JVM constant; null is ACONST_NULL, a boolean ICONST_0/ICONST_1, a byte BIPUSH then I2B, a short SIPUSH then I2S, a char SIPUSH of its 16 bits then I2C, ints and longs their tables, floats, doubles, strings, types, handles and dynamic constants LDC |
| Emitters.LoadConstantPushesValue | src/main/kotlin/com/grappenmaker/jvmutil/VisitorExtensions.kt:315-377 | every JVM constant is accepted, and its instructions push exactly that constant onto any stack |
| Emitters.LoadConstantAsWritten | src/main/kotlin/com/grappenmaker/jvmutil/VisitorExtensions.kt:366-369 | as written, a char is loaded with BIPUSH of its code then I2C, everything else as in the corrected version |
| Emitters.CharAsWrittenLoadsWrongCode | src/main/kotlin/com/grappenmaker/jvmutil/VisitorExtensions.kt:366-369 | as written, the char with code 200 loads the char 65480 |
| Emitters.BoxedType | src/main/kotlin/com/grappenmaker/jvmutil/VisitorExtensions.kt:528-540 | defined exactly for primitive sorts, void included: Character, Boolean, Integer, Long, Float, Double, Byte, Short and Void of `java/lang` |
| Emitters.BoxInsns | src/main/kotlin/com/grappenmaker/jvmutil/VisitorExtensions.kt:507-513 | fails for non-primitive types, emits nothing for void, otherwise one non-interface INVOKESTATIC of `valueOf` on the boxed type |
| Emitters.BoxCallsValueOf | src/main/kotlin/com/grappenmaker/jvmutil/VisitorExtensions.kt:507-513 | boxing calls a static `valueOf` on the wrapper whose descriptor takes exactly the primitive and returns the wrapper |
| Emitters.UnboxTargetAsWritten | src/main/kotlin/com/grappenmaker/jvmutil/VisitorExtensions.kt:476-502 | as written, long is unboxed with return descriptor "L" |
| Emitters.UnboxInsns | src/main/kotlin/com/grappenmaker/jvmutil/VisitorExtensions.kt:476-502 | fails for non-primitive types, nothing for void, otherwise CHECKCAST to the unbox owner followed by one INVOKEVIRTUAL of the unbox method on that owner |
| Emitters.UnboxTarget | src/main/kotlin/com/grappenmaker/jvmutil/VisitorExtensions.kt:476-502 | owner Character for char, Boolean for boolean, Number otherwise; method `<type>Value` (`intValue` for byte and short); return descriptor the type's own letter (I for byte and short) |
| Emitters.UnboxCallsTypedValue | src/main/kotlin/com/grappenmaker/jvmutil/VisitorExtensions.kt:476-502 | unboxing calls a method with a well-formed descriptor, no arguments and the primitive's computational type as result |
| Emitters.UnboxLongAsWrittenIsMalformed | src/main/kotlin/com/grappenmaker/jvmutil/VisitorExtensions.kt:496 | as written, unboxing a long calls `longValue` with the malformed descriptor "()L" |
| Emitters.LoadTypeClassInsns | src/main/kotlin/com/grappenmaker/jvmutil/VisitorExtensions.kt:519-523 | LDC of the type for objects and arrays, the wrapper's static `TYPE` field for primitives, failure for method types |
| Emitters.FieldAccessInsn | src/main/kotlin/com/grappenmaker/jvmutil/VisitorExtensions.kt:51-58 | GETSTATIC/PUTSTATIC exactly for static fields, GETFIELD/PUTFIELD otherwise, with the description's owner, name and descriptor |
| Emitters.FieldAccessFrom | src/main/kotlin/com/grappenmaker/jvmutil/VisitorExtensions.kt:75-76 | an access with the field instruction's owner, name and descriptor, static as asked, a read iff a get is asked; `static` defaults to the instruction's own |
| Emitters.FieldAccessDefaultStatic | src/main/kotlin/com/grappenmaker/jvmutil/VisitorExtensions.kt:93-94 | with the default `static`, the new access is static exactly when the copied instruction is, with GETSTATIC/GETFIELD or PUTSTATIC/PUTFIELD accordingly |
| Emitters.FieldInsnVariantsAgree | src/main/kotlin/com/grappenmaker/jvmutil/VisitorExtensions.kt:81-93 | the node and data variants of `getField`/`setField` emit what the description variant emits for the node's description |
| Emitters.InvokeInsn | src/main/kotlin/com/grappenmaker/jvmutil/VisitorExtensions.kt:16-22 | a call with the invocation type's opcode and the description's owner, name, descriptor and interface flag |
| Emitters.InvokeTypedInsn | src/main/kotlin/com/grappenmaker/jvmutil/VisitorExtensions.kt:27-32 | a call with the type's opcode, whose interface flag is set exactly for INTERFACE |
| Emitters.InvokeVariantsAgree | src/main/kotlin/com/grappenmaker/jvmutil/VisitorExtensions.kt:16-32 | the two `invokeMethod`s emit the same call iff the description's interface flag agrees with its invocation type |
| Emitters.ConstructInsns | src/main/kotlin/com/grappenmaker/jvmutil/VisitorExtensions.kt:151-156 | NEW of the class first, DUP second, the arguments unchanged in between, and INVOKESPECIAL `<init>` with the descriptor last |
| Emitters.ConstructEvents | src/main/kotlin/com/grappenmaker/jvmutil/VisitorExtensions.kt:151-156 | the events of a construction are those of NEW and DUP, the arguments' events, and the constructor call |
| Emitters.ConstructDescribedInsns | src/main/kotlin/com/grappenmaker/jvmutil/VisitorExtensions.kt:131-138 | fails iff the description is no constructor, else equals constructing its owner with its descriptor |
| Emitters.MethodSink.constructor | src/main/kotlin/com/grappenmaker/jvmutil/VisitorExtensions.kt:16 | a fresh visitor has received no events |
| Emitters.MethodSink.Visit | src/main/kotlin/com/grappenmaker/jvmutil/VisitorExtensions.kt:16 | appends one event |
| Emitters.MethodSink.VisitInsn | src/main/kotlin/com/grappenmaker/jvmutil/VisitorExtensions.kt:16 | appends the event of one instruction |
| Emitters.MethodSink.VisitEvents | src/main/kotlin/com/grappenmaker/jvmutil/VisitorExtensions.kt:151-156 | appends a run of events in order |
| Emitters.MethodSink.VisitAll | src/main/kotlin/com/grappenmaker/jvmutil/VisitorExtensions.kt:151-156 | appends a run of instructions, one event each, in order |
| Emitters.MethodSink.LoadConstant | src/main/kotlin/com/grappenmaker/jvmutil/VisitorExtensions.kt:315-377 | fails without emitting for a value that is no constant, else appends exactly `LoadConstantInsns` |
| Emitters.MethodSink.LoadInt | src/main/kotlin/com/grappenmaker/jvmutil/VisitorExtensions.kt:324-335 | appends the int branch's instruction |
| Emitters.MethodSink.LoadLong | src/main/kotlin/com/grappenmaker/jvmutil/VisitorExtensions.kt:350-364 | appends the long branch's instructions |
| Emitters.MethodSink.Dup | src/main/kotlin/com/grappenmaker/jvmutil/VisitorExtensions.kt:161-164 | fails without emitting iff n < 1, else appends exactly n DUP instructions; n defaults to 1 |
| Emitters.MethodSink.Pop | src/main/kotlin/com/grappenmaker/jvmutil/VisitorExtensions.kt:169-172 | fails without emitting iff n < 1, else appends exactly n POP instructions; n defaults to 1 |
| Emitters.MethodSink.ReturnMethod | src/main/kotlin/com/grappenmaker/jvmutil/VisitorExtensions.kt:177-180 | fails iff the opcode is outside IRETURN..RETURN, else appends that one instruction; the opcode defaults to RETURN |
| Emitters.MethodSink.Load | src/main/kotlin/com/grappenmaker/jvmutil/VisitorExtensions.kt:185-188 | fails iff the opcode is outside ILOAD..ALOAD, else appends that load of the index; the opcode defaults to ALOAD |
| Emitters.MethodSink.LoadTyped | src/main/kotlin/com/grappenmaker/jvmutil/VisitorExtensions.kt:193 | fails for void and method types, else appends the type's load variant |
| Emitters.MethodSink.Store | src/main/kotlin/com/grappenmaker/jvmutil/VisitorExtensions.kt:203-206 | fails iff the opcode is outside ISTORE..ASTORE, else appends that store; the opcode defaults to ASTORE |
| Emitters.MethodSink.GetField | src/main/kotlin/com/grappenmaker/jvmutil/VisitorExtensions.kt:57-58 | appends the get variant of the field access |
| Emitters.MethodSink.SetField | src/main/kotlin/com/grappenmaker/jvmutil/VisitorExtensions.kt:114-115 | appends the put variant of the field access |
| Emitters.MethodSink.InvokeMethod | src/main/kotlin/com/grappenmaker/jvmutil/VisitorExtensions.kt:16-22 | appends the call of the description |
| Emitters.MethodSink.InvokeTyped | src/main/kotlin/com/grappenmaker/jvmutil/VisitorExtensions.kt:27-32 | appends the typed call |
| Emitters.MethodSink.Construct | src/main/kotlin/com/grappenmaker/jvmutil/VisitorExtensions.kt:151-156 | appends NEW, DUP, the arguments and the constructor call |
| Emitters.MethodSink.ConstructDescribed | src/main/kotlin/com/grappenmaker/jvmutil/VisitorExtensions.kt:131-138 | fails without emitting unless the description is a constructor |
| Emitters.MethodSink.Box | src/main/kotlin/com/grappenmaker/jvmutil/VisitorExtensions.kt:507-513 | fails without emitting for a non-primitive, else appends `BoxInsns` |
| Emitters.MethodSink.Unbox | src/main/kotlin/com/grappenmaker/jvmutil/VisitorExtensions.kt:476-502 | fails without emitting for a non-primitive, else appends `UnboxInsns` |
| Emitters.MethodSink.LoadTypeClass | src/main/kotlin/com/grappenmaker/jvmutil/VisitorExtensions.kt:519-523 | fails without emitting for a method type, else appends `LoadTypeClassInsns` |
| Transforming.CallDescription | src/main/kotlin/com/grappenmaker/jvmutil/Transforming.kt:258 | the description built for a call carries the call's owner, name and descriptor, its interface flag, and access -1 |
| Transforming.MapValues | src/main/kotlin/com/grappenmaker/jvmutil/Transforming.kt:329-337 | the same number of values, each replaced by its mapping or kept when unmapped |
| Transforming.ReplaceInValues | src/main/kotlin/com/grappenmaker/jvmutil/Transforming.kt:356-364 | the same number of values, strings replaced in and everything else kept |
| Transforming.ReplaceIntInsn | src/main/kotlin/com/grappenmaker/jvmutil/Transforming.kt:339-344 | BIPUSH and SIPUSH become a load of their operand, or of the `Int` it is mapped to; every other int instruction is kept |
| Transforming.ReplaceIntInsnAsWritten | src/main/kotlin/com/grappenmaker/jvmutil/Transforming.kt:339-344 | as written, BIPUSH and SIPUSH are rewritten as in the corrected version, and every other int instruction becomes a load of its unmapped operand |
| Transforming.ApplyConcat | src/main/kotlin/com/grappenmaker/jvmutil/Transforming.kt:35-36 | a visitor forwards a stream piece by piece, the second piece from the flag the first left |
| Transforming.Step | src/main/kotlin/com/grappenmaker/jvmutil/Transforming.kt:205-366 | a once-flag is never reset and is set only by a call event under call advice or call replacement; method enter, method exit and call advice always forward the event itself |
| Transforming.PipelineConcat | src/main/kotlin/com/grappenmaker/jvmutil/Transforming.kt:35-36 | folding a concatenation: the later transforms see the events before the earlier ones |
| Transforming.FirstTransformIsInnermost | src/main/kotlin/com/grappenmaker/jvmutil/Transforming.kt:29-36 | the first transform added is the last to see the events, the last added the first |
| Transforming.StatelessFlag | src/main/kotlin/com/grappenmaker/jvmutil/Transforming.kt:205-234 | transforms without a once-flag never set it |
| Transforming.ApplyPassesThrough | src/main/kotlin/com/grappenmaker/jvmutil/Transforming.kt:205-366 | a stream of events a transform passes through comes out unchanged, flag included |
| Transforming.MethodEnterInsertsAfterCode | src/main/kotlin/com/grappenmaker/jvmutil/Transforming.kt:205-214 | `methodEnter` emits its handler once, right after the `visitCode`, and changes nothing else |
| Transforming.MethodExitWithoutExits | src/main/kotlin/com/grappenmaker/jvmutil/Transforming.kt:219-228 | `methodExit` leaves a body without IRETURN..RETURN or ATHROW unchanged |
| Transforming.MethodExitBeforeExit | src/main/kotlin/com/grappenmaker/jvmutil/Transforming.kt:219-228 | `methodExit` runs the handler for the exit's opcode right before each exit instruction |
| Transforming.ExitOnFiresOnlyForOpcode | src/main/kotlin/com/grappenmaker/jvmutil/Transforming.kt:233-234 | the opcode variant emits its handler for its own opcode and nothing for other exits |
| Transforming.CallAdviceOnce | src/main/kotlin/com/grappenmaker/jvmutil/Transforming.kt:239-272 | with `handleOnce` only the first matching call is surrounded by the handlers; the rest passes unchanged |
| Transforming.CallAdviceEvery | src/main/kotlin/com/grappenmaker/jvmutil/Transforming.kt:239-272 | without `handleOnce` every matching call is kept and surrounded by the handlers |
| Transforming.AdviceFlagIrrelevant | src/main/kotlin/com/grappenmaker/jvmutil/Transforming.kt:239-272 | without `handleOnce` the flag plays no part in what is forwarded |
| Transforming.ReplaceCallOnce | src/main/kotlin/com/grappenmaker/jvmutil/Transforming.kt:277-303 | with `matchOnce` only the first matching call is replaced; later ones pass through |
| Transforming.ReplaceCallEvery | src/main/kotlin/com/grappenmaker/jvmutil/Transforming.kt:277-303 | without `matchOnce` every matching call is dropped and the replacement emitted in its place |
| Transforming.ReplaceFlagIrrelevant | src/main/kotlin/com/grappenmaker/jvmutil/Transforming.kt:277-303 | without `matchOnce` the flag plays no part |
| Transforming.NonMatchingCallsPass | src/main/kotlin/com/grappenmaker/jvmutil/Transforming.kt:239-303 | a call the matcher refuses passes both call visitors unchanged |
| Transforming.OverwriteReplacesBody | src/main/kotlin/com/grappenmaker/jvmutil/Transforming.kt:143-160 | `overwrite` forwards only the parameters and, at `visitCode`, code, the body, `visitMaxs(0, 0)` and `visitEnd` |
| Transforming.DropsAll | src/main/kotlin/com/grappenmaker/jvmutil/Transforming.kt:143-160 | events that are neither code nor parameters are dropped by `overwrite` |
| Transforming.ReplaceConstantsKeepsIntPushes | src/main/kotlin/com/grappenmaker/jvmutil/Transforming.kt:339-344 | the corrected `replaceConstants` keeps the value a BIPUSH or SIPUSH pushes, or pushes its mapped int |
| Transforming.ReplaceConstantsDropsNewArrayAsWritten | src/main/kotlin/com/grappenmaker/jvmutil/Transforming.kt:339-344 | as written, `NEWARRAY T_INT` becomes a push of the type code 10; the corrected version keeps it |
| Transforming.ReplaceConstantsEventRoundTrip | src/main/kotlin/com/grappenmaker/jvmutil/Transforming.kt:324-337 | one event through a map and its inverse comes back unchanged |
| Transforming.ReplaceConstantsRoundTrip | src/main/kotlin/com/grappenmaker/jvmutil/Transforming.kt:324-346 | replacing constants and then replacing back with the inverse map restores a body without int instructions |
| Transforming.ReplaceStringSelf | src/main/kotlin/com/grappenmaker/jvmutil/Transforming.kt:350-366 | `replaceString(w, w)` changes no body, for a non-empty `w` |
| Transforming.ReplaceStringAbsent | src/main/kotlin/com/grappenmaker/jvmutil/Transforming.kt:350-366 | a body none of whose string constants contains the text passes unchanged |
| Transforming.HandlersPassThrough | src/main/kotlin/com/grappenmaker/jvmutil/Transforming.kt:210-295 | handlers that emit nothing their visitor intercepts pass it unchanged when they re-enter it |
| Transforming.TransformVisitor.constructor | src/main/kotlin/com/grappenmaker/jvmutil/Transforming.kt:239-303 | a visitor starts with its once-flag clear |
| Transforming.TransformVisitor.Accept | src/main/kotlin/com/grappenmaker/jvmutil/Transforming.kt:143-366 | each override forwards exactly what `Step` says and updates the flag as `Step` says |
| Transforming.TransformVisitor.AcceptOverwrite | src/main/kotlin/com/grappenmaker/jvmutil/Transforming.kt:143-160 | the overwrite overrides forward what `Step` says |
| Transforming.TransformVisitor.AcceptAdvice | src/main/kotlin/com/grappenmaker/jvmutil/Transforming.kt:239-272 | the call-advice override forwards what `Step` says and sets `hasHandled` as `Step` does |
| Transforming.TransformVisitor.AcceptReplaceConstants | src/main/kotlin/com/grappenmaker/jvmutil/Transforming.kt:324-346 | the constant-replacing overrides forward what `Step` says |
| Transforming.TransformVisitor.Feed | src/main/kotlin/com/grappenmaker/jvmutil/Transforming.kt:35-36 | feeding a body event by event forwards `Apply` of the body and leaves the flag `FinalFlag` gives |
| Transforming.NodeMethod | src/main/kotlin/com/grappenmaker/jvmutil/Transforming.kt:51-52 | the method found is in the node with the name and descriptor; none iff the node has no such method |
| Transforming.AsClassTransformTargetsOneMethod | src/main/kotlin/com/grappenmaker/jvmutil/Transforming.kt:41-59 | `asClassTransform` rewrites only the target method, leaves other events as they were, and fails iff the target is visited but missing from the node |
| Transforming.AnyTargetsCons | src/main/kotlin/com/grappenmaker/jvmutil/Transforming.kt:41-59 | a stream declares the target iff its first event does or the rest does |
| Transforming.ForMethodFailsIff | src/main/kotlin/com/grappenmaker/jvmutil/Transforming.kt:51-53 | the class transform fails iff some visited method is the target and the node lacks it |
| Transforming.ForMethodRewrites | src/main/kotlin/com/grappenmaker/jvmutil/Transforming.kt:41-59 | on success, the target's body goes through the method pipeline and every other event is forwarded unchanged |
| Transforming.ClassStep | src/main/kotlin/com/grappenmaker/jvmutil/Transforming.kt:41-59 | non-method events pass unchanged; a method event fails iff it is targeted (every method for `methodVisitor`) and the node lacks the method; otherwise only its body may change |
| Transforming.ApplyClass | src/main/kotlin/com/grappenmaker/jvmutil/Transforming.kt:29-30 | a class visitor fails iff some event fails, else forwards each event exactly as one step does, one for one |
| Transforming.ClassPipeline | src/main/kotlin/com/grappenmaker/jvmutil/Transforming.kt:29-30 | a fold of class transforms keeps the event count, passes every non-method event unchanged and changes only method bodies |
| Transforming.MethodTransformContext.constructor | src/main/kotlin/com/grappenmaker/jvmutil/Transforming.kt:118-122 | no transforms, no frame expansion, frame computing allowed |
| Transforming.MethodTransformContext.Add | src/main/kotlin/com/grappenmaker/jvmutil/Transforming.kt:128-137 | appends the transform and keeps both options |
| Transforming.MethodTransformContext.Overwrite | src/main/kotlin/com/grappenmaker/jvmutil/Transforming.kt:143-160 | succeeds iff no transform was added, and then the overwrite is the only transform; on failure nothing changes |
| Transforming.MethodTransformContext.FixedValue | src/main/kotlin/com/grappenmaker/jvmutil/Transforming.kt:165-168 | succeeds iff no transform was added and the constant and return type are loadable, and then overwrites with `FixedValueBody` |
| Transforming.MethodTransformContext.StubValue | src/main/kotlin/com/grappenmaker/jvmutil/Transforming.kt:175-179 | succeeds iff no transform was added and the descriptor parses, and then overwrites with `StubValueBody` |
| Transforming.MethodTransformContext.ExpandFrames | src/main/kotlin/com/grappenmaker/jvmutil/Transforming.kt:191-193 | sets frame expansion and changes nothing else |
| Transforming.MethodTransformContext.DisableFrameComputing | src/main/kotlin/com/grappenmaker/jvmutil/Transforming.kt:198-200 | clears frame computing and changes nothing else |
| Transforming.MethodTransformContext.MethodEnter | src/main/kotlin/com/grappenmaker/jvmutil/Transforming.kt:205-214 | appends an enter transform |
| Transforming.MethodTransformContext.MethodExit | src/main/kotlin/com/grappenmaker/jvmutil/Transforming.kt:219-228 | appends an exit transform |
| Transforming.MethodTransformContext.MethodExitOn | src/main/kotlin/com/grappenmaker/jvmutil/Transforming.kt:233-234 | appends an exit transform whose handler is empty for every other opcode |
| Transforming.MethodTransformContext.CallAdvice | src/main/kotlin/com/grappenmaker/jvmutil/Transforming.kt:239-272 | appends a call-advice transform |
| Transforming.MethodTransformContext.ReplaceCallWith | src/main/kotlin/com/grappenmaker/jvmutil/Transforming.kt:277-303 | appends a call-replacing transform |
| Transforming.MethodTransformContext.AdviceBoth | src/main/kotlin/com/grappenmaker/jvmutil/Transforming.kt:308-314 | appends an enter transform and then an exit transform |
| Transforming.MethodTransformContext.ReplaceConstantsWith | src/main/kotlin/com/grappenmaker/jvmutil/Transforming.kt:319-346 | appends a constant-replacing transform |
| Transforming.MethodTransformContext.ReplaceStringWith | src/main/kotlin/com/grappenmaker/jvmutil/Transforming.kt:350-366 | appends a string-replacing transform |
| Transforming.MethodTransformContext.AsClassTransform | src/main/kotlin/com/grappenmaker/jvmutil/Transforming.kt:371 | a class transform aimed at this method's description within its owner |
| Transforming.FixedValueBody | src/main/kotlin/com/grappenmaker/jvmutil/Transforming.kt:165-168 | succeeds iff the constant loads and the descriptor has a non-method return type; the body is the constant's load and the typed return |
| Transforming.FixedValueReturnsConstant | src/main/kotlin/com/grappenmaker/jvmutil/Transforming.kt:165-168 | the body pushes exactly the constant and ends with a return in IRETURN..RETURN |
| Transforming.StubValueBody | src/main/kotlin/com/grappenmaker/jvmutil/Transforming.kt:175-179 | succeeds iff the descriptor parses; two instructions, a stub load and the return that returns what it pushes |
| Transforming.ClassTransformContext.constructor | src/main/kotlin/com/grappenmaker/jvmutil/Transforming.kt:73-74 | no class transforms yet |
| Transforming.ClassTransformContext.Add | src/main/kotlin/com/grappenmaker/jvmutil/Transforming.kt:79-88 | appends the class transform |
| Transforming.ClassTransformContext.MethodVisitor | src/main/kotlin/com/grappenmaker/jvmutil/Transforming.kt:93-110 | appends a transform that wraps the visitor of every method |
| Generation.MethodBodyShape | src/main/kotlin/com/grappenmaker/jvmutil/Generation.kt:93-108 | a generated method has code iff there is a generator, ends with `visitEnd`, and has the generator's events between `visitCode` and `visitMaxs` |
| Generation.ClassTraceShape | src/main/kotlin/com/grappenmaker/jvmutil/Generation.kt:54-80 | the trace opens with the header (no signature, superclass, interfaces in order), closes with the end, has the default constructor right after the header iff asked, and the generator's events in between unchanged |
| Generation.DefaultConstructorCode | src/main/kotlin/com/grappenmaker/jvmutil/Generation.kt:70-76 | the default constructor is public `<init>()V` with code exactly ALOAD 0, INVOKESPECIAL superclass.`<init>()V`, RETURN |
| Generation.ClassWriterSink.constructor | src/main/kotlin/com/grappenmaker/jvmutil/Generation.kt:65 | a fresh writer has recorded nothing |
| Generation.ClassWriterSink.Visit | src/main/kotlin/com/grappenmaker/jvmutil/Generation.kt:65-80 | appends one class event |
| Generation.ClassWriterSink.GenerateMethod | src/main/kotlin/com/grappenmaker/jvmutil/Generation.kt:93-108 | appends one method declaration whose visitor received `MethodBody`; access, maxima and generator default to the source's public, 0, 0 and none |
| Generation.GenerateClassBytes | src/main/kotlin/com/grappenmaker/jvmutil/Generation.kt:54-80 | the writer receives exactly `ClassTrace`; the superclass, interfaces, access and version default to `java/lang/Object`, none, public final and 52, and `defaultConstructor` defaults to `DefaultConstructorFor(access)`, true iff ACC_INTERFACE is unset |
| Generation.DefaultConstructorRule | src/main/kotlin/com/grappenmaker/jvmutil/Generation.kt:59-76 | under that default, the trace holds the default constructor right after the header iff ACC_INTERFACE is unset, and an interface's trace is the header, the generator's events and the end |
| Generation.GenerateClass | src/main/kotlin/com/grappenmaker/jvmutil/Generation.kt:26-41 | the same trace, and the loader gets the internal name with every '/' replaced by '.' |
| Hierarchy.AllParents | src/main/kotlin/com/grappenmaker/jvmutil/LoaderClassWriter.kt:40 | the list starts with the class itself |
| Hierarchy.AllParentsIsSuperChain | src/main/kotlin/com/grappenmaker/jvmutil/LoaderClassWriter.kt:40-44 | `getAllParents` lists exactly the classes reached by following superclass links, in order of distance |
| Hierarchy.AllParentsMembership | src/main/kotlin/com/grappenmaker/jvmutil/LoaderClassWriter.kt:40-44 | a name is in `getAllParents` iff it is on the class's superclass chain |
| Hierarchy.FirstCommon | src/main/kotlin/com/grappenmaker/jvmutil/LoaderClassWriter.kt:32-33 | the result is the first element of the first list that occurs in the second, and none iff they share none |
| Hierarchy.FirstCommonShift | src/main/kotlin/com/grappenmaker/jvmutil/LoaderClassWriter.kt:32-33 | skipping a leading element absent from the second list does not change the result |
| Hierarchy.CommonSuperClassIsNearest | src/main/kotlin/com/grappenmaker/jvmutil/LoaderClassWriter.kt:32-33 | for two loadable, distinct, non-interface classes the answer is the nearest class on the first chain that is on the second, and the base answer only when the chains share none |
| Hierarchy.CommonSuperClassShortcuts | src/main/kotlin/com/grappenmaker/jvmutil/LoaderClassWriter.kt:20-30 | the base answer without bytecode inheritance, `java/lang/Object` when either type is it, the type when equal, the base answer when either does not load, `java/lang/Object` for an interface |
| Hierarchy.ChainReachesObject | src/main/kotlin/com/grappenmaker/jvmutil/LoaderClassWriter.kt:41-44 | when every superclass loads, down to a loadable `java/lang/Object`, every superclass chain ends at `java/lang/Object` |
| Hierarchy.CommonSuperClassIsShared | src/main/kotlin/com/grappenmaker/jvmutil/LoaderClassWriter.kt:32-44 | when every superclass is loadable, the answer is a parent of both classes, so it is never the base writer's answer unless that is itself a parent |
| Accessors.DefaultKind | src/main/kotlin/com/grappenmaker/jvmutil/Accessors.kt:82 | SETTER iff the receiver name starts with "set" |
| Accessors.FieldNames | src/main/kotlin/com/grappenmaker/jvmutil/Accessors.kt:107-112 | two names exactly for a matching getter or setter name longer than 3: the name without its `get`/`set` prefix (non-empty), then that with its first letter lower-cased; otherwise the name itself |
| Accessors.SelectionOrder | src/main/kotlin/com/grappenmaker/jvmutil/Accessors.kt:98-125 | a found field always wins, under the first name that has one; else a method under the full name; else not-implemented when allowed, else nothing |
| Accessors.GetterFieldNames | src/main/kotlin/com/grappenmaker/jvmutil/Accessors.kt:84-112 | "getFoo" looks up "Foo" then "foo" and never "getFoo"; with an argument it is no getter and looks up "getFoo" |
| Accessors.EscapeDescCharacters | src/main/kotlin/com/grappenmaker/jvmutil/Accessors.kt:745-749 | the escaped descriptor has none of '.', ';', '[' and '/', keeps every other character and adds only characters of the replacements |
| Accessors.ReflectedNames | src/main/kotlin/com/grappenmaker/jvmutil/Accessors.kt:732-743 | method and field names never clash, constructors are stored as `Constructor`, other methods as `Method`, and the descriptor part is escaped |
| Accessors.AccessorCounter.constructor | src/main/kotlin/com/grappenmaker/jvmutil/Accessors.kt:16 | the counter starts at 0 |
| Accessors.AccessorCounter.Next | src/main/kotlin/com/grappenmaker/jvmutil/Accessors.kt:16-17 | each read yields the current value and increments it |
| Accessors.AccessorNames | src/main/kotlin/com/grappenmaker/jvmutil/Accessors.kt:52-53 | the virtual name takes the counter's value and the static name the next one |
| Accessors.TrailingDigitsAfter | src/main/kotlin/com/grappenmaker/jvmutil/Accessors.kt:52-53 | a name ending in a non-digit then a number ends with exactly the number's digits |
| Accessors.NumberedNamesDiffer | src/main/kotlin/com/grappenmaker/jvmutil/Accessors.kt:52-53 | two such names are equal only when their numbers are |
| Accessors.AccessorNamesUnique | src/main/kotlin/com/grappenmaker/jvmutil/Accessors.kt:16-17 | names built from distinct counter values never coincide, whatever the simple names and kinds |
| Accessors.ParamSlotsDisjoint | src/main/kotlin/com/grappenmaker/jvmutil/Accessors.kt:532-566 | the first argument slot is 1, each next is the previous plus the argument's size, and no two arguments share a slot |
| Accessors.LongTakesTwoSlots | src/main/kotlin/com/grappenmaker/jvmutil/Accessors.kt:565 | in `(JI)` the int is loaded from slot 3 |
| Accessors.EmitArgPrefix | src/main/kotlin/com/grappenmaker/jvmutil/Accessors.kt:536-540 | appends the array and index pushes of a reflective argument |
| Accessors.EmitArgLoad | src/main/kotlin/com/grappenmaker/jvmutil/Accessors.kt:541-547 | appends the typed load of the argument, and its delegate for an accessor type |
| Accessors.EmitArgTail | src/main/kotlin/com/grappenmaker/jvmutil/Accessors.kt:548-563 | appends boxing and the array store, or the cast to the target type |
| Accessors.LoadArg | src/main/kotlin/com/grappenmaker/jvmutil/Accessors.kt:532-566 | appends the argument's three parts in order |
| Accessors.LoadAccessorParams | src/main/kotlin/com/grappenmaker/jvmutil/Accessors.kt:520-567 | appends the array creation when asked, then each argument's events, with argument i loaded from `ParamSlot(args, i)` |
| Accessors.ArgsInsnsStep | src/main/kotlin/com/grappenmaker/jvmutil/Accessors.kt:532-566 | the events of argument k follow those of the earlier arguments |
| Accessors.EmitArrayPrefix | src/main/kotlin/com/grappenmaker/jvmutil/Accessors.kt:527-530 | appends the argument count and ANEWARRAY Object exactly for a reflective call with an array |
| Accessors.ReflectedArgumentStoredAtIndex | src/main/kotlin/com/grappenmaker/jvmutil/Accessors.kt:536-558 | in the array, argument i is pushed as DUP and the index i, loaded from its slot, and stored by AASTORE |
| Accessors.SelectAll | src/main/kotlin/com/grappenmaker/jvmutil/Accessors.kt:157-172 | succeeds iff every implemented method has an implementation, and then holds exactly those, in order |
| Accessors.ReflectedUpToStep | src/main/kotlin/com/grappenmaker/jvmutil/Accessors.kt:190-273 | each implementation adds its reflected element exactly when it needs reflection |
| Accessors.ImplementedMethods | src/main/kotlin/com/grappenmaker/jvmutil/Accessors.kt:159-160 | the implemented receivers are exactly the declared ones that are not default methods and, for a static accessor, are not `isInstance` or `cast`, in declaration order and multiplicity |
| Accessors.MethodCheck | src/main/kotlin/com/grappenmaker/jvmutil/Accessors.kt:258-282 | a method target passes iff its descriptor parses, its argument count is the receiver's, and it is not a constructor of an abstract class |
| Accessors.FieldCheck | src/main/kotlin/com/grappenmaker/jvmutil/Accessors.kt:204-210 | a field target fails exactly for a setter receiver without arguments, where `getArgumentTypes(desc).first()` throws |
| Accessors.RedDeclarationsDistinct | src/main/kotlin/com/grappenmaker/jvmutil/Accessors.kt:190-275 | declaring each reflected element when it is first registered names every registered element exactly once |
| Accessors.DuplicateRedAsWritten | src/main/kotlin/com/grappenmaker/jvmutil/Accessors.kt:270-275 | as written, two receivers bound to one private method declare its reflected field twice |
| Accessors.SharedTargetDeclarations | src/main/kotlin/com/grappenmaker/jvmutil/Accessors.kt:270-275 | for any two receivers bound to one method that needs reflection, the declarations as written hold its field twice and the corrected ones once |
| Accessors.ReflectOne | src/main/kotlin/com/grappenmaker/jvmutil/Accessors.kt:182-282 | one implementation fails iff its target fails its check; otherwise its element is added to the registered set and to the declarations exactly when it needs reflection and is not registered yet |
| Accessors.RegisteredStep | src/main/kotlin/com/grappenmaker/jvmutil/Accessors.kt:190-275 | registering the next implementation takes the elements and declarations of the first k implementations to those of the first k + 1 |
| Accessors.CollectReflected | src/main/kotlin/com/grappenmaker/jvmutil/Accessors.kt:182-290 | fails iff some field target is a setter without arguments or some method target is refused; else gives every reflected element the implementations register, and their field declarations in order, one per element |
| Accessors.PlanAccessor | src/main/kotlin/com/grappenmaker/jvmutil/Accessors.kt:140-172 | succeeds iff the type is an interface, every implemented method is implemented and every target passes its check; then the implementations, the reflected elements and their declarations |
| Matching.AllAppend | src/main/kotlin/com/grappenmaker/jvmutil/ClassFinding.kt:685 | a context matches everything with no matcher, one more matcher narrows it by exactly that matcher, and after `noMatch()` nothing matches |
| Matching.MethodDataOf | src/main/kotlin/com/grappenmaker/jvmutil/Extensions.kt:290 | one data per method, in order, owned by the class |
| Matching.FieldDataOf | src/main/kotlin/com/grappenmaker/jvmutil/Extensions.kt:295 | one data per field, in order, owned by the class |
| Matching.ZipAgreesIff | src/main/kotlin/com/grappenmaker/jvmutil/ClassFinding.kt:1076-1081 | zipping compares the positions both lists have and no other |
| Matching.NthOutOfRange | src/main/kotlin/com/grappenmaker/jvmutil/ClassFinding.kt:863-872 | an argument index out of range never matches, for a method or a call |
| Matching.HasExactPrefix | src/main/kotlin/com/grappenmaker/jvmutil/ClassFinding.kt:896-898 | a call's `hasExact` accepts every prefix of its arguments, the empty list included, while a method's demands the whole list |
| Matching.HasExactDisagree | src/main/kotlin/com/grappenmaker/jvmutil/ClassFinding.kt:1076-1081 | `(IJ)V` matches `[I]` as a call but not as a method |
| Matching.CallsDescribedAsWrittenTestsTheMethod | src/main/kotlin/com/grappenmaker/jvmutil/ClassFinding.kt:850-852 | as written, `calls(desc)` accepts a method that is itself `desc` and calls nothing, and refuses a method that calls `desc` |
| Matching.CallsDescribedIff | src/main/kotlin/com/grappenmaker/jvmutil/ClassFinding.kt:850-852 | the corrected `calls(desc)` holds iff some call instruction names the described owner, name and descriptor |
| Matching.Keys | src/main/kotlin/com/grappenmaker/jvmutil/ClassFinding.kt:702-704 | the names of the entities, one per entry, in order |
| Matching.PutNew | src/main/kotlin/com/grappenmaker/jvmutil/ClassFinding.kt:702-704 | a new name is appended with its value |
| Matching.PutKnown | src/main/kotlin/com/grappenmaker/jvmutil/ClassFinding.kt:726-728 | a known name keeps its place and gets the new value |
| Matching.PutProperties | src/main/kotlin/com/grappenmaker/jvmutil/ClassFinding.kt:702-728 | after `entities += name to ctx` the name maps to the value, other entries keep value and place, names stay distinct, and the map grows only by a new name |
| Matching.CallContext.constructor | src/main/kotlin/com/grappenmaker/jvmutil/ClassFinding.kt:1028-1038 | no matchers |
| Matching.CallContext.Match | src/main/kotlin/com/grappenmaker/jvmutil/ClassFinding.kt:1100-1116 | appends the matcher; afterwards matches exactly the calls it matched before that also satisfy the matcher |
| Matching.CallContext.Named | src/main/kotlin/com/grappenmaker/jvmutil/ClassFinding.kt:1043-1045 | appends the name test; afterwards matches exactly the earlier matches that are calls with that name |
| Matching.CallContext.SetArg | src/main/kotlin/com/grappenmaker/jvmutil/ClassFinding.kt:1050-1052 | appends the test of argument n, false out of range; afterwards matches exactly the earlier matches that are calls whose argument n is the type (none out of range) |
| Matching.CallContext.HasArgument | src/main/kotlin/com/grappenmaker/jvmutil/ClassFinding.kt:1057-1059 | appends the argument membership test; afterwards matches exactly the earlier matches that are calls taking an argument of the type |
| Matching.CallContext.Count | src/main/kotlin/com/grappenmaker/jvmutil/ClassFinding.kt:1064-1071 | appends the argument-count test; afterwards matches exactly the earlier matches that are calls with that many arguments |
| Matching.CallContext.HasExact | src/main/kotlin/com/grappenmaker/jvmutil/ClassFinding.kt:1076-1081 | appends the zipped-prefix test; afterwards matches exactly the earlier matches that are calls whose arguments agree with the list on their common prefix |
| Matching.CallContext.Returns | src/main/kotlin/com/grappenmaker/jvmutil/ClassFinding.kt:1086-1088 | appends the return-type test; afterwards matches exactly the earlier matches that are calls returning the type |
| Matching.CallContext.OwnedBy | src/main/kotlin/com/grappenmaker/jvmutil/ClassFinding.kt:1093-1095 | appends the owner test; afterwards matches exactly the earlier matches that are calls on the type's internal name |
| Matching.CallContext.CalledWith | src/main/kotlin/com/grappenmaker/jvmutil/ClassFinding.kt:1107-1109 | appends the opcode test; afterwards matches exactly the earlier matches that are calls with that opcode |
| Matching.CallContext.NoMatch | src/main/kotlin/com/grappenmaker/jvmutil/ClassFinding.kt:1121-1123 | appends the matcher that refuses everything |
| Matching.ReferenceContext.constructor | src/main/kotlin/com/grappenmaker/jvmutil/ClassFinding.kt:1135-1141 | no matchers |
| Matching.ReferenceContext.Match | src/main/kotlin/com/grappenmaker/jvmutil/ClassFinding.kt:1167-1183 | appends the matcher; afterwards matches exactly the field accesses it matched before that also satisfy the matcher |
| Matching.ReferenceContext.Named | src/main/kotlin/com/grappenmaker/jvmutil/ClassFinding.kt:1146-1148 | appends the name test; afterwards matches exactly the earlier matches that are field accesses with that name |
| Matching.ReferenceContext.IsType | src/main/kotlin/com/grappenmaker/jvmutil/ClassFinding.kt:1153-1155 | appends the type test; afterwards matches exactly the earlier matches that are field accesses whose descriptor parses as the type |
| Matching.ReferenceContext.OwnedBy | src/main/kotlin/com/grappenmaker/jvmutil/ClassFinding.kt:1160-1162 | appends the owner test; afterwards matches exactly the earlier matches that are field accesses on the type's internal name |
| Matching.ReferenceContext.CalledWith | src/main/kotlin/com/grappenmaker/jvmutil/ClassFinding.kt:1174-1176 | appends the opcode test; afterwards matches exactly the earlier matches that are field accesses with that opcode |
| Matching.ReferenceContext.NoMatch | src/main/kotlin/com/grappenmaker/jvmutil/ClassFinding.kt:1188-1190 | appends the matcher that refuses everything |
| Matching.MethodContext.constructor | src/main/kotlin/com/grappenmaker/jvmutil/ClassFinding.kt:740-771 | no matchers, no transforms, not allowed to be missing |
| Matching.MethodContext.Match | src/main/kotlin/com/grappenmaker/jvmutil/ClassFinding.kt:812-814 | appends the matcher; afterwards matches exactly the methods it matched before that also satisfy the matcher |
| Matching.MethodContext.SetAllowMissing | src/main/kotlin/com/grappenmaker/jvmutil/ClassFinding.kt:769 | sets `allowMissing` and nothing else |
| Matching.MethodContext.Transform | src/main/kotlin/com/grappenmaker/jvmutil/ClassFinding.kt:992-994 | appends the transform block |
| Matching.MethodContext.ConstantsHas | src/main/kotlin/com/grappenmaker/jvmutil/ClassFinding.kt:777-779 | appends the method-constant test; afterwards matches exactly the earlier matches that have the constant |
| Matching.MethodContext.StringsHas | src/main/kotlin/com/grappenmaker/jvmutil/ClassFinding.kt:784-786 | appends the string test; afterwards matches exactly the earlier matches whose strings contain the string |
| Matching.MethodContext.StringsHasAll | src/main/kotlin/com/grappenmaker/jvmutil/ClassFinding.kt:791-793 | appends the test that every listed string is present; afterwards matches exactly the earlier matches whose strings contain every listed string |
| Matching.MethodContext.StringsSome | src/main/kotlin/com/grappenmaker/jvmutil/ClassFinding.kt:798-807 | appends the test that some string satisfies the predicate; afterwards matches exactly the earlier matches with a string satisfying the predicate |
| Matching.MethodContext.HasDesc | src/main/kotlin/com/grappenmaker/jvmutil/ClassFinding.kt:819-821 | appends the descriptor test; afterwards matches exactly the earlier matches with that descriptor |
| Matching.MethodContext.Calls | src/main/kotlin/com/grappenmaker/jvmutil/ClassFinding.kt:826-830 | appends the test that some call satisfies the call context; afterwards matches exactly the earlier matches with a call instruction the call context matches |
| Matching.MethodContext.CallsSuper | src/main/kotlin/com/grappenmaker/jvmutil/ClassFinding.kt:835-837 | appends the super-call test; afterwards matches exactly the earlier matches containing an INVOKESPECIAL of their own name and descriptor |
| Matching.MethodContext.References | src/main/kotlin/com/grappenmaker/jvmutil/ClassFinding.kt:842-846 | appends the test that some field access satisfies the reference context; afterwards matches exactly the earlier matches with a field access the reference context matches |
| Matching.MethodContext.CallsDescribed | src/main/kotlin/com/grappenmaker/jvmutil/ClassFinding.kt:850-852 | appends the corrected described-call test; afterwards matches exactly the earlier matches with a call similar to the description, owner included (the corrected test) |
| Matching.MethodContext.CallsData | src/main/kotlin/com/grappenmaker/jvmutil/ClassFinding.kt:857 | appends the described-call test for the data's description |
| Matching.MethodContext.Nth | src/main/kotlin/com/grappenmaker/jvmutil/ClassFinding.kt:863-872 | appends the test of argument n, false out of range; afterwards matches exactly the earlier matches whose argument n is the type (none out of range) |
| Matching.MethodContext.HasArgument | src/main/kotlin/com/grappenmaker/jvmutil/ClassFinding.kt:877-879 | appends the argument membership test; afterwards matches exactly the earlier matches taking an argument of the type |
| Matching.MethodContext.Count | src/main/kotlin/com/grappenmaker/jvmutil/ClassFinding.kt:884-891 | appends the argument-count test; afterwards matches exactly the earlier matches with that many arguments |
| Matching.MethodContext.HasExact | src/main/kotlin/com/grappenmaker/jvmutil/ClassFinding.kt:896-898 | appends the whole-list test; afterwards matches exactly the earlier matches whose argument list is the list |
| Matching.MethodContext.Returns | src/main/kotlin/com/grappenmaker/jvmutil/ClassFinding.kt:903-910 | appends the return-type test; afterwards matches exactly the earlier matches returning the type |
| Matching.MethodContext.ReturnsSelf | src/main/kotlin/com/grappenmaker/jvmutil/ClassFinding.kt:915-917 | appends the test that the method returns its owner; afterwards matches exactly the earlier matches whose return type names their owner |
| Matching.MethodContext.ReturnsPrimitive | src/main/kotlin/com/grappenmaker/jvmutil/ClassFinding.kt:922-924 | appends the primitive-return test; afterwards matches exactly the earlier matches returning a primitive |
| Matching.MethodContext.Access | src/main/kotlin/com/grappenmaker/jvmutil/ClassFinding.kt:929-968 | appends the flag test; afterwards matches exactly the earlier matches with the flag set |
| Matching.MethodContext.IsVirtual | src/main/kotlin/com/grappenmaker/jvmutil/ClassFinding.kt:941-943 | appends the not-static test; afterwards matches exactly the earlier matches without the static flag |
| Matching.MethodContext.Named | src/main/kotlin/com/grappenmaker/jvmutil/ClassFinding.kt:973-987 | appends the name test; afterwards matches exactly the earlier matches with that name |
| Matching.MethodContext.MatchLazy | src/main/kotlin/com/grappenmaker/jvmutil/ClassFinding.kt:1000-1002 | appends the test of the lazily built context; afterwards matches exactly the earlier matches that satisfy every matcher of the block |
| Matching.MethodContext.NoMatch | src/main/kotlin/com/grappenmaker/jvmutil/ClassFinding.kt:1014-1016 | appends the matcher that refuses everything |
| Matching.FieldContext.constructor | src/main/kotlin/com/grappenmaker/jvmutil/ClassFinding.kt:1202-1213 | no matchers, not allowed to be missing |
| Matching.FieldContext.Match | src/main/kotlin/com/grappenmaker/jvmutil/ClassFinding.kt:1280-1289 | appends the matcher; afterwards matches exactly the fields it matched before that also satisfy the matcher |
| Matching.FieldContext.SetAllowMissing | src/main/kotlin/com/grappenmaker/jvmutil/ClassFinding.kt:1211 | sets `allowMissing` and nothing else |
| Matching.FieldContext.IsType | src/main/kotlin/com/grappenmaker/jvmutil/ClassFinding.kt:1218-1232 | appends the type test; afterwards matches exactly the earlier matches whose descriptor is the type's |
| Matching.FieldContext.IsTypeDesc | src/main/kotlin/com/grappenmaker/jvmutil/ClassFinding.kt:1225-1227 | appends the descriptor test; afterwards matches exactly the earlier matches with that descriptor |
| Matching.FieldContext.StaticValue | src/main/kotlin/com/grappenmaker/jvmutil/ClassFinding.kt:1237-1239 | appends the constant-value test; afterwards matches exactly the earlier matches whose constant value is the given one (none for null) |
| Matching.FieldContext.Access | src/main/kotlin/com/grappenmaker/jvmutil/ClassFinding.kt:1244-1275 | appends the flag test; afterwards matches exactly the earlier matches with the flags set |
| Matching.FieldContext.Named | src/main/kotlin/com/grappenmaker/jvmutil/ClassFinding.kt:1248-1250 | appends the name test; afterwards matches exactly the earlier matches with that name |
| Matching.FieldContext.MatchLazy | src/main/kotlin/com/grappenmaker/jvmutil/ClassFinding.kt:1295-1297 | appends the test of the lazily built context; afterwards matches exactly the earlier matches that satisfy every matcher of the block |
| Matching.FieldContext.NoMatch | src/main/kotlin/com/grappenmaker/jvmutil/ClassFinding.kt:1302-1304 | appends the matcher that refuses everything |
| Matching.ClassContext.constructor | src/main/kotlin/com/grappenmaker/jvmutil/ClassFinding.kt:512-541 | no matchers, entities, transforms or hooks, threshold 1.0, unnamed counter 0 |
| Matching.ClassContext.Match | src/main/kotlin/com/grappenmaker/jvmutil/ClassFinding.kt:574-576 | appends the matcher and changes nothing else; afterwards matches exactly the classes it matched before that also satisfy the matcher |
| Matching.ClassContext.ConstantsHas | src/main/kotlin/com/grappenmaker/jvmutil/ClassFinding.kt:546-548 | appends the class-constant test (methods and fields); afterwards matches exactly the earlier matches whose constants (methods and fields) contain the value |
| Matching.ClassContext.StringsHas | src/main/kotlin/com/grappenmaker/jvmutil/ClassFinding.kt:553-555 | appends the string test; afterwards matches exactly the earlier matches whose strings contain the string |
| Matching.ClassContext.StringsSome | src/main/kotlin/com/grappenmaker/jvmutil/ClassFinding.kt:560-569 | appends the test that some string satisfies the predicate; afterwards matches exactly the earlier matches with a string satisfying the predicate |
| Matching.ClassContext.IsEnum | src/main/kotlin/com/grappenmaker/jvmutil/ClassFinding.kt:581-583 | appends the superclass-is-Enum test; afterwards matches exactly the earlier matches whose superclass is `java/lang/Enum` |
| Matching.ClassContext.Access | src/main/kotlin/com/grappenmaker/jvmutil/ClassFinding.kt:588-641 | appends the flag test; afterwards matches exactly the earlier matches with the flag set |
| Matching.ClassContext.Named | src/main/kotlin/com/grappenmaker/jvmutil/ClassFinding.kt:595-597 | appends the name test; afterwards matches exactly the earlier matches with that name |
| Matching.ClassContext.Extends | src/main/kotlin/com/grappenmaker/jvmutil/ClassFinding.kt:602-604 | appends the superclass test; afterwards matches exactly the earlier matches with that superclass |
| Matching.ClassContext.Implements | src/main/kotlin/com/grappenmaker/jvmutil/ClassFinding.kt:609-611 | appends the interface test; afterwards matches exactly the earlier matches implementing the interface |
| Matching.ClassContext.SetExistingThreshold | src/main/kotlin/com/grappenmaker/jvmutil/ClassFinding.kt:535 | sets the threshold and nothing else |
| Matching.ClassContext.AddMethod | src/main/kotlin/com/grappenmaker/jvmutil/ClassFinding.kt:702-704 | puts the method entity under its name |
| Matching.ClassContext.UnnamedMethod | src/main/kotlin/com/grappenmaker/jvmutil/ClassFinding.kt:706-713 | puts the entity under "__unnamed" and the counter's value, and increments the counter |
| Matching.ClassContext.AddField | src/main/kotlin/com/grappenmaker/jvmutil/ClassFinding.kt:726-728 | puts the field entity under its name |
| Matching.ClassContext.Transform | src/main/kotlin/com/grappenmaker/jvmutil/ClassFinding.kt:656-658 | appends the class transform block |
| Matching.ClassContext.OnFound | src/main/kotlin/com/grappenmaker/jvmutil/ClassFinding.kt:678-680 | appends the found hook |
| Matching.MethodByFinder | src/main/kotlin/com/grappenmaker/jvmutil/ClassFinding.kt:1325-1328 | a method of the class that the context matches, and none iff no method matches |
| Matching.AllMethodsByFinder | src/main/kotlin/com/grappenmaker/jvmutil/ClassFinding.kt:1333-1336 | exactly the methods of the class the context matches, in the class's order and multiplicity |
| Finder.Found | src/main/kotlin/com/grappenmaker/jvmutil/ClassFinding.kt:195-204 | at most one binding per declared entity, each under a declared name |
| Finder.FoundAllIff | src/main/kotlin/com/grappenmaker/jvmutil/ClassFinding.kt:195-204 | every entity is bound iff every entity finds a candidate |
| Finder.FoundBindsFirstMatch | src/main/kotlin/com/grappenmaker/jvmutil/ClassFinding.kt:195-204 | after `findAll` each entity's slot holds the first element its matchers accept, or its old content when none does |
| Finder.FoundStep | src/main/kotlin/com/grappenmaker/jvmutil/ClassFinding.kt:198-202 | one more entity keeps the search successful iff it finds a candidate or may be missing |
| Finder.FindAll | src/main/kotlin/com/grappenmaker/jvmutil/ClassFinding.kt:195-204 | the loop's result is `FindAllSpec`; slots are neither added nor removed, and on success hold the bindings |
| Finder.OfferSlot | src/main/kotlin/com/grappenmaker/jvmutil/ClassFinding.kt:323-325 | keeps the slot names |
| Finder.WriteSlots | src/main/kotlin/com/grappenmaker/jvmutil/ClassFinding.kt:198-202 | keeps the slot names |
| Finder.WriteSlotsElsewhere | src/main/kotlin/com/grappenmaker/jvmutil/ClassFinding.kt:198-202 | a slot no binding names keeps its content |
| Finder.ClearSlots | src/main/kotlin/com/grappenmaker/jvmutil/ClassFinding.kt:335-337 | keeps the names and empties every slot |
| Finder.ClearSlotsByKeys | src/main/kotlin/com/grappenmaker/jvmutil/ClassFinding.kt:335-337 | cleared slots depend only on the names |
| Finder.EmptySlots | src/main/kotlin/com/grappenmaker/jvmutil/ClassFinding.kt:344-346 | one empty slot per declared name |
| Finder.SlotContainer.constructor | src/main/kotlin/com/grappenmaker/jvmutil/ClassFinding.kt:344-346 | one empty slot per declared entity |
| Finder.SlotContainer.Offer | src/main/kotlin/com/grappenmaker/jvmutil/ClassFinding.kt:323-325 | writes the element into a known slot |
| Finder.SlotContainer.Reset | src/main/kotlin/com/grappenmaker/jvmutil/ClassFinding.kt:335-337 | empties every slot |
| Finder.SlotContainer.GetValue | src/main/kotlin/com/grappenmaker/jvmutil/ClassFinding.kt:327-330 | fails iff the name has no slot, else gives the slot |
| Finder.SlotContainer.Get | src/main/kotlin/com/grappenmaker/jvmutil/ClassFinding.kt:332-333 | fails iff the name has no slot, else gives the slot |
| Finder.HookRuns | src/main/kotlin/com/grappenmaker/jvmutil/ClassFinding.kt:238-247 | one run per hook, in order, each on the class |
| Finder.AsClassTransforms | src/main/kotlin/com/grappenmaker/jvmutil/ClassFinding.kt:256-266 | one class transform per method transform block of a found method, each aimed at that method's own description and carrying that block's transforms |
| Finder.AcceptsBySearch | src/main/kotlin/com/grappenmaker/jvmutil/ClassFinding.kt:213-233 | a class its matchers accept is found iff every required entity is found and the share of found entities is not below the threshold |
| Finder.ClassFinder.constructor | src/main/kotlin/com/grappenmaker/jvmutil/ClassFinding.kt:187-190 | no class, no hooks run, one empty slot per entity |
| Finder.ClassFinder.Reset | src/main/kotlin/com/grappenmaker/jvmutil/ClassFinding.kt:275-279 | clears the class slot and every named slot; `ranFoundHooks` stays |
| Finder.ClassFinder.RunHooks | src/main/kotlin/com/grappenmaker/jvmutil/ClassFinding.kt:238-247 | logs one run per hook, in order, and changes nothing else |
| Finder.ClassFinder.Search | src/main/kotlin/com/grappenmaker/jvmutil/ClassFinding.kt:217-222 | searches methods then fields, writing the slots on success and keeping their names |
| Finder.ClassFinder.Offer | src/main/kotlin/com/grappenmaker/jvmutil/ClassFinding.kt:206-272 | the new state and the answer are `OfferSpec` of the old state |
| Finder.ClassFinder.Bind | src/main/kotlin/com/grappenmaker/jvmutil/ClassFinding.kt:235-247 | holds the class, and runs the finder's then the context's hooks only if they had not run |
| Finder.ClassFinder.Assume | src/main/kotlin/com/grappenmaker/jvmutil/ClassFinding.kt:305 | fails iff no class is held, else gives it |
| Finder.ClassFinder.OnFound | src/main/kotlin/com/grappenmaker/jvmutil/ClassFinding.kt:315-317 | appends the hook and changes nothing else |
| Finder.OfferSkips | src/main/kotlin/com/grappenmaker/jvmutil/ClassFinding.kt:207-211 | Skip iff a class is held and either no transform is asked or the name differs, and then nothing changes |
| Finder.OfferNoMatch | src/main/kotlin/com/grappenmaker/jvmutil/ClassFinding.kt:213-233 | NoMatch iff not skipped and not accepted; refused by the class matchers nothing changes, else the class and every slot are cleared and the hooks untouched |
| Finder.OfferFoundState | src/main/kotlin/com/grappenmaker/jvmutil/ClassFinding.kt:217-235 | a found class is held and the slots hold the bindings |
| Finder.OfferBindsMethods | src/main/kotlin/com/grappenmaker/jvmutil/ClassFinding.kt:195-204 | each method slot holds the class's first method its matchers accept, or keeps its content |
| Finder.OfferBindsFields | src/main/kotlin/com/grappenmaker/jvmutil/ClassFinding.kt:195-204 | each field slot holds the class's first field its matchers accept, or keeps its content |
| Finder.MethodByFinderIsFind | src/main/kotlin/com/grappenmaker/jvmutil/ClassFinding.kt:1325-1328 | `methodByFinder` is the search a method slot is bound by |
| Finder.ShareBounds | src/main/kotlin/com/grappenmaker/jvmutil/ClassFinding.kt:229-232 | a share is never negative and is below one iff some entity is missing |
| Finder.ThresholdZero | src/main/kotlin/com/grappenmaker/jvmutil/ClassFinding.kt:224-233 | a threshold of zero or below refuses nothing |
| Finder.ThresholdOne | src/main/kotlin/com/grappenmaker/jvmutil/ClassFinding.kt:224-233 | with threshold one a share passes iff it is whole |
| Finder.FoundCountIff | src/main/kotlin/com/grappenmaker/jvmutil/ClassFinding.kt:224-233 | found entities never exceed the declared ones, and equal them iff every entity finds a candidate |
| Finder.ThresholdBounds | src/main/kotlin/com/grappenmaker/jvmutil/ClassFinding.kt:224-233 | a threshold of zero or below never refuses, and the default of one requires every entity, optional ones included |
| Finder.OfferRunsHooksOnce | src/main/kotlin/com/grappenmaker/jvmutil/ClassFinding.kt:236-247 | once the hooks ran an offer leaves the log; before that it leaves it or runs the finder's then the context's hooks on the found class |
| Finder.HooksRunAtMostOnce | src/main/kotlin/com/grappenmaker/jvmutil/ClassFinding.kt:236-279 | over any run of offers the hooks run at most once, as one batch |
| Finder.OffersKeepLogOnceRan | src/main/kotlin/com/grappenmaker/jvmutil/ClassFinding.kt:275-279 | after the hooks ran no offer touches the log, resets included |
| Finder.OfferAnswers | src/main/kotlin/com/grappenmaker/jvmutil/ClassFinding.kt:249-272 | NoTransformRequest without a transform; NotInterested iff there are no transforms; otherwise class transforms first, expand = any, compute frames = all |
| Finder.RequestsAreNonEmpty | src/main/kotlin/com/grappenmaker/jvmutil/ClassFinding.kt:270-271 | a transform request always carries transforms and only answers a transform offer |
| Finder.BoxElementFinder.constructor | src/main/kotlin/com/grappenmaker/jvmutil/ClassFinding.kt:414 | holds the given value |
| Finder.BoxElementFinder.Assume | src/main/kotlin/com/grappenmaker/jvmutil/ClassFinding.kt:415 | fails iff empty, else gives the value |
| Finder.BoxElementFinder.Reset | src/main/kotlin/com/grappenmaker/jvmutil/ClassFinding.kt:418-420 | empties the box |
| Finder.LazyElementFinder.constructor | src/main/kotlin/com/grappenmaker/jvmutil/ClassFinding.kt:423-424 | starts empty |
| Finder.LazyElementFinder.Nullable | src/main/kotlin/com/grappenmaker/jvmutil/ClassFinding.kt:426-428 | a cached value wins; otherwise the supplier's answer is cached and returned |
| Finder.LazyElementFinder.Assume | src/main/kotlin/com/grappenmaker/jvmutil/ClassFinding.kt:426-427 | fails iff neither the cache nor the supplier has a value, else gives it and caches it |
| Finder.LazyElementFinder.Reset | src/main/kotlin/com/grappenmaker/jvmutil/ClassFinding.kt:429-431 | empties the cache |
| Finder.MapSupplied | src/main/kotlin/com/grappenmaker/jvmutil/ClassFinding.kt:439-440 | present iff the source is, and then the block applied to it |
| Finder.LateFinder.constructor | src/main/kotlin/com/grappenmaker/jvmutil/ClassFinding.kt:351-353 | keeps the candidates and matchers and starts empty |
| Finder.LateFinder.GetValue | src/main/kotlin/com/grappenmaker/jvmutil/ClassFinding.kt:354-365 | a cached answer wins; fails while the class is not found; else searches the found class once and caches the result |
| Finder.FlattenFilter | src/main/kotlin/com/grappenmaker/jvmutil/ClassFinding.kt:123-128 | flattening only the requests gives the same transforms as flattening all answers |
| Finder.TransformDecisionIff | src/main/kotlin/com/grappenmaker/jvmutil/ClassFinding.kt:123-136 | a plan iff some request carries transforms; its transforms are concatenated in finder order, expand = any, compute frames = all |
| Finder.FlattenNonEmptyIff | src/main/kotlin/com/grappenmaker/jvmutil/ClassFinding.kt:123-128 | the flattened list is non-empty iff some request has a transform |
| Finder.FinderContext.constructor | src/main/kotlin/com/grappenmaker/jvmutil/ClassFinding.kt:27-31 | no finders and the given skip prefixes |
| Finder.FinderContext.FindClass | src/main/kotlin/com/grappenmaker/jvmutil/ClassFinding.kt:91-92 | appends a fresh finder in its initial state |
| Finder.FinderContext.OfferAll | src/main/kotlin/com/grappenmaker/jvmutil/ClassFinding.kt:95-99 | offers the class to every finder in order; each new state and answer is its `OfferSpec` |
| Finder.FinderContext.Transform | src/main/kotlin/com/grappenmaker/jvmutil/ClassFinding.kt:109-139 | an excluded (system or skipped) class gives no plan and touches no finder; else every finder is offered the class and the plan is `TransformDecision` of their answers |
| Finder.ExcludedExamples | src/main/kotlin/com/grappenmaker/jvmutil/ClassFinding.kt:116-117 | skip prefixes are compared with the dotted binary name: `net.minecraft.` excludes `net/minecraft/client/Minecraft`, `net/minecraft/` does not, and JDK classes are always excluded |
| Finder.PlanIffSomeRequest | src/main/kotlin/com/grappenmaker/jvmutil/ClassFinding.kt:123-136 | with real finders' answers, a plan is made iff some finder asks for a transform |
| Finder.RecipeParts | src/main/kotlin/com/grappenmaker/jvmutil/ClassFinding.kt:1384-1386 | one part per field name, the name followed by "=" and the placeholder |
| Finder.RecipeBody | src/main/kotlin/com/grappenmaker/jvmutil/ClassFinding.kt:1384 | the text between the first '(' and the last ')' of a recipe is its body |
| Finder.RecipePartsSplit | src/main/kotlin/com/grappenmaker/jvmutil/ClassFinding.kt:1385 | splitting the body at ", " gives the parts back |
| Finder.RecipeNamesRoundTrip | src/main/kotlin/com/grappenmaker/jvmutil/ClassFinding.kt:1376-1392 | the recipe split recovers exactly the field names the `toString` was built from |

## Left out

- Agent plumbing is not modelled: `registerWith`, `finders`, `byNode` and its retransformation, the `ClassFileTransformer`, and `getAppClasses`. They are Instrumentation wiring; only the decision of `FinderContext.transform` is kept.
- Byte handling is not modelled: ClassReader/ClassWriter encoding, `transform`/`transformDefault`, `asClassNode`, `debug`, `toByteArray`, and the frame computation. The model works on events, not bytes.
- Reflection and class loading are not modelled: `asMethod`, `tryInvoke`, Reflect.kt, `AccessorRegistry`, the lazy accessor glue, `implInitREDs`, `wrapAccessor` and `enumFinder`. The code `implementField` and `implementMethod` generate beyond the parameter loading is left out for the same reason. CompoundLoader.kt and ApplicationLoader.kt are not part of this model.
- Printing, logging, `printStackTrace` and the `runCatching` around offers and hooks are left out. A failing hook is modelled as one that runs; the failures themselves are not.
- The float and double branches of `loadConstant` load the value with LDC. The FCONST/DCONST shortcuts are not modelled, because floats are opaque values here.
- Finder.BelowThreshold: the `Double` division found/declared < threshold is modelled with exact reals, so rounding is not modelled.
- `AnalyzerAdapter.addCurrentFrame` is left out; only `asFrameValues` is modelled.
- The rest of `useStringInfo` (the walk over getters), `stringDataFinder`, `addBuilderFields`, `constantReplacement(s)`, `transformMethods`, `namedTransform`, `clinit` and `MethodInsnNode.matches` are not modelled. They are thin DSL compositions of modelled operations.
- The `concat` DSL, the print helpers, `getObject`, `getCompanion`, `cast`, `loadThis` and `visitField` are not modelled. They are one-instruction wrappers or unrelated to the core.
- Found hooks, transform blocks and matchers supplied by a block are values (identifiers or functions). The model does not execute the user's code inside them.
- Finder.ClassFinder.Offer: the named slots are values in maps rather than shared `BoxElementFinder` objects, so aliasing between a slot and a delegate read elsewhere is not modelled.
- Finder.LazyElementFinder.Nullable: the supplier is passed as its current answer, a parameter, instead of a closure called inside.
- JvmTypes.ArgumentTypes: a malformed descriptor gives `None`, where ASM's behaviour on malformed input is unspecified.
- Transforming.MethodTransformContext.Add: requires `NoReentry`, i.e. handlers do not emit what their own visitor intercepts. The source re-enters the wrapping visitor (Transforming.kt:210, 223, 264, 295), and for such handlers it would recurse without end.
- Transforming.MethodTransformContext.MethodEnter: requires that the handler emits no `visitCode`, for the same re-entry reason.
- Transforming.MethodTransformContext.MethodExit: requires that the handler emits no exit instruction, for the same reason.
- Transforming.MethodTransformContext.MethodExitOn: requires that the handler emits no exit instruction, for the same reason.
- Transforming.MethodTransformContext.AdviceBoth: requires both of the handler conditions above.
- Transforming.MethodTransformContext.CallAdvice: requires, without `handleOnce`, that the handlers emit no matching call, for the same reason.
- Transforming.MethodTransformContext.ReplaceCallWith: requires that the replacement emits no matching call, for the same reason.
- Transforming.MethodTransformContext.FixedValue: a constant `loadConstant` cannot load fails when the DSL call is made, not later when the body is written.
- KotlinStrings.LowerFirst: lower-cases ASCII capitals only. Kotlin's `lowercase()` follows Unicode, changes other letters too, and can lengthen the string (`'İ'` becomes two characters), so "keeps the length" holds only for ASCII names.
- Matching.MethodContext.MatchLazy: the block is stored as the list of matchers it registers when the call is made. The source re-runs the block in a fresh context for every candidate (ClassFinding.kt:1000-1002), so a block whose matchers depend on state that changes later, such as another finder's result, is not modelled.
- Matching.FieldContext.MatchLazy: as for methods (ClassFinding.kt:1295-1297).
- Concurrency is not modelled. `accessorCounter` is an unsynchronized global (Accessors.kt:16-17), and a `ClassFileTransformer` may call `FinderContext.transform` from several threads. `Accessors.AccessorNamesUnique` and `Finder.HooksRunAtMostOnce` hold for calls made one at a time.
- User visitors: a visitor passed to `add` or `visitor` (Transforming.kt:135, 184) is modelled as `Transform.Custom`, a stateless rewriter from one event to a list of events. An ASM `MethodVisitor` wrapper may keep state across events, look ahead or buffer, and such a wrapper is not modelled.
- JvmTypes.Size: gives 1 for a method type, where ASM's `Type.getSize` throws. The model only asks it for argument types, which `Accessors.LoadAccessorParams` requires to be field types.
- Hierarchy.Valid: the `depth` rank excludes cyclic superclass chains. On a cycle, the source's `getParents` (LoaderClassWriter.kt:41-44) recurses until the stack overflows; that case is not modelled.
- Accessors.LoadAccessorParams: arguments are limited to fewer than 2^31, the JVM's own bound on indices, so the index pushes are well defined.

## Findings

| source | as written | input that shows it | evidently intended | confidence | as-written member | corrected member |
|---|---|---|---|---|---|---|
| src/main/kotlin/com/grappenmaker/jvmutil/VisitorExtensions.kt:366-369 | a `Char` is loaded with BIPUSH of its code and I2C; ASM writes a BIPUSH operand as one byte | `loadConstant('È')`, code 200, loads the char 65480 | push the full 16-bit code, e.g. SIPUSH of the code's 16 bits then I2C | not executed | Emitters.LoadConstantAsWritten, Emitters.CharAsWrittenLoadsWrongCode | Emitters.LoadConstantInsns, Emitters.LoadConstantPushesValue |
| src/main/kotlin/com/grappenmaker/jvmutil/VisitorExtensions.kt:496 | `unbox(LONG_TYPE)` calls `java/lang/Number.longValue` with descriptor "()L" | `unbox(Type.LONG_TYPE)` emits a call no method matches, which fails at link time | descriptor "()J" | not executed | Emitters.UnboxTargetAsWritten, Emitters.UnboxLongAsWrittenIsMalformed | Emitters.UnboxTarget, Emitters.UnboxCallsTypedValue |
| src/main/kotlin/com/grappenmaker/jvmutil/Transforming.kt:339-344 | `replaceConstants` re-emits every int-operand instruction as `loadConstant(operand)` | `NEWARRAY T_INT` (operand 10) becomes a push of 10, so no array is created | re-emit only BIPUSH/SIPUSH as constant loads and pass NEWARRAY through | not executed | Transforming.ReplaceIntInsnAsWritten, Transforming.ReplaceConstantsDropsNewArrayAsWritten | Transforming.ReplaceIntInsn, Transforming.ReplaceConstantsKeepsIntPushes |
| src/main/kotlin/com/grappenmaker/jvmutil/ClassFinding.kt:850-852 | `calls(desc)` tests whether the matched method itself is similar to `desc` | a method that calls `desc` is refused, and `desc` itself, calling nothing, is accepted | some call instruction of the method is similar to `desc` | not executed | Matching.MethodCallsDescribedAsWritten, Matching.CallsDescribedAsWrittenTestsTheMethod | Matching.MethodCallsDescribed, Matching.CallsDescribedIff |
| src/main/kotlin/com/grappenmaker/jvmutil/Accessors.kt:270-275 | a reflected method's field is declared by `implementRED` every time it is reflected, while fields are declared only when `reflectedElements.add` is true | an interface with `foo(I)V` and `foo(J)V` both bound by name to one private `foo(I)V` declares the reflected field twice, and the class writer emits a class the JVM rejects as a duplicate field | declare the field only when `reflectedElements.add(rmd)` is true, as for fields | not executed | Accessors.RedDeclarationsAsWritten, Accessors.DuplicateRedAsWritten | Accessors.RedDeclarations, Accessors.RedDeclarationsDistinct |
