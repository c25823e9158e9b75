/** Method and field descriptions (Descriptions.kt): plain records naming a
    member and its owner, their similarity test, their conversions from
    class-file nodes, and the choice of invoke instruction. */
module Descriptions {
  import opened Wrappers
  import opened KotlinStrings
  import opened Jvm
  import opened Extensions

  /** `MethodDescription`; `isInterface` says whether the owner is an
      interface. */
  datatype MethodDescription = MethodDescription(
    name: string, descriptor: string, owner: string, access: bv32, isInterface: bool)
  {
    predicate IsPublic() { Extensions.IsPublic(access) }
    predicate IsPrivate() { Extensions.IsPrivate(access) }
    predicate IsProtected() { Extensions.IsProtected(access) }
    predicate IsStatic() { Extensions.IsStatic(access) }
    predicate IsFinal() { Extensions.IsFinal(access) }
    predicate IsConstructor() { IsConstructorName(name) }
  }

  /** `FieldDescription`. */
  datatype FieldDescription = FieldDescription(name: string, descriptor: string, owner: string, access: bv32)
  {
    predicate IsPublic() { Extensions.IsPublic(access) }
    predicate IsPrivate() { Extensions.IsPrivate(access) }
    predicate IsStatic() { Extensions.IsStatic(access) }
    predicate IsFinal() { Extensions.IsFinal(access) }
  }

  /** A method together with the class that declares it. */
  datatype MethodData = MethodData(owner: ClassRecord, node: MethodRecord)

  /** A field together with the class that declares it. */
  datatype FieldData = FieldData(owner: ClassRecord, field: FieldRecord)

  /** `isSimilar`: same name and descriptor, and the same owner unless
      `matchOwner` is off. Access and the interface flag are ignored. */
  predicate IsSimilar(a: MethodDescription, b: MethodDescription, matchOwner: bool) {
    a.name == b.name && a.descriptor == b.descriptor && (a.owner == b.owner || !matchOwner)
  }

  /** Similarity is equality up to the fields it ignores. */
  lemma SimilarMeansEqualUpToIgnored(a: MethodDescription, b: MethodDescription)
    ensures IsSimilar(a, b, true) <==> a.(access := b.access, isInterface := b.isInterface) == b
    ensures IsSimilar(a, b, false) <==> a.(owner := b.owner, access := b.access, isInterface := b.isInterface) == b
  {
  }

  /** Similarity, with or without owners, is an equivalence, and matching
      owners only makes it stricter. */
  lemma SimilarIsEquivalence(a: MethodDescription, b: MethodDescription, c: MethodDescription, matchOwner: bool)
    ensures IsSimilar(a, a, matchOwner)
    ensures IsSimilar(a, b, matchOwner) ==> IsSimilar(b, a, matchOwner)
    ensures IsSimilar(a, b, matchOwner) && IsSimilar(b, c, matchOwner) ==> IsSimilar(a, c, matchOwner)
    ensures IsSimilar(a, b, true) ==> IsSimilar(a, b, matchOwner)
  {
  }

  /** `MethodData.asDescription()`: the interface flag comes from the owner's
      access. */
  function DataAsDescription(d: MethodData): (r: MethodDescription)
    ensures r.name == d.node.name && r.descriptor == d.node.desc && r.owner == d.owner.name
    ensures r.access == d.node.access && r.isInterface == IsInterface(d.owner.access)
  {
    MethodDescription(d.node.name, d.node.desc, d.owner.name, d.node.access, IsInterface(d.owner.access))
  }

  /** `MethodNode.asDescription(owner, interfaceMethod = false)`. */
  function NodeAsDescription(m: MethodRecord, owner: string, interfaceMethod: bool): (r: MethodDescription)
    ensures r.name == m.name && r.descriptor == m.desc && r.owner == owner
    ensures r.access == m.access && r.isInterface == interfaceMethod
  {
    MethodDescription(m.name, m.desc, owner, m.access, interfaceMethod)
  }

  /** `MethodNode.asDescription(owner: ClassNode)`. */
  function NodeAsDescriptionIn(m: MethodRecord, owner: ClassRecord): (r: MethodDescription)
    ensures r.name == m.name && r.descriptor == m.desc && r.owner == owner.name
    ensures r.access == m.access && r.isInterface == IsInterface(owner.access)
  {
    NodeAsDescription(m, owner.name, IsInterface(owner.access))
  }

  /** `FieldData.asDescription()`. */
  function FieldDataAsDescription(d: FieldData): (r: FieldDescription)
    ensures r.name == d.field.name && r.descriptor == d.field.desc
    ensures r.owner == d.owner.name && r.access == d.field.access
  {
    FieldNodeAsDescription(d.field, d.owner.name)
  }

  /** `FieldNode.asDescription(owner)`; the `ClassNode` variant passes the
      owner's name. */
  function FieldNodeAsDescription(f: FieldRecord, owner: string): (r: FieldDescription)
    ensures r.name == f.name && r.descriptor == f.desc && r.owner == owner && r.access == f.access
  {
    FieldDescription(f.name, f.desc, owner, f.access)
  }

  /** Describing a method through its data or through the node and its owner
      gives the same description. */
  lemma DescriptionsAgree(owner: ClassRecord, m: MethodRecord)
    ensures DataAsDescription(MethodData(owner, m)) == NodeAsDescriptionIn(m, owner)
  {
  }

  /** `isSimilar(data)`: similarity to the data's description. */
  predicate IsSimilarToData(a: MethodDescription, d: MethodData, matchOwner: bool) {
    IsSimilar(a, DataAsDescription(d), matchOwner)
  }

  /** A description is similar to a method's data exactly when it names that
      method's name, descriptor and, if asked, owner. */
  lemma SimilarToDataIff(a: MethodDescription, d: MethodData, matchOwner: bool)
    ensures IsSimilarToData(a, d, matchOwner) <==>
      (a.name == d.node.name && a.descriptor == d.node.desc && (!matchOwner || a.owner == d.owner.name))
  {
  }

  // ---------------------------------------------------------------------
  // Invocation types

  /** `InvocationType`, each associated with its invoke opcode. */
  datatype InvocationType = SPECIAL | DYNAMIC | VIRTUAL | INTERFACE | STATIC
  {
    function Opcode(): int {
      match this
      case SPECIAL => INVOKESPECIAL
      case DYNAMIC => INVOKEDYNAMIC
      case VIRTUAL => INVOKEVIRTUAL
      case INTERFACE => INVOKEINTERFACE
      case STATIC => INVOKESTATIC
    }
  }

  /** `getFromOpcode`: the one type with that opcode; fails outside
      INVOKEVIRTUAL..INVOKEDYNAMIC. */
  function FromOpcode(opcode: int): (r: Result<InvocationType>)
    ensures r.Success? <==> INVOKEVIRTUAL <= opcode <= INVOKEDYNAMIC
    ensures r.Success? ==> r.value.Opcode() == opcode
    ensures r.Success? ==> forall t: InvocationType :: t.Opcode() == opcode ==> t == r.value
  {
    if !(INVOKEVIRTUAL <= opcode <= INVOKEDYNAMIC) then
      Failure("invoke opcode " + SignedDecimal(opcode) + " invalid!")
    else if opcode == INVOKEVIRTUAL then Success(VIRTUAL)
    else if opcode == INVOKESPECIAL then Success(SPECIAL)
    else if opcode == INVOKESTATIC then Success(STATIC)
    else if opcode == INVOKEINTERFACE then Success(INTERFACE)
    else Success(DYNAMIC)
  }

  /** Each type is recovered from its opcode, so distinct types have distinct
      opcodes. */
  lemma FromOpcodeRoundTrip(t: InvocationType, u: InvocationType)
    ensures FromOpcode(t.Opcode()) == Success(t)
    ensures t.Opcode() == u.Opcode() ==> t == u
  {
  }

  /** `MethodDescription.invocationType`. */
  function InvocationTypeOf(d: MethodDescription): (r: InvocationType)
    ensures r != DYNAMIC
    ensures r == SPECIAL <==> d.IsPrivate() || d.name == "<init>"
    ensures r == STATIC <==> !(d.IsPrivate() || d.name == "<init>") && d.IsStatic()
    ensures r == INTERFACE <==> !(d.IsPrivate() || d.name == "<init>") && !d.IsStatic() && d.isInterface
  {
    if d.IsPrivate() || d.name == "<init>" then SPECIAL
    else if d.IsStatic() then STATIC
    else if d.isInterface then INTERFACE
    else VIRTUAL
  }

  /** `MethodData.invocationType`: the same decision, reading the method's
      flags and the owner's interface flag. */
  function DataInvocationType(d: MethodData): InvocationType {
    if IsPrivate(d.node.access) || d.node.name == "<init>" then SPECIAL
    else if IsStatic(d.node.access) then STATIC
    else if IsInterface(d.owner.access) then INTERFACE
    else VIRTUAL
  }

  /** Both ways of choosing the invocation type agree. */
  lemma DataInvocationTypeAgrees(d: MethodData)
    ensures DataInvocationType(d) == InvocationTypeOf(DataAsDescription(d))
    ensures DataInvocationType(d) != DYNAMIC
  {
  }
}
