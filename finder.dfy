/** The finder engine (ClassFinding.kt): a `ClassFinder` is offered class
    nodes, binds the first one its `ClassContext` accepts together with the
    methods and fields it declares, and asks for the transforms of that
    class; a `FinderContext` combines the answers of all its finders.

    Every operation that changes state is a method proved against a pure
    function of the old state (`OfferSpec`, `TransformDecision`), and the
    properties of the finder are lemmas about those functions. */
module Finder {
  import opened Wrappers
  import opened KotlinStrings
  import opened Jvm
  import opened Extensions
  import opened Descriptions
  import opened Transforming
  import opened Matching

  // ---------------------------------------------------------------------
  // Binding entities (`findAll`)

  /** `ctx.matches(it)` for a context given by its matchers. */
  function Satisfies<T>(ms: seq<T -> bool>): T -> bool {
    (x: T) => All(ms, x)
  }

  /** The entities that find a candidate, in declaration order, each with
      its name, the first candidate its matchers accept, and itself. */
  function Found<T, E>(es: seq<(string, E)>, ms: E -> seq<T -> bool>, xs: seq<T>): (r: seq<(string, T, E)>)
    ensures |r| <= |es|
    ensures forall k :: 0 <= k < |r| ==> r[k].0 in Keys(es)
    decreases |es|
  {
    if |es| == 0 then []
    else
      var init := Found(es[..|es| - 1], ms, xs);
      var last := es[|es| - 1];
      assert forall k :: 0 <= k < |init| ==> init[k].0 in Keys(es) by {
        forall k | 0 <= k < |init| ensures init[k].0 in Keys(es) {
          var j :| 0 <= j < |es| - 1 && Keys(es[..|es| - 1])[j] == init[k].0;
          assert Keys(es)[j] == init[k].0;
        }
      }
      assert Keys(es)[|es| - 1] == last.0;
      match Find(xs, Satisfies(ms(last.1)))
      case Some(x) => init + [(last.0, x, last.1)]
      case None => init
  }

  /** Every entity that may not be missing finds a candidate. */
  predicate RequiredFound<T, E>(es: seq<(string, E)>, ms: E -> seq<T -> bool>, mayMiss: E -> bool, xs: seq<T>) {
    forall i :: 0 <= i < |es| ==> mayMiss(es[i].1) || Find(xs, Satisfies(ms(es[i].1))).Some?
  }

  /** What `findAll` returns: null when an entity that may not be missing
      finds nothing, else the found entities. */
  function FindAllSpec<T, E>(es: seq<(string, E)>, ms: E -> seq<T -> bool>, mayMiss: E -> bool, xs: seq<T>): Option<seq<(string, T, E)>> {
    if RequiredFound(es, ms, mayMiss, xs) then Some(Found(es, ms, xs)) else None
  }

  /** All entities are found exactly when as many are found as declared. */
  lemma {:induction false} FoundAllIff<T, E>(es: seq<(string, E)>, ms: E -> seq<T -> bool>, xs: seq<T>)
    ensures |Found(es, ms, xs)| == |es| <==> forall i :: 0 <= i < |es| ==> Find(xs, Satisfies(ms(es[i].1))).Some?
    decreases |es|
  {
    if |es| > 0 {
      var init := es[..|es| - 1];
      FoundAllIff(init, ms, xs);
      assert forall i :: 0 <= i < |init| ==> init[i] == es[i];
    }
  }

  // ---------------------------------------------------------------------
  // Named slots (`MatchContainer`)

  /** `MatchContainer.offer`: the slot of that name receives the element;
      a name without a slot changes nothing. */
  function OfferSlot<T>(slots: map<string, Option<T>>, name: string, x: T): (r: map<string, Option<T>>)
    ensures r.Keys == slots.Keys
  {
    if name in slots then slots[name := Some(x)] else slots
  }

  /** The slots after offering every found entity in order. */
  function WriteSlots<T, E>(slots: map<string, Option<T>>, found: seq<(string, T, E)>): (r: map<string, Option<T>>)
    ensures r.Keys == slots.Keys
    decreases |found|
  {
    if |found| == 0 then slots
    else
      var last := found[|found| - 1];
      OfferSlot(WriteSlots(slots, found[..|found| - 1]), last.0, last.1)
  }

  /** `reset()` on a container: every slot empty, none removed. */
  function ClearSlots<T>(slots: map<string, Option<T>>): (r: map<string, Option<T>>)
    ensures r.Keys == slots.Keys
    ensures forall k :: k in r ==> r[k] == None
  {
    map k | k in slots :: None
  }

  /** Clearing depends only on the slot names. */
  lemma ClearSlotsByKeys<T>(a: map<string, Option<T>>, b: map<string, Option<T>>)
    requires a.Keys == b.Keys
    ensures ClearSlots(a) == ClearSlots(b)
  {
  }

  /** The slots of a fresh container: one empty slot per declared name. */
  function EmptySlots<T, E>(es: seq<(string, E)>): (r: map<string, Option<T>>)
    ensures forall k :: k in r <==> k in Keys(es)
    ensures forall k :: k in r ==> r[k] == None
  {
    map k | k in Keys(es) :: None
  }

  /** Writing slots for names other than `k` leaves `k` alone. */
  lemma {:induction false} WriteSlotsElsewhere<T, E>(slots: map<string, Option<T>>, found: seq<(string, T, E)>, k: string)
    requires k in slots && forall i :: 0 <= i < |found| ==> found[i].0 != k
    ensures WriteSlots(slots, found)[k] == slots[k]
    decreases |found|
  {
    if |found| > 0 {
      WriteSlotsElsewhere(slots, found[..|found| - 1], k);
    }
  }

  /** The entities before the last one never carry its name. */
  lemma FoundBeforeLastOtherNames<T, E>(es: seq<(string, E)>, ms: E -> seq<T -> bool>, xs: seq<T>)
    requires DistinctKeys(es) && |es| > 0
    ensures DistinctKeys(es[..|es| - 1])
    ensures var fi := Found(es[..|es| - 1], ms, xs);
      forall i :: 0 <= i < |fi| ==> fi[i].0 != es[|es| - 1].0
  {
    var init := es[..|es| - 1];
    assert forall k :: 0 <= k < |init| ==> init[k] == es[k];
    var fi := Found(init, ms, xs);
    forall i | 0 <= i < |fi| ensures fi[i].0 != es[|es| - 1].0 {
      var a :| 0 <= a < |init| && Keys(init)[a] == fi[i].0;
    }
  }

  /** The found entities of all but the last, followed by the last one when
      it finds a candidate. */
  lemma FoundLast<T, E>(es: seq<(string, E)>, ms: E -> seq<T -> bool>, xs: seq<T>)
    requires |es| > 0
    ensures var m := Find(xs, Satisfies(ms(es[|es| - 1].1)));
      var fi := Found(es[..|es| - 1], ms, xs);
      var f := Found(es, ms, xs);
      (m.Some? ==> |f| > 0 && f[..|f| - 1] == fi && f[|f| - 1] == (es[|es| - 1].0, m.value, es[|es| - 1].1))
      && (m.None? ==> f == fi)
  {
    var m := Find(xs, Satisfies(ms(es[|es| - 1].1)));
    var fi := Found(es[..|es| - 1], ms, xs);
    if m.Some? {
      var f := fi + [(es[|es| - 1].0, m.value, es[|es| - 1].1)];
      assert Found(es, ms, xs) == f;
      assert f[..|f| - 1] == fi;
    }
  }

  /** The slot of the last entity holds what it finds, or keeps its
      content when it finds nothing. */
  lemma BindsLast<T, E>(slots: map<string, Option<T>>, es: seq<(string, E)>, ms: E -> seq<T -> bool>, xs: seq<T>)
    requires DistinctKeys(es) && |es| > 0 && es[|es| - 1].0 in slots
    ensures var m := Find(xs, Satisfies(ms(es[|es| - 1].1)));
      WriteSlots(slots, Found(es, ms, xs))[es[|es| - 1].0] == (if m.Some? then m else slots[es[|es| - 1].0])
  {
    var fi := Found(es[..|es| - 1], ms, xs);
    FoundLast(es, ms, xs);
    if Find(xs, Satisfies(ms(es[|es| - 1].1))).None? {
      FoundBeforeLastOtherNames(es, ms, xs);
      WriteSlotsElsewhere(slots, fi, es[|es| - 1].0);
    }
  }

  /** The last entity leaves the slots of the others alone. */
  lemma BindsBeforeLast<T, E>(slots: map<string, Option<T>>, es: seq<(string, E)>, ms: E -> seq<T -> bool>, xs: seq<T>, j: int)
    requires DistinctKeys(es) && 0 <= j < |es| - 1 && es[j].0 in slots
    ensures WriteSlots(slots, Found(es, ms, xs))[es[j].0] == WriteSlots(slots, Found(es[..|es| - 1], ms, xs))[es[j].0]
  {
    FoundLast(es, ms, xs);
  }

  /** After the found entities are offered, the slot of every declared
      entity holds the first candidate its matchers accept; the slot of an
      entity that found nothing keeps what it held. */
  lemma {:induction false} FoundBindsFirstMatch<T, E>(slots: map<string, Option<T>>, es: seq<(string, E)>,
                                                       ms: E -> seq<T -> bool>, xs: seq<T>, j: int)
    requires DistinctKeys(es) && 0 <= j < |es| && es[j].0 in slots
    ensures var m := Find(xs, Satisfies(ms(es[j].1)));
      WriteSlots(slots, Found(es, ms, xs))[es[j].0] == (if m.Some? then m else slots[es[j].0])
    decreases |es|
  {
    if j == |es| - 1 {
      BindsLast(slots, es, ms, xs);
    } else {
      var init := es[..|es| - 1];
      assert init[j] == es[j];
      FoundBeforeLastOtherNames(es, ms, xs);
      BindsBeforeLast(slots, es, ms, xs, j);
      FoundBindsFirstMatch(slots, init, ms, xs, j);
    }
  }

  /** A container of named slots: `MethodsFinder` or `FieldsFinder`. */
  class SlotContainer<T> {
    var contents: map<string, Option<T>>

    /** `entities.mapValues { BoxElementFinder() }`. */
    constructor<E>(es: seq<(string, E)>)
      ensures contents == EmptySlots(es)
    {
      contents := EmptySlots(es);
    }

    method Offer(name: string, x: T)
      modifies this
      ensures contents == OfferSlot(old(contents), name, x)
    {
      if name in contents {
        contents := contents[name := Some(x)];
      }
    }

    method Reset()
      modifies this
      ensures contents == ClearSlots(old(contents))
    {
      contents := ClearSlots(contents);
    }

    /** `getValue`, the delegate that reads a slot by property name. */
    function GetValue(name: string): (r: Result<Option<T>>)
      reads this
      ensures r.Success? <==> name in contents
      ensures r.Success? ==> r.value == contents[name]
    {
      if name in contents then Success(contents[name])
      else Failure("An entity with name " + name + " does not exist!")
    }

    /** `get(name)`. */
    function Get(name: string): (r: Result<Option<T>>)
      reads this
      ensures r.Success? <==> name in contents
      ensures r.Success? ==> r.value == contents[name]
    {
      if name in contents then Success(contents[name])
      else Failure("A finder with name " + name + " does not exist!")
    }
  }

  /** One more entity: it is found after the ones before it, and it is
      required to be found unless it may be missing. */
  lemma FoundStep<T, E>(es: seq<(string, E)>, ms: E -> seq<T -> bool>, mayMiss: E -> bool, xs: seq<T>, i: int)
    requires 0 <= i < |es|
    ensures var m := Find(xs, Satisfies(ms(es[i].1)));
      Found(es[..i + 1], ms, xs) == Found(es[..i], ms, xs) + (if m.Some? then [(es[i].0, m.value, es[i].1)] else [])
    ensures RequiredFound(es[..i + 1], ms, mayMiss, xs) <==>
      RequiredFound(es[..i], ms, mayMiss, xs) && (mayMiss(es[i].1) || Find(xs, Satisfies(ms(es[i].1))).Some?)
  {
    var done := es[..i + 1];
    assert done[..i] == es[..i];
    assert forall k :: 0 <= k < i ==> done[k] == es[..i][k];
  }

  /** `findAll`: binds each entity in order to the first candidate it
      accepts, offering it to the slot of its name, and gives up as soon as
      an entity that may not be missing finds nothing. */
  method FindAll<T, E>(target: SlotContainer<T>, es: seq<(string, E)>, ms: E -> seq<T -> bool>, mayMiss: E -> bool, xs: seq<T>)
    returns (found: Option<seq<(string, T, E)>>)
    modifies target
    ensures found == FindAllSpec(es, ms, mayMiss, xs)
    ensures target.contents.Keys == old(target.contents).Keys
    ensures found.Some? ==> target.contents == WriteSlots(old(target.contents), found.value)
  {
    var acc: seq<(string, T, E)> := [];
    var i := 0;
    while i < |es|
      invariant 0 <= i <= |es|
      invariant acc == Found(es[..i], ms, xs)
      invariant RequiredFound(es[..i], ms, mayMiss, xs)
      invariant target.contents == WriteSlots(old(target.contents), acc)
    {
      var name := es[i].0;
      var e := es[i].1;
      var m := Find(xs, Satisfies(ms(e)));
      FoundStep(es, ms, mayMiss, xs, i);
      if m.None? && !mayMiss(e) {
        assert !RequiredFound(es, ms, mayMiss, xs) by {
          assert !(mayMiss(es[i].1) || Find(xs, Satisfies(ms(es[i].1))).Some?);
        }
        return None;
      }
      if m.Some? {
        target.Offer(name, m.value);
        var acc' := acc + [(name, m.value, e)];
        assert WriteSlots(old(target.contents), acc') == OfferSlot(WriteSlots(old(target.contents), acc), name, m.value) by {
          assert acc'[..|acc'| - 1] == acc;
        }
        acc := acc';
      }
      i := i + 1;
    }
    assert es[..i] == es;
    assert FindAllSpec(es, ms, mayMiss, xs) == Some(acc);
    return Some(acc);
  }

  // ---------------------------------------------------------------------
  // Offering a class (`ClassFinder.offer`)

  /** `OfferResult`. */
  datatype OfferResult =
    | TransformRequest(transforms: seq<ClassTransform>, shouldExpand: bool, allowComputeFrames: bool)
    | NotInterested
    | NoMatch
    | NoTransformRequest
    | Skip

  /** The state of a `ClassFinder`: the class slot, whether the found hooks
      ran, the finder's own hooks, the method and field slots, and the
      hooks that ran so far with the name of the class each ran on. */
  datatype FinderState = FinderState(
    value: Option<ClassRecord>,
    ranFoundHooks: bool,
    foundHooks: seq<Hook>,
    methodSlots: map<string, Option<MethodData>>,
    fieldSlots: map<string, Option<FieldData>>,
    hookLog: seq<(Hook, string)>)

  function MethodMatchers(): MethodEntity -> seq<MethodData -> bool> {
    (e: MethodEntity) => e.matchers
  }

  function MethodMayMiss(): MethodEntity -> bool {
    (e: MethodEntity) => e.allowMissing
  }

  function FieldMatchers(): FieldEntity -> seq<FieldData -> bool> {
    (e: FieldEntity) => e.matchers
  }

  function FieldMayMiss(): FieldEntity -> bool {
    (e: FieldEntity) => e.allowMissing
  }

  function FoundMethods(ctx: ClassSpec, node: ClassRecord): Option<seq<(string, MethodData, MethodEntity)>> {
    FindAllSpec(ctx.methodEntities, MethodMatchers(), MethodMayMiss(), MethodDataOf(node))
  }

  function FoundFields(ctx: ClassSpec, node: ClassRecord): Option<seq<(string, FieldData, FieldEntity)>> {
    FindAllSpec(ctx.fieldEntities, FieldMatchers(), FieldMayMiss(), FieldDataOf(node))
  }

  /** The state of a new finder. */
  function Initial(ctx: ClassSpec): FinderState {
    FinderState(None, false, [], EmptySlots(ctx.methodEntities), EmptySlots(ctx.fieldEntities), [])
  }

  /** `reset()`: the class slot and every named slot are emptied; whether
      the hooks ran is kept. */
  function ResetState(st: FinderState): FinderState {
    st.(value := None, methodSlots := ClearSlots(st.methodSlots), fieldSlots := ClearSlots(st.fieldSlots))
  }

  /** Too few entities found: some are declared and the found share is
      below the threshold. */
  predicate BelowThreshold(ctx: ClassSpec, foundCount: nat) {
    var entityCount := |ctx.methodEntities| + |ctx.fieldEntities|;
    (|ctx.methodEntities| > 0 || |ctx.fieldEntities| > 0)
    && (foundCount as real) / (entityCount as real) < ctx.existingThreshold
  }

  /** Each hook paired with the class it runs on. */
  function HookRuns(hs: seq<Hook>, name: string): (r: seq<(Hook, string)>)
    ensures |r| == |hs| && forall i :: 0 <= i < |hs| ==> r[i] == (hs[i], name)
  {
    seq(|hs|, i requires 0 <= i < |hs| => (hs[i], name))
  }

  /** The class blocks' transforms, block by block. */
  function ClassTransformsOf(blocks: seq<ClassBlock>, node: ClassRecord): seq<ClassTransform>
    decreases |blocks|
  {
    if |blocks| == 0 then [] else blocks[0](node) + ClassTransformsOf(blocks[1..], node)
  }

  /** The outcome of every transform block of every found method, in the
      order of the found methods. */
  function MethodOutcomes(found: seq<(string, MethodData, MethodEntity)>): seq<(MethodData, MethodTransformOutcome)>
    decreases |found|
  {
    if |found| == 0 then []
    else
      var d := found[0].1;
      var blocks := found[0].2.transformations;
      seq(|blocks|, i requires 0 <= i < |blocks| => (d, blocks[i](d))) + MethodOutcomes(found[1..])
  }

  /** `asClassTransform` of each outcome. */
  function AsClassTransforms(os: seq<(MethodData, MethodTransformOutcome)>): (r: seq<ClassTransform>)
    ensures |r| == |os|
    ensures forall i :: 0 <= i < |os| ==>
      r[i].ForMethod? && r[i].target == NodeAsDescriptionIn(os[i].0.node, os[i].0.owner) && r[i].transforms == os[i].1.transforms
  {
    seq(|os|, i requires 0 <= i < |os| => ForMethod(os[i].1.transforms, NodeAsDescriptionIn(os[i].0.node, os[i].0.owner)))
  }

  predicate AnyExpand(os: seq<(MethodData, MethodTransformOutcome)>) {
    exists i :: 0 <= i < |os| && os[i].1.shouldExpandFrames
  }

  predicate AllCompute(os: seq<(MethodData, MethodTransformOutcome)>) {
    forall i :: 0 <= i < |os| ==> os[i].1.allowComputeFrames
  }

  /** The answer of a finder that found its class and is asked to
      transform it. */
  function TransformAnswer(ctx: ClassSpec, node: ClassRecord, found: seq<(string, MethodData, MethodEntity)>): OfferResult {
    var os := MethodOutcomes(found);
    var all := ClassTransformsOf(ctx.transformations, node) + AsClassTransforms(os);
    if |all| == 0 then NotInterested else TransformRequest(all, AnyExpand(os), AllCompute(os))
  }

  /** Whether `offer` skips the class before looking at it. */
  predicate Skips(st: FinderState, node: ClassRecord, transform: bool) {
    (!transform && st.value.Some?) || (st.value.Some? && st.value.value.name != node.name)
  }

  /** Whether the class and every declared entity are found. */
  predicate Accepts(ctx: ClassSpec, node: ClassRecord) {
    All(ctx.matchers, node) && FoundMethods(ctx, node).Some? && FoundFields(ctx, node).Some?
    && !BelowThreshold(ctx, |FoundMethods(ctx, node).value| + |FoundFields(ctx, node).value|)
  }

  /** What the entity search tells about acceptance. */
  lemma AcceptsBySearch(ctx: ClassSpec, node: ClassRecord, fmo: Option<seq<(string, MethodData, MethodEntity)>>,
                        ffo: Option<seq<(string, FieldData, FieldEntity)>>)
    requires All(ctx.matchers, node) && fmo == FoundMethods(ctx, node) && (fmo.Some? ==> ffo == FoundFields(ctx, node))
    ensures Accepts(ctx, node) <==> fmo.Some? && ffo.Some? && !BelowThreshold(ctx, |fmo.value| + |ffo.value|)
  {
  }

  /** `offer(node, transform)`: the new state and the answer. */
  function OfferSpec(ctx: ClassSpec, st: FinderState, node: ClassRecord, transform: bool): (FinderState, OfferResult) {
    if Skips(st, node, transform) then (st, Skip)
    else if !All(ctx.matchers, node) then (st, NoMatch)
    else if !Accepts(ctx, node) then (ResetState(st), NoMatch)
    else
      var fm := FoundMethods(ctx, node).value;
      var ff := FoundFields(ctx, node).value;
      var bound := st.(value := Some(node), methodSlots := WriteSlots(st.methodSlots, fm), fieldSlots := WriteSlots(st.fieldSlots, ff));
      var hooked := if st.ranFoundHooks then bound
        else bound.(ranFoundHooks := true, hookLog := st.hookLog + HookRuns(st.foundHooks + ctx.foundHooks, node.name));
      (hooked, if transform then TransformAnswer(ctx, node, fm) else NoTransformRequest)
  }

  /** `ClassFinder`. */
  class ClassFinder {
    const context: ClassSpec
    var value: Option<ClassRecord>
    var ranFoundHooks: bool
    var foundHooks: seq<Hook>
    /** The hooks that ran, each with the class it ran on. */
    var hookLog: seq<(Hook, string)>
    const methods: SlotContainer<MethodData>
    const fields: SlotContainer<FieldData>

    function State(): FinderState
      reads this, methods, fields
    {
      FinderState(value, ranFoundHooks, foundHooks, methods.contents, fields.contents, hookLog)
    }

    constructor(context: ClassSpec)
      ensures this.context == context && State() == Initial(context)
      ensures fresh(methods) && fresh(fields)
    {
      this.context := context;
      value := None;
      ranFoundHooks := false;
      foundHooks := [];
      hookLog := [];
      methods := new SlotContainer(context.methodEntities);
      fields := new SlotContainer(context.fieldEntities);
    }

    method Reset()
      modifies this, methods, fields
      ensures State() == ResetState(old(State()))
    {
      value := None;
      methods.Reset();
      fields.Reset();
    }

    /** Runs the found hooks in order; a failing hook stops neither the
        others nor the offer. */
    method RunHooks(hs: seq<Hook>, name: string)
      modifies this
      ensures hookLog == old(hookLog) + HookRuns(hs, name)
      ensures value == old(value) && ranFoundHooks == old(ranFoundHooks) && foundHooks == old(foundHooks)
    {
      var i := 0;
      while i < |hs|
        invariant 0 <= i <= |hs|
        invariant hookLog == old(hookLog) + HookRuns(hs[..i], name)
        invariant value == old(value) && ranFoundHooks == old(ranFoundHooks) && foundHooks == old(foundHooks)
      {
        hookLog := hookLog + [(hs[i], name)];
        assert HookRuns(hs[..i + 1], name) == HookRuns(hs[..i], name) + [(hs[i], name)];
        i := i + 1;
      }
      assert hs[..i] == hs;
    }

    /** The entity search of `offer`, once the class matchers accepted
        the class: binds the declared methods, then, when every required
        method is found, the declared fields. */
    method Search(node: ClassRecord)
      returns (foundMethods: Option<seq<(string, MethodData, MethodEntity)>>, foundFields: Option<seq<(string, FieldData, FieldEntity)>>)
      modifies methods, fields
      ensures foundMethods == FoundMethods(context, node)
      ensures foundMethods.Some? ==> foundFields == FoundFields(context, node)
      ensures methods.contents.Keys == old(methods.contents).Keys && fields.contents.Keys == old(fields.contents).Keys
      ensures foundMethods.Some? && foundFields.Some? ==>
                methods.contents == WriteSlots(old(methods.contents), foundMethods.value)
                && fields.contents == WriteSlots(old(fields.contents), foundFields.value)
    {
      foundMethods := FindAll(methods, context.methodEntities, MethodMatchers(), MethodMayMiss(), MethodDataOf(node));
      if foundMethods.None? {
        return foundMethods, None;
      }
      foundFields := FindAll(fields, context.fieldEntities, FieldMatchers(), FieldMayMiss(), FieldDataOf(node));
    }

    method Offer(node: ClassRecord, transform: bool) returns (r: OfferResult)
      modifies this, methods, fields
      ensures (State(), r) == OfferSpec(context, old(State()), node, transform)
    {
      if (!transform && value.Some?) || (value.Some? && value.value.name != node.name) {
        return Skip;
      }
      if !All(context.matchers, node) {
        return NoMatch;
      }
      var foundMethods, foundFields := Search(node);
      AcceptsBySearch(context, node, foundMethods, foundFields);
      if foundMethods.None? || foundFields.None? || BelowThreshold(context, |foundMethods.value| + |foundFields.value|) {
        ClearSlotsByKeys(methods.contents, old(methods.contents));
        ClearSlotsByKeys(fields.contents, old(fields.contents));
        assert ResetState(State()) == ResetState(old(State()));
        Reset();
        return NoMatch;
      }
      Bind(node);
      if !transform {
        return NoTransformRequest;
      }
      r := TransformAnswer(context, node, foundMethods.value);
    }

    /** The found class goes into the class slot; the found hooks run on
        it unless they already ran. */
    method Bind(node: ClassRecord)
      modifies this
      ensures value == Some(node) && ranFoundHooks && foundHooks == old(foundHooks)
      ensures hookLog == if old(ranFoundHooks) then old(hookLog)
                         else old(hookLog) + HookRuns(old(foundHooks) + context.foundHooks, node.name)
    {
      value := Some(node);
      if !ranFoundHooks {
        ranFoundHooks := true;
        RunHooks(foundHooks + context.foundHooks, node.name);
      }
    }

    /** `assume()`. */
    function Assume(): (r: Result<ClassRecord>)
      reads this
      ensures r.Success? <==> value.Some?
      ensures r.Success? ==> r.value == value.value
    {
      match value
      case Some(c) => Success(c)
      case None => Failure("Didn't find the correct class, assumption failed!")
    }

    /** `nullable()`. */
    function Nullable(): Option<ClassRecord>
      reads this
    {
      value
    }

    /** `onFound(handler)`. */
    method OnFound(hook: Hook)
      modifies this
      ensures foundHooks == old(foundHooks) + [hook]
      ensures value == old(value) && ranFoundHooks == old(ranFoundHooks) && hookLog == old(hookLog)
    {
      foundHooks := foundHooks + [hook];
    }
  }

  // ---------------------------------------------------------------------
  // Properties of `offer`

  /** `offer` skips exactly when the finder holds a class and either it is
      not transforming or the class has another name, and then changes
      nothing. */
  lemma OfferSkips(ctx: ClassSpec, st: FinderState, node: ClassRecord, transform: bool)
    ensures var (st', r) := OfferSpec(ctx, st, node, transform);
      (r == Skip <==> st.value.Some? && (!transform || st.value.value.name != node.name))
      && (r == Skip ==> st' == st)
  {
  }

  /** `offer` answers NoMatch exactly when it does not skip and the class or
      an entity is not found. A class its own matchers refuse changes
      nothing; a missing entity or too few found entities reset the finder:
      class and named slots are emptied, slots are neither added nor
      removed, and the hooks are not run again. */
  lemma OfferNoMatch(ctx: ClassSpec, st: FinderState, node: ClassRecord, transform: bool)
    ensures var (st', r) := OfferSpec(ctx, st, node, transform);
      (r == NoMatch <==> !Skips(st, node, transform) && !Accepts(ctx, node))
      && (r == NoMatch && !All(ctx.matchers, node) ==> st' == st)
      && (r == NoMatch && All(ctx.matchers, node) ==>
            st'.value.None?
            && st'.methodSlots.Keys == st.methodSlots.Keys && (forall k :: k in st'.methodSlots ==> st'.methodSlots[k] == None)
            && st'.fieldSlots.Keys == st.fieldSlots.Keys && (forall k :: k in st'.fieldSlots ==> st'.fieldSlots[k] == None)
            && st'.ranFoundHooks == st.ranFoundHooks && st'.hookLog == st.hookLog)
  {
  }

  /** What a finding offer does to the state. */
  lemma OfferFoundState(ctx: ClassSpec, st: FinderState, node: ClassRecord, transform: bool)
    requires !Skips(st, node, transform) && Accepts(ctx, node)
    ensures var st' := OfferSpec(ctx, st, node, transform).0;
      st'.value == Some(node)
      && st'.methodSlots == WriteSlots(st.methodSlots, FoundMethods(ctx, node).value)
      && st'.fieldSlots == WriteSlots(st.fieldSlots, FoundFields(ctx, node).value)
  {
  }

  /** When `offer` finds the class, the class slot holds it and the slot of
      every declared method holds the first method of the class its
      matchers accept, or keeps its old content when none does (an entity
      allowed to be missing). */
  lemma OfferBindsMethods(ctx: ClassSpec, st: FinderState, node: ClassRecord, transform: bool, j: int)
    requires DistinctKeys(ctx.methodEntities)
    requires !Skips(st, node, transform) && Accepts(ctx, node)
    requires 0 <= j < |ctx.methodEntities| && ctx.methodEntities[j].0 in st.methodSlots
    ensures var st' := OfferSpec(ctx, st, node, transform).0;
      var m := MethodByFinder(node, ctx.methodEntities[j].1.matchers);
      st'.value == Some(node)
      && st'.methodSlots[ctx.methodEntities[j].0] == (if m.Some? then m else st.methodSlots[ctx.methodEntities[j].0])
  {
    OfferFoundState(ctx, st, node, transform);
    FoundBindsFirstMatch(st.methodSlots, ctx.methodEntities, MethodMatchers(), MethodDataOf(node), j);
    MethodByFinderIsFind(node, ctx.methodEntities[j].1.matchers);
  }

  /** The same for the declared fields. */
  lemma OfferBindsFields(ctx: ClassSpec, st: FinderState, node: ClassRecord, transform: bool, j: int)
    requires DistinctKeys(ctx.fieldEntities)
    requires !Skips(st, node, transform) && Accepts(ctx, node)
    requires 0 <= j < |ctx.fieldEntities| && ctx.fieldEntities[j].0 in st.fieldSlots
    ensures var st' := OfferSpec(ctx, st, node, transform).0;
      var m := Find(FieldDataOf(node), Satisfies(ctx.fieldEntities[j].1.matchers));
      st'.fieldSlots[ctx.fieldEntities[j].0] == (if m.Some? then m else st.fieldSlots[ctx.fieldEntities[j].0])
  {
    OfferFoundState(ctx, st, node, transform);
    FoundBindsFirstMatch(st.fieldSlots, ctx.fieldEntities, FieldMatchers(), FieldDataOf(node), j);
  }

  /** `methodByFinder` is the search an entity's slot is bound by. */
  lemma MethodByFinderIsFind(node: ClassRecord, ms: seq<MethodData -> bool>)
    ensures MethodByFinder(node, ms) == Find(MethodDataOf(node), Satisfies(ms))
  {
    var p := (d: MethodData) => All(ms, d);
    assert p == Satisfies(ms);
  }

  /** A share of found entities is never negative, and is below one
      exactly when some entity is not found. */
  lemma ShareBounds(found: nat, count: nat)
    requires 0 < count
    ensures (found as real) / (count as real) >= 0.0
    ensures (found as real) / (count as real) < 1.0 <==> found < count
  {
    var x := (found as real) / (count as real);
    assert x * (count as real) == found as real;
  }

  /** A threshold of zero or below refuses no share. */
  lemma ThresholdZero(ctx: ClassSpec, found: nat)
    requires ctx.existingThreshold <= 0.0
    ensures !BelowThreshold(ctx, found)
  {
    var count := |ctx.methodEntities| + |ctx.fieldEntities|;
    if count > 0 {
      ShareBounds(found, count);
    }
  }

  /** With a threshold of one, a share passes exactly when it is whole. */
  lemma ThresholdOne(ctx: ClassSpec, found: nat)
    requires ctx.existingThreshold == 1.0
    requires found <= |ctx.methodEntities| + |ctx.fieldEntities|
    ensures !BelowThreshold(ctx, found) <==> found == |ctx.methodEntities| + |ctx.fieldEntities|
  {
    var count := |ctx.methodEntities| + |ctx.fieldEntities|;
    if count > 0 {
      ShareBounds(found, count);
    }
  }

  /** Every declared method finds a method of the class. */
  predicate AllMethodsFound(ctx: ClassSpec, node: ClassRecord) {
    forall i :: 0 <= i < |ctx.methodEntities| ==> Find(MethodDataOf(node), Satisfies(ctx.methodEntities[i].1.matchers)).Some?
  }

  /** Every declared field finds a field of the class. */
  predicate AllFieldsFound(ctx: ClassSpec, node: ClassRecord) {
    forall i :: 0 <= i < |ctx.fieldEntities| ==> Find(FieldDataOf(node), Satisfies(ctx.fieldEntities[i].1.matchers)).Some?
  }

  /** As many entities are found as declared exactly when each declared
      method and field finds a candidate. */
  lemma FoundCountIff(ctx: ClassSpec, node: ClassRecord)
    ensures var found := |Found(ctx.methodEntities, MethodMatchers(), MethodDataOf(node))|
                         + |Found(ctx.fieldEntities, FieldMatchers(), FieldDataOf(node))|;
      found <= |ctx.methodEntities| + |ctx.fieldEntities|
      && (found == |ctx.methodEntities| + |ctx.fieldEntities| <==> AllMethodsFound(ctx, node) && AllFieldsFound(ctx, node))
  {
    FoundAllIff(ctx.methodEntities, MethodMatchers(), MethodDataOf(node));
    FoundAllIff(ctx.fieldEntities, FieldMatchers(), FieldDataOf(node));
  }

  /** A threshold of zero or below never refuses a class; with the default
      threshold of one, every declared entity must be found, optional ones
      included. */
  lemma ThresholdBounds(ctx: ClassSpec, node: ClassRecord)
    requires FoundMethods(ctx, node).Some? && FoundFields(ctx, node).Some?
    ensures var found := |FoundMethods(ctx, node).value| + |FoundFields(ctx, node).value|;
      (ctx.existingThreshold <= 0.0 ==> !BelowThreshold(ctx, found))
      && (ctx.existingThreshold == 1.0 ==> (!BelowThreshold(ctx, found) <==> AllMethodsFound(ctx, node) && AllFieldsFound(ctx, node)))
  {
    var fm := Found(ctx.methodEntities, MethodMatchers(), MethodDataOf(node));
    var ff := Found(ctx.fieldEntities, FieldMatchers(), FieldDataOf(node));
    assert FoundMethods(ctx, node).value == fm && FoundFields(ctx, node).value == ff;
    var found := |fm| + |ff|;
    assert |FoundMethods(ctx, node).value| + |FoundFields(ctx, node).value| == found;
    FoundCountIff(ctx, node);
    assert found <= |ctx.methodEntities| + |ctx.fieldEntities|;
    if ctx.existingThreshold <= 0.0 {
      ThresholdZero(ctx, found);
    }
    if ctx.existingThreshold == 1.0 {
      ThresholdOne(ctx, found);
      assert !BelowThreshold(ctx, found) <==> found == |ctx.methodEntities| + |ctx.fieldEntities|;
    }
  }

  /** The found hooks run at most once: once they ran, an offer leaves the
      log alone; before that, an offer either leaves it alone or runs the
      finder's own hooks and then the context's on the offered class, and
      only when it finds the class. */
  lemma OfferRunsHooksOnce(ctx: ClassSpec, st: FinderState, node: ClassRecord, transform: bool)
    ensures var st' := OfferSpec(ctx, st, node, transform).0;
      st'.foundHooks == st.foundHooks
      && (st.ranFoundHooks ==> st'.ranFoundHooks && st'.hookLog == st.hookLog)
      && (!st.ranFoundHooks ==>
            (st'.hookLog == st.hookLog && !st'.ranFoundHooks)
            || (st'.ranFoundHooks && st'.value == Some(node)
                && st'.hookLog == st.hookLog + HookRuns(st.foundHooks + ctx.foundHooks, node.name)))
  {
  }

  /** Offers in a row, each with whether it asks for a transform. */
  function Offers(ctx: ClassSpec, st: FinderState, reqs: seq<(ClassRecord, bool)>): FinderState
    decreases |reqs|
  {
    if |reqs| == 0 then st else Offers(ctx, OfferSpec(ctx, st, reqs[0].0, reqs[0].1).0, reqs[1..])
  }

  /** Over any run of offers the hooks run at most once, as one batch. */
  lemma {:induction false} HooksRunAtMostOnce(ctx: ClassSpec, st: FinderState, reqs: seq<(ClassRecord, bool)>)
    ensures var st' := Offers(ctx, st, reqs);
      st'.hookLog == st.hookLog
      || (!st.ranFoundHooks && exists name :: st'.hookLog == st.hookLog + HookRuns(st.foundHooks + ctx.foundHooks, name))
    decreases |reqs|
  {
    if |reqs| > 0 {
      var mid := OfferSpec(ctx, st, reqs[0].0, reqs[0].1).0;
      OfferRunsHooksOnce(ctx, st, reqs[0].0, reqs[0].1);
      HooksRunAtMostOnce(ctx, mid, reqs[1..]);
      if mid.ranFoundHooks {
        OffersKeepLogOnceRan(ctx, mid, reqs[1..]);
      }
    }
  }

  /** After the hooks ran, offers never touch the log. */
  lemma {:induction false} OffersKeepLogOnceRan(ctx: ClassSpec, st: FinderState, reqs: seq<(ClassRecord, bool)>)
    requires st.ranFoundHooks
    ensures Offers(ctx, st, reqs).hookLog == st.hookLog
    decreases |reqs|
  {
    if |reqs| > 0 {
      OfferRunsHooksOnce(ctx, st, reqs[0].0, reqs[0].1);
      OffersKeepLogOnceRan(ctx, OfferSpec(ctx, st, reqs[0].0, reqs[0].1).0, reqs[1..]);
    }
  }

  /** The answer kinds: without a transform, a found class gives
      NoTransformRequest; with one, NotInterested when there are no class or
      method transforms, otherwise a request listing the class transforms
      first and then one per method transform block, expanding frames when
      any block asks and computing frames only when every block allows. */
  lemma OfferAnswers(ctx: ClassSpec, st: FinderState, node: ClassRecord, transform: bool)
    requires !Skips(st, node, transform) && Accepts(ctx, node)
    ensures var r := OfferSpec(ctx, st, node, transform).1;
      var os := MethodOutcomes(FoundMethods(ctx, node).value);
      var cts := ClassTransformsOf(ctx.transformations, node);
      (!transform ==> r == NoTransformRequest)
      && (transform ==> (r == NotInterested <==> |cts| == 0 && |os| == 0))
      && (transform && r.TransformRequest? ==>
            r.transforms[..|cts|] == cts && |r.transforms| == |cts| + |os|
            && (forall i :: 0 <= i < |os| ==> r.transforms[|cts| + i] == ForMethod(os[i].1.transforms, NodeAsDescriptionIn(os[i].0.node, os[i].0.owner)))
            && (r.shouldExpand <==> exists i :: 0 <= i < |os| && os[i].1.shouldExpandFrames)
            && (r.allowComputeFrames <==> forall i :: 0 <= i < |os| ==> os[i].1.allowComputeFrames))
  {
  }

  /** A transform request never carries an empty list. */
  lemma RequestsAreNonEmpty(ctx: ClassSpec, st: FinderState, node: ClassRecord, transform: bool)
    ensures var r := OfferSpec(ctx, st, node, transform).1;
      r.TransformRequest? ==> |r.transforms| > 0 && transform
  {
  }

  // ---------------------------------------------------------------------
  // Element finders

  /** `BoxElementFinder`. */
  class BoxElementFinder<T> {
    var value: Option<T>

    constructor(value: Option<T>)
      ensures this.value == value
    {
      this.value := value;
    }

    function Assume(): (r: Result<T>)
      reads this
      ensures r.Success? <==> value.Some?
      ensures r.Success? ==> r.value == value.value
    {
      match value
      case Some(x) => Success(x)
      case None => Failure("No element has been found")
    }

    function Nullable(): Option<T>
      reads this
    {
      value
    }

    method Reset()
      modifies this
      ensures value == None
    {
      value := None;
    }
  }

  /** `LazyElementFinder`: `supplied` is what the supplier answers when it
      is asked. It is asked only while nothing is cached, and a non-null
      answer is cached. */
  class LazyElementFinder<T> {
    var value: Option<T>

    constructor()
      ensures value == None
    {
      value := None;
    }

    method Nullable(supplied: Option<T>) returns (r: Option<T>)
      modifies this
      ensures old(value).Some? ==> r == old(value) && value == old(value)
      ensures old(value).None? ==> r == supplied && value == supplied
    {
      if value.Some? {
        return value;
      }
      if supplied.Some? {
        value := supplied;
      }
      return supplied;
    }

    method Assume(supplied: Option<T>) returns (r: Result<T>)
      modifies this
      ensures old(value).Some? ==> r == Success(old(value).value) && value == old(value)
      ensures old(value).None? && supplied.Some? ==> r == Success(supplied.value) && value == supplied
      ensures old(value).None? && supplied.None? ==> r.Failure? && value == None
    {
      var x := Nullable(supplied);
      if x.None? {
        return Failure("No element has been found yet!");
      }
      return Success(x.value);
    }

    method Reset()
      modifies this
      ensures value == None
    {
      value := None;
    }
  }

  /** The supplier of `map(block)`: the source finder's element, mapped. */
  function MapSupplied<T, O>(source: Option<T>, block: T -> O): (r: Option<O>)
    ensures r.Some? <==> source.Some?
    ensures r.Some? ==> r.value == block(source.value)
  {
    match source
    case Some(x) => Some(block(x))
    case None => None
  }

  /** `late { block }`: an element searched for on first use in the class
      the finder found, and cached once found. */
  class LateFinder<T> {
    const candidates: ClassRecord -> seq<T>
    const matchers: seq<T -> bool>
    var box: Option<T>

    constructor(candidates: ClassRecord -> seq<T>, matchers: seq<T -> bool>)
      ensures this.candidates == candidates && this.matchers == matchers && box == None
    {
      this.candidates := candidates;
      this.matchers := matchers;
      box := None;
    }

    method GetValue(finder: ClassFinder) returns (r: Result<Option<T>>)
      modifies this
      ensures old(box).Some? ==> r == Success(old(box)) && box == old(box)
      ensures old(box).None? && finder.value.None? ==> r.Failure? && box == None
      ensures old(box).None? && finder.value.Some? ==>
        box == Find(candidates(finder.value.value), Satisfies(matchers)) && r == Success(box)
    {
      if box.None? {
        var node := finder.Assume();
        if node.Failure? {
          return Failure(node.error);
        }
        box := Find(candidates(node.value), Satisfies(matchers));
      }
      return Success(box);
    }
  }

  // ---------------------------------------------------------------------
  // Transforming with all finders (`FinderContext.transform`)

  /** What a class is transformed with. */
  datatype TransformPlan = TransformPlan(transforms: seq<ClassTransform>, expand: bool, computeFrames: bool)

  predicate IsRequest(r: OfferResult) {
    r.TransformRequest?
  }

  /** A request that asks for expanded frames. */
  predicate Expands(r: OfferResult) {
    r.TransformRequest? && r.shouldExpand
  }

  /** Not a request that forbids computing frames. */
  predicate AllowsCompute(r: OfferResult) {
    r.TransformRequest? ==> r.allowComputeFrames
  }

  /** The transforms of the requests, in order. */
  function Flatten(reqs: seq<OfferResult>): seq<ClassTransform>
    decreases |reqs|
  {
    if |reqs| == 0 then [] else (if reqs[0].TransformRequest? then reqs[0].transforms else []) + Flatten(reqs[1..])
  }

  /** The decision of `transform` once every finder answered: nothing
      without a request or when the requests carry no transforms, else
      their transforms in finder order, expanding frames when any request
      asks and computing frames only when all allow. */
  function TransformDecision(results: seq<OfferResult>): Option<TransformPlan> {
    var reqs := Filter(results, IsRequest);
    if |reqs| == 0 then None
    else
      var ts := Flatten(reqs);
      if |ts| == 0 then None
      else Some(TransformPlan(ts, exists i :: 0 <= i < |reqs| && Expands(reqs[i]),
                              forall i :: 0 <= i < |reqs| ==> AllowsCompute(reqs[i])))
  }

  /** Classes never transformed: system classes and classes under a
      skipped prefix, by binary name. */
  predicate Excluded(className: string, skipTransform: seq<string>) {
    var binaryName := ReplaceChar(className, '/', '.');
    IsSystemClass(binaryName) || StartsWithAny(binaryName, skipTransform)
  }

  /** Skipped prefixes are dotted and the class name is internal: the name
      is converted before the prefixes are compared. */
  lemma ExcludedExamples()
    ensures Excluded("net/minecraft/client/Minecraft", ["net.minecraft."])
    ensures !Excluded("net/minecraft/client/Minecraft", [])
    ensures !Excluded("net/minecraft/client/Minecraft", ["net/minecraft/"])
    ensures Excluded("java/lang/String", [])
  {
    DottedNames();
    var mc := "net.minecraft.client.Minecraft";
    PrefixExamples();
    assert ["net.minecraft."][1..] == [] && ["net/minecraft/"][1..] == [];
    assert StartsWithAny(mc, ["net.minecraft."]);
    assert !StartsWithAny(mc, ["net/minecraft/"]);
    SystemClassExamples();
  }

  /** The dotted name starts with the dotted prefix, not the internal one. */
  lemma PrefixExamples()
    ensures StartsWith("net.minecraft.client.Minecraft", "net.minecraft.")
    ensures !StartsWith("net.minecraft.client.Minecraft", "net/minecraft/")
  {
    var mc := "net.minecraft.client.Minecraft";
    assert mc[..14] == "net.minecraft.";
    assert mc[..14][3] != '/';
  }

  /** The binary names of the examples above. */
  lemma DottedNames()
    ensures ReplaceChar("net/minecraft/client/Minecraft", '/', '.') == "net.minecraft.client.Minecraft"
    ensures ReplaceChar("java/lang/String", '/', '.') == "java.lang.String"
  {
  }

  /** Dropping the answers that are not requests leaves the transforms. */
  lemma {:induction false} FlattenFilter(results: seq<OfferResult>)
    ensures Flatten(Filter(results, IsRequest)) == Flatten(results)
    decreases |results|
  {
    if |results| > 0 {
      FlattenFilter(results[1..]);
      var rest := Filter(results[1..], IsRequest);
      if IsRequest(results[0]) {
        var f := [results[0]] + rest;
        assert Filter(results, IsRequest) == f;
        assert f[0] == results[0] && f[1..] == rest;
      } else {
        assert Filter(results, IsRequest) == rest;
      }
    }
  }

  /** The plan is made exactly when some answer requests a non-empty list;
      it lists every requested transform in finder order, expands frames
      exactly when some request asks to and computes frames exactly when
      every request allows it. */
  lemma TransformDecisionIff(results: seq<OfferResult>)
    ensures var d := TransformDecision(results);
      (d.Some? <==> exists i :: 0 <= i < |results| && results[i].TransformRequest? && |results[i].transforms| > 0)
      && (d.Some? ==>
            d.value.transforms == Flatten(results)
            && (d.value.expand <==> exists i :: 0 <= i < |results| && Expands(results[i]))
            && (d.value.computeFrames <==> forall i :: 0 <= i < |results| ==> AllowsCompute(results[i])))
  {
    FlattenFilter(results);
    FlattenNonEmptyIff(results);
    FilterAny(results, IsRequest, Expands);
    FilterAny(results, IsRequest, (r: OfferResult) => !AllowsCompute(r));
  }

  /** The requested list is empty exactly when no answer requests a
      transform. */
  lemma {:induction false} FlattenNonEmptyIff(results: seq<OfferResult>)
    ensures |Flatten(results)| > 0 <==> exists i :: 0 <= i < |results| && results[i].TransformRequest? && |results[i].transforms| > 0
    decreases |results|
  {
    if |results| > 0 {
      FlattenNonEmptyIff(results[1..]);
      if exists i :: 0 <= i < |results[1..]| && results[1..][i].TransformRequest? && |results[1..][i].transforms| > 0 {
        var i :| 0 <= i < |results[1..]| && results[1..][i].TransformRequest? && |results[1..][i].transforms| > 0;
        assert results[i + 1] == results[1..][i];
      }
      if exists i :: 0 <= i < |results| && results[i].TransformRequest? && |results[i].transforms| > 0 {
        var i :| 0 <= i < |results| && results[i].TransformRequest? && |results[i].transforms| > 0;
        if i > 0 { assert results[1..][i - 1] == results[i]; }
      }
    }
  }

  /** `FinderContext`: its finders, in registration order. */
  class FinderContext {
    const skipTransform: seq<string>
    var finders: seq<ClassFinder>

    /** Finders and their slot containers are never shared. */
    predicate Valid()
      reads this
    {
      forall i, j :: 0 <= i < j < |finders| ==>
        finders[i] != finders[j] && finders[i].methods != finders[j].methods && finders[i].fields != finders[j].fields
    }

    /** Everything the finders' offers may change. */
    function Footprint(): set<object>
      reads this
    {
      (set i | 0 <= i < |finders| :: finders[i] as object)
      + (set i | 0 <= i < |finders| :: finders[i].methods as object)
      + (set i | 0 <= i < |finders| :: finders[i].fields as object)
    }

    constructor(skipTransform: seq<string>)
      ensures this.skipTransform == skipTransform && finders == [] && Valid()
    {
      this.skipTransform := skipTransform;
      finders := [];
    }

    /** `findClass { block }`: `spec` is the context the block built. */
    method FindClass(spec: ClassSpec) returns (f: ClassFinder)
      requires Valid()
      modifies this
      ensures Valid() && fresh(f) && finders == old(finders) + [f]
      ensures f.context == spec && f.State() == Initial(spec)
    {
      f := new ClassFinder(spec);
      finders := finders + [f];
    }

    /** The private `offer(node, transform)`: every finder is offered the
        class, in order, and answers. */
    method OfferAll(node: ClassRecord, transform: bool) returns (results: seq<OfferResult>)
      requires Valid()
      modifies Footprint()
      ensures |results| == |finders|
      ensures forall j :: 0 <= j < |finders| ==>
        finders[j].State() == OfferSpec(finders[j].context, old(finders[j].State()), node, transform).0
        && results[j] == OfferSpec(finders[j].context, old(finders[j].State()), node, transform).1
    {
      results := [];
      var i := 0;
      while i < |finders|
        invariant 0 <= i <= |finders| && |results| == i
        invariant forall j :: 0 <= j < i ==>
          finders[j].State() == OfferSpec(finders[j].context, old(finders[j].State()), node, transform).0
          && results[j] == OfferSpec(finders[j].context, old(finders[j].State()), node, transform).1
        invariant forall j :: i <= j < |finders| ==> finders[j].State() == old(finders[j].State())
      {
        var f := finders[i];
        label before:
        var r := f.Offer(node, transform);
        assert forall j :: 0 <= j < |finders| && j != i ==> finders[j].State() == old@before(finders[j].State()) by {
          forall j | 0 <= j < |finders| && j != i
            ensures finders[j] != f && finders[j].methods != f.methods && finders[j].fields != f.fields
          {
            assert (j < i && i < |finders|) || (i < j && j < |finders|);
          }
        }
        results := results + [r];
        i := i + 1;
      }
    }

    /** `transform(loader, className, bytes)`, with the class already read
        into `node`: the transforms to apply, or none. */
    method Transform(className: string, node: ClassRecord) returns (plan: Option<TransformPlan>)
      requires Valid()
      modifies Footprint()
      ensures Excluded(className, skipTransform) ==>
        plan == None && forall j :: 0 <= j < |finders| ==> finders[j].State() == old(finders[j].State())
      ensures !Excluded(className, skipTransform) ==>
        exists results: seq<OfferResult> ::
          |results| == |finders| && plan == TransformDecision(results)
          && forall j :: 0 <= j < |finders| ==>
               finders[j].State() == OfferSpec(finders[j].context, old(finders[j].State()), node, true).0
               && results[j] == OfferSpec(finders[j].context, old(finders[j].State()), node, true).1
    {
      var binaryName := ReplaceChar(className, '/', '.');
      if IsSystemClass(binaryName) || StartsWithAny(binaryName, skipTransform) {
        return None;
      }
      var results := OfferAll(node, true);
      plan := TransformDecision(results);
    }
  }

  /** With the answers of real finders, the plan is made exactly when some
      finder requests a transform. */
  lemma PlanIffSomeRequest(results: seq<OfferResult>, specs: seq<ClassSpec>, sts: seq<FinderState>, node: ClassRecord)
    requires |results| == |specs| == |sts|
    requires forall j :: 0 <= j < |results| ==> results[j] == OfferSpec(specs[j], sts[j], node, true).1
    ensures TransformDecision(results).Some? <==> exists j :: 0 <= j < |results| && results[j].TransformRequest?
  {
    TransformDecisionIff(results);
    forall j | 0 <= j < |results| && results[j].TransformRequest? ensures |results[j].transforms| > 0 {
      RequestsAreNonEmpty(specs[j], sts[j], node, true);
    }
  }

  // ---------------------------------------------------------------------
  // The toString recipe (`useStringInfo`)

  /** The field names in a `StringConcatFactory` recipe of a `toString`
      such as `Point(x=\u0001, y=\u0001)`. */
  function RecipeNames(concat: string): seq<string> {
    var parts := Split(SubstringBeforeLast(SubstringAfter(concat, '('), ')'), ", ");
    seq(|parts|, i requires 0 <= i < |parts| => SubstringBefore(parts[i], '='))
  }

  /** The recipe the compiler emits for a class and its fields. */
  function Recipe(className: string, names: seq<string>): string
    requires |names| >= 1
  {
    className + "(" + Join(RecipeParts(names), ", ") + ")"
  }

  function RecipeParts(names: seq<string>): (r: seq<string>)
    ensures |r| == |names| && forall i :: 0 <= i < |names| ==> r[i] == names[i] + "=\U{1}"
  {
    seq(|names|, i requires 0 <= i < |names| => names[i] + "=\U{1}")
  }

  /** The first `c` of `a + [c] + b` is the one after `a` when `a` has none. */
  lemma {:induction false} IndexAfterPrefix(a: string, c: char, b: string)
    requires c !in a
    ensures c in a + [c] + b && IndexOf(a + [c] + b, c) == |a|
    decreases |a|
  {
    var s := a + [c] + b;
    assert s[|a|] == c;
    if |a| > 0 {
      assert a[0] in a;
      IndexAfterPrefix(a[1..], c, b);
      assert s[1..] == a[1..] + [c] + b;
    }
  }

  /** The text between the first `(` and the last `)` of the recipe is the
      joined field parts. */
  lemma RecipeBody(className: string, joined: string)
    requires '(' !in className
    ensures SubstringBeforeLast(SubstringAfter(className + "(" + joined + ")", '('), ')') == joined
  {
    var s := className + "(" + joined + ")";
    assert s == className + "(" + (joined + ")");
    IndexAfterPrefix(className, '(', joined + ")");
    var after := SubstringAfter(s, '(');
    assert after == joined + ")";
    assert after[|after| - 1] == ')';
  }

  /** Splitting the joined parts at `, ` gives the parts back. */
  lemma RecipePartsSplit(names: seq<string>)
    requires |names| >= 1
    requires forall i :: 0 <= i < |names| ==> ',' !in names[i]
    ensures Split(Join(RecipeParts(names), ", "), ", ") == RecipeParts(names)
  {
    assert SelfSeparating(", ");
    SplitJoin(RecipeParts(names), ", ");
  }

  /** Reading the names back from the recipe gives the fields, when the
      class name has no `(` and no field name has `=` or `,`. */
  lemma RecipeNamesRoundTrip(className: string, names: seq<string>)
    requires |names| >= 1 && '(' !in className
    requires forall i :: 0 <= i < |names| ==> '=' !in names[i] && ',' !in names[i]
    ensures RecipeNames(Recipe(className, names)) == names
  {
    var parts := RecipeParts(names);
    RecipeBody(className, Join(parts, ", "));
    RecipePartsSplit(names);
    var got := RecipeNames(Recipe(className, names));
    forall i | 0 <= i < |names| ensures got[i] == names[i] {
      IndexAfterPrefix(names[i], '=', "\U{1}");
      assert parts[i] == names[i] + ['='] + "\U{1}";
    }
  }
}
