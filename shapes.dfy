/** What each specialiser emits for the decrement of a parent, stated as the
    sequence of statements it puts before the rewritten continuation. */
module DropShapes {
  import opened Ir
  import opened Environment
  import opened TagLayout
  import opened Slots
  import opened Fields
  import opened DropSpec

  /** The action a plan takes on a field some child stands for appears among its heads, whatever the fresh symbols. */
  lemma {:induction false} SlotActionEmitted(p: FieldPlan, n: nat, ids: nat, i: nat)
    requires n <= |p.fieldLayouts| && i < n
    requires p.interner.containsRefcounted(p.fieldLayouts[i]) && i in p.slots
    ensures var a := if p.slots[i].popped then p.onPopped else p.onUnpopped;
      forall h | h in Act(a, p.slots[i].child) :: h in p.AscendingHeads(n, ids)
    decreases n
  {
    var ids' := if p.UsesFresh(n - 1) then ids + 1 else ids;
    if i < n - 1 {
      SlotActionEmitted(p, n - 1, ids', i);
    }
  }

  /** The shared arm of a union: only increments, one for each popped child
      of a refcounted field, and no fresh symbol. */
  lemma {:induction false} SharedHeadsArePoppedIncs(p: FieldPlan, n: nat, ids: nat)
    requires n <= |p.fieldLayouts|
    requires p.onPopped == IncChild && p.onUnpopped == Nothing
    ensures p.FreshCount(n) == 0
    ensures forall h | h in p.AscendingHeads(n, ids) ::
      exists i | 0 <= i < n && i in p.slots :: p.slots[i].popped && h == RcHead(Inc(p.slots[i].child, 1))
    ensures forall i | 0 <= i < n && p.interner.containsRefcounted(p.fieldLayouts[i]) && i in p.slots && p.slots[i].popped ::
      RcHead(Inc(p.slots[i].child, 1)) in p.AscendingHeads(n, ids)
    decreases n
  {
    if n > 0 {
      SharedHeadsArePoppedIncs(p, n - 1, ids);
      forall i | 0 <= i < n && p.interner.containsRefcounted(p.fieldLayouts[i]) && i in p.slots && p.slots[i].popped
        ensures RcHead(Inc(p.slots[i].child, 1)) in p.AscendingHeads(n, ids)
      {
        SlotActionEmitted(p, n, ids, i);
      }
    }
  }

  /** The unique arm of a union (and a struct): no increment; each head
      decrements an unpopped child or binds and decrements a fresh projection;
      every unpopped child of a refcounted field is decremented. */
  lemma {:induction false} UniqueHeadsAreDecs(p: FieldPlan, n: nat, ids: nat)
    requires n <= |p.fieldLayouts|
    requires p.onPopped == Nothing && p.onUnpopped == DecChild
    ensures forall h | h in p.AscendingHeads(n, ids) :: h.LetHead? || h.rc.Dec?
    ensures forall h | h in p.AscendingHeads(n, ids) && h.RcHead? ::
      (exists i | 0 <= i < n && i in p.slots :: !p.slots[i].popped && h.rc.symbol == p.slots[i].child)
      || ids <= h.rc.symbol
    ensures forall i | 0 <= i < n && p.interner.containsRefcounted(p.fieldLayouts[i]) && i in p.slots && !p.slots[i].popped ::
      RcHead(Dec(p.slots[i].child)) in p.AscendingHeads(n, ids)
    decreases n
  {
    if n > 0 {
      var ids' := if p.UsesFresh(n - 1) then ids + 1 else ids;
      UniqueHeadsAreDecs(p, n - 1, ids');
      forall i | 0 <= i < n && p.interner.containsRefcounted(p.fieldLayouts[i]) && i in p.slots && !p.slots[i].popped
        ensures RcHead(Dec(p.slots[i].child)) in p.AscendingHeads(n, ids)
      {
        SlotActionEmitted(p, n, ids, i);
      }
    }
  }

  /** The uniqueness test: a fresh `is_unique` test of `x`, then a switch
      whose unique arm runs the unique plan and whose shared arm runs the
      shared plan, each followed by `DecRef(x)` and `k`. The unique arm draws
      its fresh symbols from `ids` up to `mid`, the shared arm from `mid`, and
      the test's symbol comes after both. */
  lemma {:induction false} UniquenessTestShape(retLayout: InLayout, x: Symbol, unique: FieldPlan, shared: FieldPlan,
                                               k: Stmt, ids: nat, mid: nat)
    requires |unique.fieldLayouts| == |shared.fieldLayouts|
    requires mid == ids + unique.FreshCount(|unique.fieldLayouts|)
    ensures UniquenessTest(retLayout, x, unique, shared, k, ids).0
      == UniqueSymbol(x, mid + shared.FreshCount(|unique.fieldLayouts|),
                      Chain(unique.AscendingHeads(|unique.fieldLayouts|, ids), Refcounting(DecRef(x), k)),
                      Chain(shared.AscendingHeads(|unique.fieldLayouts|, mid), Refcounting(DecRef(x), k)),
                      retLayout)
    ensures UniquenessTest(retLayout, x, unique, shared, k, ids).1 == mid + shared.FreshCount(|unique.fieldLayouts|) + 1
  {
    var n := |unique.fieldLayouts|;
    ArmsAreChains(unique, shared, n, Refcounting(DecRef(x), k), ids, mid);
    UniquenessTestOf(retLayout, x, unique, shared, k, ids,
                     Chain(unique.AscendingHeads(n, ids), Refcounting(DecRef(x), k)), mid,
                     Chain(shared.AscendingHeads(n, mid), Refcounting(DecRef(x), k)), mid + shared.FreshCount(n));
  }

  /** Both arms' reverse loops, one after the other: the shared one starts at `mid`. */
  lemma {:induction false} ArmsAreChains(unique: FieldPlan, shared: FieldPlan, n: nat, tail: Stmt, ids: nat, mid: nat)
    requires n <= |unique.fieldLayouts| && n <= |shared.fieldLayouts|
    requires mid == ids + unique.FreshCount(n)
    ensures unique.WrapFrom(n, tail, ids).0 == Chain(unique.AscendingHeads(n, ids), tail)
    ensures unique.WrapFrom(n, tail, ids).1 == mid
    ensures shared.WrapFrom(n, tail, mid).0 == Chain(shared.AscendingHeads(n, mid), tail)
    ensures shared.WrapFrom(n, tail, mid).1 == mid + shared.FreshCount(n)
  {
    unique.WrapFromIsChain(n, tail, ids);
    shared.WrapFromIsChain(n, tail, mid);
  }

  /** The test, given what the two field loops return. */
  lemma UniquenessTestOf(retLayout: InLayout, x: Symbol, unique: FieldPlan, shared: FieldPlan, k: Stmt, ids: nat,
                         u: Stmt, uIds: nat, sh: Stmt, shIds: nat)
    requires |unique.fieldLayouts| == |shared.fieldLayouts|
    requires unique.WrapFrom(|unique.fieldLayouts|, Refcounting(DecRef(x), k), ids).0 == u
    requires unique.WrapFrom(|unique.fieldLayouts|, Refcounting(DecRef(x), k), ids).1 == uIds
    requires shared.WrapFrom(|unique.fieldLayouts|, Refcounting(DecRef(x), k), uIds).0 == sh
    requires shared.WrapFrom(|unique.fieldLayouts|, Refcounting(DecRef(x), k), uIds).1 == shIds
    ensures UniquenessTest(retLayout, x, unique, shared, k, ids).0 == UniqueSymbol(x, shIds, u, sh, retLayout)
    ensures UniquenessTest(retLayout, x, unique, shared, k, ids).1 == shIds + 1
  {
  }

  /** A `Ret` or `Jump` continuation is copied into both arms of the test;
      any other becomes the body of a join point `ids` without parameters,
      which both arms jump to. */
  lemma BranchUniquenessShape(retLayout: InLayout, x: Symbol, unique: FieldPlan, shared: FieldPlan, k: Stmt, ids: nat)
    requires |unique.fieldLayouts| == |shared.fieldLayouts|
    ensures var r := BranchUniqueness(retLayout, x, unique, shared, k, ids);
      && ((k.Ret? || k.Jump?) ==> r == UniquenessTest(retLayout, x, unique, shared, k, ids))
      && (!k.Ret? && !k.Jump? ==>
            var t := UniquenessTest(retLayout, x, unique, shared, Jump(ids, []), ids + 1);
            r == (Join(ids, [], k, t.0), t.1))
  {
  }

  /** Struct: with registered children, the field actions in ascending order
      and no decrement of the struct itself; without, a plain decrement. */
  lemma StructShape(I: LayoutInterner, e: Env, ids: nat, x: Symbol, fls: seq<InLayout>, popped: set<Symbol>, k: Stmt)
    ensures var r := SpecializeStruct(I, e, ids, x, fls, popped, k);
      var inner := Specialize(I, e, ids, k);
      && (r.Ok? <==> inner.Ok?)
      && (r.Ok? && x !in e.structChildren ==>
            r.value == SpecialisedDec(Refcounting(Dec(x), inner.value.stmt), inner.value.env, inner.value.ids, popped))
      && (r.Ok? && x in e.structChildren ==>
            var chosen := IndexSymbols(e.structChildren[x], 0, |fls|, map[], popped);
            var plan := StructPlan(I, x, fls, chosen.0);
            && r.value.stmt == Chain(plan.AscendingHeads(|fls|, inner.value.ids), inner.value.stmt)
            && r.value.ids == inner.value.ids + plan.FreshCount(|fls|)
            && r.value.popped == chosen.1)
  {
    if x in e.structChildren && Specialize(I, e, ids, k).Ok? {
      var chosen := IndexSymbols(e.structChildren[x], 0, |fls|, map[], popped);
      var inner := Specialize(I, e, ids, k).value;
      StructPlan(I, x, fls, chosen.0).WrapFromIsChain(|fls|, inner.stmt, inner.ids);
    }
  }

  /** No action of a struct's specialisation decrements or increments the
      struct itself, when it is not its own child and older than the fresh symbols. */
  lemma StructNeverDecrementsItself(I: LayoutInterner, x: Symbol, fls: seq<InLayout>, cs: seq<IndexedChild>,
                                    popped: set<Symbol>, ids: nat)
    requires forall j | 0 <= j < |cs| :: cs[j].child != x
    requires x < ids
    ensures var chosen := IndexSymbols(cs, 0, |fls|, map[], popped);
      && RcHead(Dec(x)) !in StructPlan(I, x, fls, chosen.0).AscendingHeads(|fls|, ids)
      && RcHead(Inc(x, 1)) !in StructPlan(I, x, fls, chosen.0).AscendingHeads(|fls|, ids)
  {
    var chosen := IndexSymbols(cs, 0, |fls|, map[], popped);
    IndexSymbolsEffect(cs, 0, |fls|, map[], popped);
    forall i | i in chosen.0 ensures chosen.0[i].child != x {
      assert RegisteredAt(cs, i, chosen.0[i].child);
    }
    StructPlan(I, x, fls, chosen.0).AscendingHeadsMention(|fls|, ids, x);
  }

  /** Union: the tag is resolved first, and a tag out of range is fatal; an
      unknown tag or no registered child keeps the plain decrement; a null
      value emits nothing; otherwise the known-union specialiser runs. */
  lemma UnionShape(I: LayoutInterner, e: Env, ids: nat, x: Symbol, u: UnionLayout, popped: set<Symbol>, k: Stmt)
    ensures var r := SpecializeUnion(I, e, ids, x, u, popped, k);
      var inner := Specialize(I, e, ids, k);
      var resolved := GetUnionTagLayout(u, if x in e.symbolTag then Some(e.symbolTag[x]) else None);
      && (resolved.Err? ==> r == Err(resolved.error))
      && (resolved.Ok? && (resolved.value.Unknown? || (resolved.value.Found? && x !in e.unionChildren)) ==>
            r == KeepOriginalDecrement(I, e, ids, x, popped, k))
      && (resolved.Ok? && resolved.value.Null? ==>
            (r.Ok? <==> inner.Ok?)
            && (r.Ok? ==> r.value == SpecialisedDec(inner.value.stmt, inner.value.env, inner.value.ids, popped)))
      && (resolved.Ok? && resolved.value.Found? && x in e.unionChildren ==>
            r == SpecializeKnownUnion(I, e, ids, x, u, resolved.value.fieldLayouts, resolved.value.tag, popped, k))
  {
  }

  /** The plain decrement before the rewritten continuation. */
  lemma KeepShape(I: LayoutInterner, e: Env, ids: nat, x: Symbol, popped: set<Symbol>, k: Stmt)
    ensures var r := KeepOriginalDecrement(I, e, ids, x, popped, k);
      var inner := Specialize(I, e, ids, k);
      && (r.Ok? <==> inner.Ok?)
      && (r.Ok? ==> r.value == SpecialisedDec(Refcounting(Dec(x), inner.value.stmt), inner.value.env, inner.value.ids, popped))
  {
  }

  /** A union with a known tag and registered children: a non-recursive one
      gets the field actions of a freed parent only, and no `DecRef`; every
      other kind gets the uniqueness branch. */
  lemma KnownUnionShape(I: LayoutInterner, e: Env, ids: nat, x: Symbol, u: UnionLayout,
                        fls: seq<InLayout>, t: Tag, popped: set<Symbol>, k: Stmt)
    requires x in e.unionChildren
    ensures var r := SpecializeKnownUnion(I, e, ids, x, u, fls, t, popped, k);
      var inner := Specialize(I, e, ids, k);
      var chosen := IndexSymbols(UnionIndexed(e.unionChildren[x]), 0, |fls|, map[], popped);
      var unique := UniquePlan(I, x, t, u, fls, chosen.0);
      && (r.Ok? <==> inner.Ok?)
      && (r.Ok? ==> r.value.popped == chosen.1 && r.value.env == inner.value.env)
      && (r.Ok? && u.NonRecursive? ==>
            r.value.stmt == Chain(unique.AscendingHeads(|fls|, inner.value.ids), inner.value.stmt)
            && r.value.ids == inner.value.ids + unique.FreshCount(|fls|))
      && (r.Ok? && !u.NonRecursive? ==>
            (r.value.stmt, r.value.ids)
              == BranchUniqueness(e.layout, x, unique, SharedPlan(I, x, t, u, fls, chosen.0), inner.value.stmt, inner.value.ids))
  {
    var inner := Specialize(I, e, ids, k);
    if inner.Ok? && u.NonRecursive? {
      var chosen := IndexSymbols(UnionIndexed(e.unionChildren[x]), 0, |fls|, map[], popped);
      UniquePlan(I, x, t, u, fls, chosen.0).WrapFromIsChain(|fls|, inner.value.stmt, inner.value.ids);
    }
  }

  /** Boxed: `DecRef` of the box exactly when some child had a reservation,
      which the box then takes; a plain decrement otherwise. */
  lemma BoxedShape(I: LayoutInterner, e: Env, ids: nat, popped: set<Symbol>, x: Symbol, k: Stmt)
    ensures var r := SpecializeBoxed(I, e, ids, popped, x, k);
      var inner := Specialize(I, e, ids, k);
      && (r.Ok? <==> inner.Ok?)
      && (r.Ok? ==>
        && r.value.stmt == Refcounting(if popped != {} then DecRef(x) else Dec(x), inner.value.stmt)
        && r.value.popped <= popped
        && |popped| - |r.value.popped| == (if popped != {} then 1 else 0))
  {
    if popped != {} {
      var m := Least(popped);
      assert popped == (popped - {m}) + {m};
    }
  }

  /** List: a list that cannot be specialised keeps its plain decrement; one
      whose every index has a registered element decrements the unpopped
      elements in ascending order, then `DecRef`s the list; one with an index
      no element is registered for panics. */
  lemma ListShape(I: LayoutInterner, e: Env, ids: nat, popped: set<Symbol>, x: Symbol, item: InLayout, k: Stmt)
    ensures var r := SpecializeList(I, e, ids, popped, x, item, k);
      var inner := Specialize(I, e, ids, k);
      && (inner.Err? ==> r.Err?)
      && (!ListSpecialisable(I, e, x, item) && inner.Ok? ==>
            r == Ok(SpecialisedDec(Refcounting(Dec(x), inner.value.stmt), inner.value.env, inner.value.ids, popped)))
      && (ListSpecialisable(I, e, x, item) && inner.Ok? ==>
            var cs := e.listChildren[x];
            var n := e.listLength[x];
            var chosen := IndexSymbols(cs, 0, n, map[], popped);
            && (forall i | 0 <= i < n :: i in chosen.0 <==> AnyAt(cs, i))
            && ((forall i | 0 <= i < n :: i in chosen.0) ==>
                  r == Ok(SpecialisedDec(Chain(ElementHeads(chosen.0, n), Refcounting(DecRef(x), inner.value.stmt)),
                                         inner.value.env, inner.value.ids, chosen.1)))
            && ((exists i | 0 <= i < n :: i !in chosen.0) ==> r.Err?))
  {
    if ListSpecialisable(I, e, x, item) && Specialize(I, e, ids, k).Ok? {
      var cs := e.listChildren[x];
      var n := e.listLength[x];
      var chosen := IndexSymbols(cs, 0, n, map[], popped);
      var inner := Specialize(I, e, ids, k).value;
      IndexSymbolsEffect(cs, 0, n, map[], popped);
      var tail := Refcounting(DecRef(x), inner.stmt);
      if forall i | 0 <= i < n :: i in chosen.0 {
        WrapElementsIsChain(chosen.0, n, tail);
      } else {
        var m :| 0 <= m < n && m !in chosen.0;
        WrapElementsFails(chosen.0, n, tail, m);
      }
    }
  }

  /** The list guard counts registered elements, not distinct indices: two
      elements registered at index 0 of a two-element list pass it, and the
      specialiser then panics on index 1. */
  lemma ListDuplicateIndexPanics(I: LayoutInterner, e: Env, ids: nat, x: Symbol, item: InLayout, a: Symbol, b: Symbol, k: Stmt)
    requires I.containsRefcounted(item)
    requires e.listLength == map[x := 2]
    requires e.listChildren == map[x := [IndexedChild(a, 0), IndexedChild(b, 0)]]
    requires Specialize(I, e, ids, k).Ok?
    ensures SpecializeList(I, e, ids, {}, x, item, k) == Err(ListItemMissing(1))
  {
    var cs := e.listChildren[x];
    var chosen := IndexSymbols(cs, 0, 2, map[], {});
    IndexSymbolsEffect(cs, 0, 2, map[], {});
    assert !AnyAt(cs, 1);
    assert 1 !in chosen.0;
    var inner := Specialize(I, e, ids, k).value;
    WrapElementsMissing(chosen.0, 2, Refcounting(DecRef(x), inner.stmt), 1);
  }
}
