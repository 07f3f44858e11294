/** Small procedures rewritten by the pass, worked out in full. */
module DropExamples {
  import opened Ir
  import opened Environment
  import opened Slots
  import opened Fields
  import opened DropSpec

  /** Layout 1 is a struct of two fields of layout 2; layout 2 is refcounted.
      Layout 3 is a list of layout-2 items. Layout 4 is a recursive union with
      one tag of two layout-2 fields. */
  function Interner(): LayoutInterner {
    LayoutInterner(
      l => if l == 1 then StructRepr([2, 2])
           else if l == 3 then ListRepr(2)
           else if l == 4 then UnionRepr(Recursive([[2, 2]]))
           else OtherRepr,
      l => l == 2,
      l => l)
  }

  /** The environment after `let a = b.0` in a procedure with argument `b`
      (symbol 0) of layout 1; `a` is symbol 1. */
  function StructEnv(): Env {
    Env.Empty(1).(symbolLayouts := map[0 := 1, 1 := 2], structChildren := map[0 := [IndexedChild(1, 0)]])
  }

  /** `dec b; ret b` once the reservation of `a` is gone: `a` stands for field
      0 and is decremented; field 1 is projected into fresh symbol 10 and
      decremented; `b` is not decremented. */
  lemma {:induction false} StructParentDec()
    ensures Specialize(Interner(), StructEnv(), 10, Refcounting(Dec(0), Ret(0)))
      == Ok(Out(Refcounting(Dec(1), Let(10, StructAtIndex(1, [2, 2], 0), 2, Refcounting(Dec(10), Ret(0)))),
                StructEnv(), 11))
  {
    var I := Interner();
    var e1 := StructEnv();
    var fields := Refcounting(Dec(1), Let(10, StructAtIndex(1, [2, 2], 0), 2, Refcounting(Dec(10), Ret(0))));
    StructFieldsChosen();
    StructFieldsWrapped();
    var d := SpecialisedDec(fields, e1, 11, {});
    assert DispatchDec(I, e1, 10, 0, {}, Ret(0)) == Ok(d) by {
      assert Specialize(I, e1, 10, Ret(0)) == Ok(Out(Ret(0), e1, 10));
      assert SpecializeStruct(I, e1, 10, 0, [2, 2], {}, Ret(0)) == Ok(d);
    }
    StructChildrenNotPopped();
    DecUnfolds(I, e1, 10, 0, Ret(0), {}, e1, d);
    AddBackNothing(e1);
  }

  /** The struct's only child, `a`, has no reservation to pop. */
  lemma StructChildrenNotPopped()
    ensures StructEnv().PopChildren(StructEnv().GetChildren(0), {}) == ({}, StructEnv())
  {
    var e1 := StructEnv();
    assert e1.GetChildren(0) == [1];
    assert e1.PopIncremented(1) == (false, e1);
  }

  /** Of the struct's two fields only field 0 has a child, `a`, which was not popped. */
  lemma StructFieldsChosen()
    ensures IndexSymbols([IndexedChild(1, 0)], 0, 2, map[], {}) == (map[0 := Slot(1, false)], {})
  {
    assert ScanIndex([IndexedChild(1, 0)], 0, None, {}) == (Some(Slot(1, false)), {});
    assert ScanIndex([IndexedChild(1, 0)], 1, None, {}) == (None, {});
  }

  /** The field loop decrements `a` for field 0 and projects field 1 into symbol 10. */
  lemma StructFieldsWrapped()
    ensures StructPlan(Interner(), 0, [2, 2], map[0 := Slot(1, false)]).WrapFrom(2, Ret(0), 10)
      == (Refcounting(Dec(1), Let(10, StructAtIndex(1, [2, 2], 0), 2, Refcounting(Dec(10), Ret(0)))), 11)
  {
    var plan := StructPlan(Interner(), 0, [2, 2], map[0 := Slot(1, false)]);
    assert plan.FieldHeads(1, 10) == [LetHead(10, StructAtIndex(1, [2, 2], 0), 2), RcHead(Dec(10))];
    assert plan.FieldHeads(0, 11) == [RcHead(Dec(1))];
  }

  /** `let a = b.0; inc a; dec a; dec b; ret b` with `b` a struct of two
      refcounted fields: the increment of `a` is cancelled by its decrement,
      and the decrement of `b` becomes a decrement of each field, `a` for field
      0 and a fresh projection for field 1, in field order; `b` itself is not
      decremented. */
  lemma {:induction false} StructExample()
    ensures
      var body :=
        Let(1, StructAtIndex(0, [2, 2], 0), 2,
        Refcounting(Inc(1, 1),
        Refcounting(Dec(1),
        Refcounting(Dec(0),
        Ret(0)))));
      SpecializeProc(Interner(), 1, [Param(0, 1)], 10, body)
        == Ok(Out(
          Let(1, StructAtIndex(0, [2, 2], 0), 2,
          Refcounting(Dec(1),
          Let(10, StructAtIndex(1, [2, 2], 0), 2,
          Refcounting(Dec(10),
          Ret(0))))),
          StructEnv(),
          11))
  {
    var I := Interner();
    var e0 := Env.Empty(1).(symbolLayouts := map[0 := 1]);
    assert AddParams(Env.Empty(1), [Param(0, 1)]) == e0;
    var e1 := StructEnv();
    assert LetEnvironment(e0.AddSymbolLayout(1, 2), 1, StructAtIndex(0, [2, 2], 0)) == Ok(e1) by {
      var children: map<Symbol, seq<IndexedChild>> := map[];
      assert Registered(children, 0) + [IndexedChild(1, 0)] == [IndexedChild(1, 0)];
      assert Push(children, 0, IndexedChild(1, 0)) == map[0 := [IndexedChild(1, 0)]];
      assert e0.symbolLayouts[1 := 2] == map[0 := 1, 1 := 2];
    }
    var fields := Refcounting(Dec(1), Let(10, StructAtIndex(1, [2, 2], 0), 2, Refcounting(Dec(10), Ret(0))));
    var k := Refcounting(Dec(0), Ret(0));
    StructParentDec();
    assert e1.AddIncremented(1, 1).PopIncremented(1).1 == e1;
    assert Specialize(I, e1.AddIncremented(1, 1), 10, Refcounting(Dec(1), k)) == Ok(Out(fields, e1, 11));
    assert e1.GetIncremented(1) == (0, e1);
    assert Specialize(I, e1, 10, Refcounting(Inc(1, 1), Refcounting(Dec(1), k))) == Ok(Out(fields, e1, 11));
    assert Specialize(I, e0, 10, Let(1, StructAtIndex(0, [2, 2], 0), 2, Refcounting(Inc(1, 1), Refcounting(Dec(1), k))))
        == Ok(Out(Let(1, StructAtIndex(0, [2, 2], 0), 2, fields), e1, 11));
  }

  /** The list specialiser on `l` whose two elements `a` and `b` were both
      popped: it takes both, leaves no popped child, and emits only `DecRef(l)`. */
  lemma {:induction false} ListTakesBoth(I: LayoutInterner, e: Env, ids: nat, l: Symbol, a: Symbol, b: Symbol,
                                         item: InLayout, k: Stmt)
    requires k.Jump?
    requires I.containsRefcounted(item)
    requires l in e.symbolLayouts && I.runtimeRepresentation(e.symbolLayouts[l]) == ListRepr(item)
    requires l in e.listLength && e.listLength[l] == 2
    requires l in e.listChildren && e.listChildren[l] == [IndexedChild(a, 0), IndexedChild(b, 1)]
    requires a != b
    ensures DispatchDec(I, e, ids, l, {a, b}, k) == Ok(SpecialisedDec(Refcounting(DecRef(l), k), e, ids, {}))
  {
    var cs := [IndexedChild(a, 0), IndexedChild(b, 1)];
    var slots := map[0 := Slot(a, true), 1 := Slot(b, true)];
    assert IndexSymbols(cs, 0, 2, map[], {a, b}) == (slots, {}) by {
      assert {a, b} - {a} == {b};
      assert ScanIndex(cs, 0, None, {a, b}) == (Some(Slot(a, true)), {b});
      assert ScanIndex(cs, 1, None, {b}) == (Some(Slot(b, true)), {}) by {
        assert cs[1..] == [IndexedChild(b, 1)];
        assert {b} - {b} == {};
      }
    }
    assert WrapElements(slots, 2, Refcounting(DecRef(l), k)) == Ok(Refcounting(DecRef(l), k));
    assert ListSpecialisable(I, e, l, item);
    assert Specialize(I, e, ids, k) == Ok(Out(k, e, ids));
    assert SpecializeList(I, e, ids, {a, b}, l, item, k) == Ok(SpecialisedDec(Refcounting(DecRef(l), k), e, ids, {}));
  }

  /** A list whose only registry holds elements `a` and `b` has exactly those children, in order. */
  lemma ListChildren(e: Env, l: Symbol, a: Symbol, b: Symbol)
    requires l !in e.structChildren && l !in e.unionChildren && l !in e.boxChildren
    requires l in e.listChildren && e.listChildren[l] == [IndexedChild(a, 0), IndexedChild(b, 1)]
    ensures e.GetChildren(l) == [a, b]
  {
    assert IndexedChildren(e.listChildren[l]) == [a, b];
  }

  /** The decrement of `l` pops the one reservation of each of its two elements. */
  lemma {:induction false} ListPopsBoth(e: Env, l: Symbol, a: Symbol, b: Symbol)
    requires l !in e.structChildren && l !in e.unionChildren && l !in e.boxChildren
    requires l in e.listChildren && e.listChildren[l] == [IndexedChild(a, 0), IndexedChild(b, 1)]
    requires a != b
    requires e.incrementedSymbols == map[a := 1, b := 1]
    ensures e.PopChildren(e.GetChildren(l), {}).0 == {a, b}
    ensures e.PopChildren(e.GetChildren(l), {}).1 == e.(incrementedSymbols := map[])
  {
    var e2 := e.(incrementedSymbols := map[]);
    ListChildren(e, l, a, b);
    var e1 := e.(incrementedSymbols := map[b := 1]);
    assert e.incrementedSymbols - {a} == map[b := 1];
    assert e.PopIncremented(a) == (true, e1);
    assert e1.incrementedSymbols - {b} == map[];
    assert e1.PopIncremented(b) == (true, e2);
    assert [a, b][1..] == [b];
    assert e2.PopChildren([], {a, b}) == ({a, b}, e2);
    assert e1.PopChildren([b], {a}) == ({a, b}, e2) by {
      assert [b][1..] == [];
      assert {a} + {b} == {a, b};
    }
    assert {} + {a} == {a};
  }

  /** `dec l` where `l` is a list of refcounted items whose two elements
      `a` (index 0) and `b` (index 1) each hold one reservation: both are
      popped and taken by the list, and only the list cell is released. */
  lemma {:induction false} ListParentDec(I: LayoutInterner, e: Env, ids: nat, l: Symbol, a: Symbol, b: Symbol,
                                         item: InLayout, target: Symbol, args: seq<Symbol>)
    requires I.containsRefcounted(item)
    requires l in e.symbolLayouts && I.runtimeRepresentation(e.symbolLayouts[l]) == ListRepr(item)
    requires l in e.listLength && e.listLength[l] == 2
    requires l !in e.structChildren && l !in e.unionChildren && l !in e.boxChildren
    requires l in e.listChildren && e.listChildren[l] == [IndexedChild(a, 0), IndexedChild(b, 1)]
    requires a != b && l != a && l != b
    requires e.incrementedSymbols == map[a := 1, b := 1]
    ensures Specialize(I, e, ids, Refcounting(Dec(l), Jump(target, args)))
      == Ok(Out(Refcounting(DecRef(l), Jump(target, args)), e.(incrementedSymbols := map[]), ids))
  {
    var k := Jump(target, args);
    var e2 := e.(incrementedSymbols := map[]);
    var d := SpecialisedDec(Refcounting(DecRef(l), k), e2, ids, {});
    ListPopsBoth(e, l, a, b);
    ListTakesBoth(I, e2, ids, l, a, b, item, k);
    DecUnfolds(I, e, ids, l, k, {a, b}, e2, d);
    AddBackNothing(e2);
  }

  /** `inc a; inc b; dec l` in the same setting without reservations: each
      increment is cancelled by the list's decrement, so neither is emitted. */
  lemma {:induction false} ListIncrementsCancelled(I: LayoutInterner, e: Env, ids: nat, l: Symbol, a: Symbol, b: Symbol,
                                                   item: InLayout, target: Symbol, args: seq<Symbol>)
    requires I.containsRefcounted(item)
    requires l in e.symbolLayouts && I.runtimeRepresentation(e.symbolLayouts[l]) == ListRepr(item)
    requires l in e.listLength && e.listLength[l] == 2
    requires l !in e.structChildren && l !in e.unionChildren && l !in e.boxChildren
    requires l in e.listChildren && e.listChildren[l] == [IndexedChild(a, 0), IndexedChild(b, 1)]
    requires a != b && l != a && l != b
    requires e.incrementedSymbols == map[]
    ensures Specialize(I, e, ids, Refcounting(Inc(a, 1), Refcounting(Inc(b, 1), Refcounting(Dec(l), Jump(target, args)))))
      == Ok(Out(Refcounting(DecRef(l), Jump(target, args)), e, ids))
  {
    var out := Refcounting(DecRef(l), Jump(target, args));
    var dec := Refcounting(Dec(l), Jump(target, args));
    var ea := e.AddIncremented(a, 1);
    var eab := e.(incrementedSymbols := map[a := 1, b := 1]);
    assert ea.AddIncremented(b, 1) == eab;
    ListParentDec(I, eab, ids, l, a, b, item, target, args);
    assert eab.(incrementedSymbols := map[]) == e;
    IncAbsorbed(I, ea, ids, b, 1, dec, Out(out, e, ids));
    IncAbsorbed(I, e, ids, a, 1, Refcounting(Inc(b, 1), dec), Out(out, e, ids));
  }

  /** A binding that does not fork passes its continuation's rewrite through. */
  lemma LetThrough(I: LayoutInterner, e: Env, ids: nat, b: Symbol, x: Expr, l: InLayout, k: Stmt, inner: Env)
    requires !Forks(x) && LetEnvironment(e.AddSymbolLayout(b, l), b, x) == Ok(inner)
    ensures var r := Specialize(I, inner, ids, k);
      r.Ok? ==> Specialize(I, e, ids, Let(b, x, l, k)) == Ok(Out(Let(b, x, l, r.value.stmt), r.value.env, r.value.ids))
  {
  }

  /** `let a = get(l, i); let b = get(l, j); inc a; inc b; dec l` where `i`
      and `j` are known to be 0 and 1 and `l` is a list of refcounted items of
      length 2 with no registered child yet: only `DecRef(l)` remains after
      the bindings. */
  lemma {:induction false} ListAccesses(I: LayoutInterner, e: Env, ids: nat, l: Symbol, i: Symbol, j: Symbol,
                                        a: Symbol, b: Symbol, item: InLayout, target: Symbol)
    requires I.containsRefcounted(item)
    requires l in e.symbolLayouts && I.runtimeRepresentation(e.symbolLayouts[l]) == ListRepr(item)
    requires l in e.listLength && e.listLength[l] == 2
    requires l !in e.structChildren && l !in e.unionChildren && l !in e.boxChildren && l !in e.listChildren
    requires i in e.symbolIndex && e.symbolIndex[i] == 0 && j in e.symbolIndex && e.symbolIndex[j] == 1
    requires e.incrementedSymbols == map[]
    requires l != a && l != b && a != b
    ensures
      var k := Refcounting(Inc(a, 1), Refcounting(Inc(b, 1), Refcounting(Dec(l), Jump(target, [a, b]))));
      var r := Specialize(I, e, ids,
        Let(a, Call(LowLevelCall(ListGetUnsafe), [l, i]), item,
        Let(b, Call(LowLevelCall(ListGetUnsafe), [l, j]), item, k)));
      r.Ok? && r.value.ids == ids &&
      r.value.stmt ==
        Let(a, Call(LowLevelCall(ListGetUnsafe), [l, i]), item,
        Let(b, Call(LowLevelCall(ListGetUnsafe), [l, j]), item,
        Refcounting(DecRef(l), Jump(target, [a, b]))))
  {
    var e3 := e.AddSymbolLayout(a, item).(listChildren := e.listChildren[l := [IndexedChild(a, 0)]]);
    var e4 := e3.AddSymbolLayout(b, item).(listChildren := e.listChildren[l := [IndexedChild(a, 0), IndexedChild(b, 1)]]);
    var k := Refcounting(Inc(a, 1), Refcounting(Inc(b, 1), Refcounting(Dec(l), Jump(target, [a, b]))));
    var s4 := Let(b, Call(LowLevelCall(ListGetUnsafe), [l, j]), item, k);
    assert LetEnvironment(e3.AddSymbolLayout(b, item), b, Call(LowLevelCall(ListGetUnsafe), [l, j])) == Ok(e4) by {
      assert Registered(e3.listChildren, l) + [IndexedChild(b, 1)] == [IndexedChild(a, 0), IndexedChild(b, 1)];
      assert e3.listChildren[l := [IndexedChild(a, 0), IndexedChild(b, 1)]] == e4.listChildren;
    }
    ListIncrementsCancelled(I, e4, ids, l, a, b, item, target, [a, b]);
    LetThrough(I, e3, ids, b, Call(LowLevelCall(ListGetUnsafe), [l, j]), item, k, e4);
    assert LetEnvironment(e.AddSymbolLayout(a, item), a, Call(LowLevelCall(ListGetUnsafe), [l, i])) == Ok(e3) by {
      assert Registered(e.listChildren, l) + [IndexedChild(a, 0)] == [IndexedChild(a, 0)];
    }
    LetThrough(I, e, ids, a, Call(LowLevelCall(ListGetUnsafe), [l, i]), item, s4, e3);
  }

  /** Binding a small integer literal records it as the binding's index. */
  lemma IntLiteralBinding(e: Env, b: Symbol, n: nat, layout: InLayout)
    requires n <= U64_MAX
    ensures LetEnvironment(e.AddSymbolLayout(b, layout), b, LiteralExpr(IntLiteral(n)))
      == Ok(e.AddSymbolLayout(b, layout).(symbolIndex := e.symbolIndex[b := n]))
  {
  }

  /** `let i = 0; let j = 1; let a = get(l, i); let b = get(l, j); inc a;
      inc b; dec l` in a branch where list `l` of refcounted items has length
      2: both increments cancel against the list's decrement, which becomes
      `DecRef(l)` alone; no fresh symbol is used. */
  lemma {:induction false} ListExample(I: LayoutInterner, retLayout: InLayout, ids: nat,
                                       l: Symbol, i: Symbol, j: Symbol, a: Symbol, b: Symbol,
                                       listLayout: InLayout, item: InLayout, indexLayout: InLayout,
                                       target: Symbol)
    requires I.containsRefcounted(item) && I.runtimeRepresentation(listLayout) == ListRepr(item)
    requires l != i && l != j && l != a && l != b && i != j
    requires i != a && i != b && j != a && j != b && a != b
    ensures
      var e := Env.Empty(retLayout).(symbolLayouts := map[l := listLayout], listLength := map[l := 2]);
      var body :=
        Let(i, LiteralExpr(IntLiteral(0)), indexLayout,
        Let(j, LiteralExpr(IntLiteral(1)), indexLayout,
        Let(a, Call(LowLevelCall(ListGetUnsafe), [l, i]), item,
        Let(b, Call(LowLevelCall(ListGetUnsafe), [l, j]), item,
        Refcounting(Inc(a, 1), Refcounting(Inc(b, 1), Refcounting(Dec(l), Jump(target, [a, b]))))))));
      var r := Specialize(I, e, ids, body);
      r.Ok? && r.value.ids == ids &&
      r.value.stmt ==
        Let(i, LiteralExpr(IntLiteral(0)), indexLayout,
        Let(j, LiteralExpr(IntLiteral(1)), indexLayout,
        Let(a, Call(LowLevelCall(ListGetUnsafe), [l, i]), item,
        Let(b, Call(LowLevelCall(ListGetUnsafe), [l, j]), item,
        Refcounting(DecRef(l), Jump(target, [a, b]))))))
  {
    var e := Env.Empty(retLayout).(symbolLayouts := map[l := listLayout], listLength := map[l := 2]);
    var e1 := e.AddSymbolLayout(i, indexLayout).(symbolIndex := map[i := 0]);
    var e2 := e1.AddSymbolLayout(j, indexLayout).(symbolIndex := map[i := 0, j := 1]);
    var k := Refcounting(Inc(a, 1), Refcounting(Inc(b, 1), Refcounting(Dec(l), Jump(target, [a, b]))));
    var s3 := Let(a, Call(LowLevelCall(ListGetUnsafe), [l, i]), item, Let(b, Call(LowLevelCall(ListGetUnsafe), [l, j]), item, k));
    var s2 := Let(j, LiteralExpr(IntLiteral(1)), indexLayout, s3);
    IntLiteralBinding(e1, j, 1, indexLayout);
    assert e1.symbolIndex[j := 1] == map[i := 0, j := 1];
    IntLiteralBinding(e, i, 0, indexLayout);
    assert e.symbolIndex[i := 0] == map[i := 0];
    ListAccesses(I, e2, ids, l, i, j, a, b, item, target);
    LetThrough(I, e1, ids, j, LiteralExpr(IntLiteral(1)), indexLayout, s3, e2);
    LetThrough(I, e, ids, i, LiteralExpr(IntLiteral(0)), indexLayout, s2, e1);
  }
}
