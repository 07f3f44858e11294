/** How the pass treats increments, decrements and forks along one path. */
module DropRules {
  import opened Ir
  import opened Environment
  import opened Slots
  import opened Fields
  import opened DropSpec
  import opened DropSpecLemmas

  /** An increment of a symbol that already has a reservation emits nothing:
      its count is merged into the reservation. */
  lemma IncMerged(I: LayoutInterner, e: Env, ids: nat, x: Symbol, n: nat, k: Stmt)
    requires x in e.incrementedSymbols
    ensures Specialize(I, e, ids, Refcounting(Inc(x, n), k)) == Specialize(I, e.AddIncremented(x, n), ids, k)
    ensures e.AddIncremented(x, n).Count(x) == e.Count(x) + n
  {
  }

  /** The first increment of a symbol on a path is settled after its
      continuation is rewritten: one `Inc` carrying what the continuation left
      outstanding, or nothing when all of it was cancelled. The reservation is
      then gone and no other reservation is touched. */
  lemma IncSettledOnce(I: LayoutInterner, e: Env, ids: nat, x: Symbol, n: nat, k: Stmt)
    requires x !in e.incrementedSymbols
    ensures var r := Specialize(I, e, ids, Refcounting(Inc(x, n), k));
      var inner := Specialize(I, e.AddIncremented(x, n), ids, k);
      && (r.Ok? <==> inner.Ok?)
      && (r.Ok? ==>
        && r.value.ids == inner.value.ids
        && x !in r.value.env.incrementedSymbols
        && (forall t | t != x :: r.value.env.Count(t) == inner.value.env.Count(t))
        && (inner.value.env.Count(x) == 0 ==> r.value.stmt == inner.value.stmt)
        && (inner.value.env.Count(x) != 0 ==>
              r.value.stmt == Refcounting(Inc(x, inner.value.env.Count(x)), inner.value.stmt)))
  {
  }

  /** An increment immediately cancelled by a decrement of the same symbol
      disappears together with it. */
  lemma IncDecCancel(I: LayoutInterner, e: Env, ids: nat, x: Symbol, k: Stmt)
    requires x !in e.incrementedSymbols
    ensures Specialize(I, e, ids, Refcounting(Inc(x, 1), Refcounting(Dec(x), k))) == Specialize(I, e, ids, k)
  {
    var e1 := e.AddIncremented(x, 1);
    assert e1.PopIncremented(x) == (true, e) by {
      assert e1.incrementedSymbols - {x} == e.incrementedSymbols;
    }
    assert Specialize(I, e1, ids, Refcounting(Dec(x), k)) == Specialize(I, e, ids, k);
    var r := Specialize(I, e, ids, k);
    if r.Ok? {
      SpecializeSettled(I, e, ids, k);
      assert r.value.env.GetIncremented(x) == (0, r.value.env) by {
        assert r.value.env.incrementedSymbols - {x} == r.value.env.incrementedSymbols;
      }
    }
  }

  /** `Inc(x, n)` directly followed by `Dec(x)` is rewritten as `Inc(x, n - 1)` would be. */
  lemma IncDecMerge(I: LayoutInterner, e: Env, ids: nat, x: Symbol, n: nat, k: Stmt)
    requires x !in e.incrementedSymbols && n >= 2
    ensures Specialize(I, e, ids, Refcounting(Inc(x, n), Refcounting(Dec(x), k)))
         == Specialize(I, e, ids, Refcounting(Inc(x, n - 1), k))
  {
    DecAfterInc(I, e, ids, x, n, k);
    IncCongruent(I, e, ids, x, n, Refcounting(Dec(x), k), n - 1, k);
  }

  /** Right after `n >= 2` reservations of `x` are made, a decrement of `x` leaves `n - 1`. */
  lemma DecAfterInc(I: LayoutInterner, e: Env, ids: nat, x: Symbol, n: nat, k: Stmt)
    requires x !in e.incrementedSymbols && n >= 2
    ensures Specialize(I, e.AddIncremented(x, n), ids, Refcounting(Dec(x), k))
         == Specialize(I, e.AddIncremented(x, n - 1), ids, k)
  {
    var en, en1 := e.AddIncremented(x, n), e.AddIncremented(x, n - 1);
    assert en.PopIncremented(x).1 == en1 by {
      assert en.incrementedSymbols[x := n - 1] == en1.incrementedSymbols;
    }
    DecCancelled(I, en, ids, x, k);
  }

  /** An increment of a symbol without reservation is settled from what its
      continuation gives: two increments whose continuations give the same
      result give the same result. */
  lemma IncCongruent(I: LayoutInterner, e: Env, ids: nat, x: Symbol, n: nat, k: Stmt, n': nat, k': Stmt)
    requires x !in e.incrementedSymbols
    requires Specialize(I, e.AddIncremented(x, n), ids, k) == Specialize(I, e.AddIncremented(x, n'), ids, k')
    ensures Specialize(I, e, ids, Refcounting(Inc(x, n), k)) == Specialize(I, e, ids, Refcounting(Inc(x, n'), k'))
  {
  }

  /** A decrement of a symbol with a reservation emits nothing and consumes one unit of it. */
  lemma DecCancelled(I: LayoutInterner, e: Env, ids: nat, x: Symbol, k: Stmt)
    requires x in e.incrementedSymbols
    ensures Specialize(I, e, ids, Refcounting(Dec(x), k)) == Specialize(I, e.PopIncremented(x).1, ids, k)
    ensures e.Count(x) >= 1 ==> e.PopIncremented(x).1.Count(x) == e.Count(x) - 1
    // A stored zero, only left by `Inc(x, 0)`, wraps around.
    ensures e.Count(x) == 0 ==> e.PopIncremented(x).1.Count(x) == U64_MAX
  {
  }

  /** A decrement without reservation hands the children it popped
      (`popped`, leaving `lowered`; see `PopChildrenEffect` for which) to the
      specialiser, and afterwards gives back exactly one reservation to each
      popped child the specialiser did not use. */
  lemma DecRestoresChildren(I: LayoutInterner, e: Env, ids: nat, x: Symbol, k: Stmt, popped: set<Symbol>, lowered: Env)
    requires x !in e.incrementedSymbols
    requires e.PopChildren(e.GetChildren(x), {}).0 == popped
    requires e.PopChildren(e.GetChildren(x), {}).1 == lowered
    ensures Specialize(I, e, ids, Refcounting(Dec(x), k)).Ok? <==> DispatchDec(I, lowered, ids, x, popped, k).Ok?
    ensures DispatchDec(I, lowered, ids, x, popped, k).Ok? ==>
      && DispatchDec(I, lowered, ids, x, popped, k).value.popped <= popped
      && Specialize(I, e, ids, Refcounting(Dec(x), k)).value.stmt == DispatchDec(I, lowered, ids, x, popped, k).value.stmt
      && forall t :: Specialize(I, e, ids, Refcounting(Dec(x), k)).value.env.Count(t)
                     == DispatchDec(I, lowered, ids, x, popped, k).value.env.Count(t)
                        + (if t in DispatchDec(I, lowered, ids, x, popped, k).value.popped then 1 else 0)
  {
    DispatchSettled(I, lowered, ids, x, popped, k);
  }

  /** Two environments that differ only in their reservations give the same
      branches: each branch runs on a fork that has none. */
  lemma {:induction false} BranchesIgnoreReservations(I: LayoutInterner, e: Env, e': Env, ids: nat, s: Stmt, i: nat)
    requires s.Switch? && i <= |s.branches|
    requires e.SameFacts(e')
    ensures SpecializeBranches(I, e, ids, s, i) == SpecializeBranches(I, e', ids, s, i)
    decreases |s.branches| - i
  {
    if i < |s.branches| {
      assert e.WithoutIncremented() == e'.WithoutIncremented();
      var r := Specialize(I, e.WithoutIncremented().InsertBranchInfo(s.branches[i].info), ids, s.branches[i].body);
      if r.Ok? {
        BranchesIgnoreReservations(I, e, e', r.value.ids, s, i + 1);
      }
    }
  }

  /** A switch is rewritten the same whatever the reservations before it, and
      leaves the environment before it untouched: a decrement in a branch never
      cancels an increment made before the switch. */
  lemma SwitchIgnoresReservations(I: LayoutInterner, e: Env, e': Env, ids: nat, s: Stmt)
    requires s.Switch? && e.SameFacts(e')
    ensures var r := Specialize(I, e, ids, s);
      var r' := Specialize(I, e', ids, s);
      && (r.Ok? <==> r'.Ok?)
      && (r.Ok? ==> r.value.stmt == r'.value.stmt && r.value.ids == r'.value.ids
                    && r.value.env == e && r'.value.env == e')
  {
    BranchesIgnoreReservations(I, e, e', ids, s, 0);
    assert e.WithoutIncremented() == e'.WithoutIncremented();
  }

  /** The continuation of a call, a struct or a tag construction is rewritten
      the same whatever the reservations before it, and the parent environment
      only gains the binding's layout. */
  lemma ForkedLetIgnoresReservations(I: LayoutInterner, e: Env, e': Env, ids: nat, s: Stmt)
    requires s.Let? && Forks(s.expr) && e.SameFacts(e')
    ensures var r := Specialize(I, e, ids, s);
      var r' := Specialize(I, e', ids, s);
      && (r.Ok? <==> r'.Ok?)
      && (r.Ok? ==> r.value.stmt == r'.value.stmt && r.value.ids == r'.value.ids
                    && r.value.env == e.AddSymbolLayout(s.binding, s.layout)
                    && r'.value.env == e'.AddSymbolLayout(s.binding, s.layout))
  {
    var e1 := e.AddSymbolLayout(s.binding, s.layout);
    var e1' := e'.AddSymbolLayout(s.binding, s.layout);
    assert e1.WithoutIncremented() == e1'.WithoutIncremented();
    assert LetEnvironment(e1, s.binding, s.expr) == LetEnvironment(e1', s.binding, s.expr);
  }

  /** A join point's body is rewritten the same whatever the reservations
      before it: it runs on a fork holding the parameters' layouts. */
  lemma JoinBodyIgnoresReservations(I: LayoutInterner, e: Env, e': Env, ids: nat, s: Stmt)
    requires s.Join? && e.SameFacts(e')
    ensures var r := Specialize(I, e, ids, s);
      var body := Specialize(I, AddParams(e.WithoutIncremented(), s.parameters), ids, s.body);
      && (r.Ok? ==> body.Ok? && r.value.stmt.body == body.value.stmt)
      && body == Specialize(I, AddParams(e'.WithoutIncremented(), s.parameters), ids, s.body)
  {
    assert e.WithoutIncremented() == e'.WithoutIncremented();
  }
}
