/** Properties of the pure pass that hold of every statement: what the pass
    leaves in the environment, proved by one induction over the mutually
    recursive rewrite and its specialisers. */
module DropSpecLemmas {
  import opened Ir
  import opened Environment
  import opened TagLayout
  import opened Slots
  import opened Fields
  import opened DropSpec

  /** What rewriting `s` from `e` with next symbol `ids` may do to the
      environment and counter: facts only grow, no reservation is invented,
      fresh symbols are never handed out twice, and, when every `Inc` of `s`
      counts at least one, no zero count is ever stored. */
  predicate Settled(e: Env, ids: nat, s: Stmt, e': Env, ids': nat) {
    && e.GrowsInto(e')
    && e'.incrementedSymbols.Keys <= e.incrementedSymbols.Keys
    && ids <= ids'
    && (e.PositiveCounts() && IncCountsPositive(s) ==> e'.PositiveCounts())
  }

  /** The same for a specialiser, which also hands back part of the popped children. */
  predicate SettledDec(e: Env, ids: nat, popped: set<Symbol>, k: Stmt, d: SpecialisedDec) {
    Settled(e, ids, k, d.env, d.ids) && d.popped <= popped
  }

  lemma SameFactsGrows(e: Env, e': Env)
    requires e.SameFacts(e')
    ensures e.GrowsInto(e')
  {
  }

  lemma WrapFromIds(p: FieldPlan, k: Stmt, ids: nat)
    ensures p.WrapFrom(|p.fieldLayouts|, k, ids).1 >= ids
  {
    p.WrapFromIsChain(|p.fieldLayouts|, k, ids);
  }

  lemma {:induction false} SpecializeSettled(I: LayoutInterner, e: Env, ids: nat, s: Stmt)
    ensures Specialize(I, e, ids, s).Ok? ==>
      Settled(e, ids, s, Specialize(I, e, ids, s).value.env, Specialize(I, e, ids, s).value.ids)
    decreases s, 1, 0
  {
    if Specialize(I, e, ids, s).Err? {
      return;
    }
    match s
    case Let(_, _, _, _) =>
      LetSettled(I, e, ids, s);
    case Switch(_, _, _, _, _, _) =>
      SwitchSettled(I, e, ids, s);
    case Ret(_) =>
    case Refcounting(Inc(_, _), _) =>
      IncSettled(I, e, ids, s);
    case Refcounting(Dec(_), _) =>
      DecSettled(I, e, ids, s);
    case Refcounting(DecRef(x), k) =>
      SpecializeSettled(I, e, ids, k);
    case Expect(c, ls, k) =>
      SpecializeSettled(I, e, ids, k);
    case ExpectFx(c, ls, k) =>
      SpecializeSettled(I, e, ids, k);
    case Dbg(x, k) =>
      SpecializeSettled(I, e, ids, k);
    case Join(_, _, _, _) =>
      JoinSettled(I, e, ids, s);
    case Jump(_, _) =>
    case Crash(_) =>
  }

  lemma {:induction false} SwitchSettled(I: LayoutInterner, e: Env, ids: nat, s: Stmt)
    requires s.Switch?
    ensures Specialize(I, e, ids, s).Ok? ==>
      Settled(e, ids, s, Specialize(I, e, ids, s).value.env, Specialize(I, e, ids, s).value.ids)
    decreases s, 0, |s.branches| + 1
  {
    var rb := SpecializeBranches(I, e, ids, s, 0);
    if rb.Err? {
      return;
    }
    BranchesSettled(I, e, ids, s, 0);
    SpecializeSettled(I, e.WithoutIncremented().InsertBranchInfo(s.defaultInfo), rb.value.1, s.defaultBranch);
  }

  lemma {:induction false} IncSettled(I: LayoutInterner, e: Env, ids: nat, s: Stmt)
    requires s.Refcounting? && s.rc.Inc?
    ensures Specialize(I, e, ids, s).Ok? ==>
      Settled(e, ids, s, Specialize(I, e, ids, s).value.env, Specialize(I, e, ids, s).value.ids)
    decreases s, 0, 0
  {
    var x, n, k := s.rc.symbol, s.rc.count, s.continuation;
    var e1 := e.AddIncremented(x, n);
    if Specialize(I, e1, ids, k).Err? {
      return;
    }
    SameFactsGrows(e, e1);
    SpecializeSettled(I, e1, ids, k);
    var inner := Specialize(I, e1, ids, k).value;
    GrowsTrans(e, e1, inner.env);
    if x !in e.incrementedSymbols {
      var settled := inner.env.GetIncremented(x);
      SameFactsGrows(inner.env, settled.1);
      GrowsTrans(e, inner.env, settled.1);
    }
  }

  lemma {:induction false} JoinSettled(I: LayoutInterner, e: Env, ids: nat, s: Stmt)
    requires s.Join?
    ensures Specialize(I, e, ids, s).Ok? ==>
      Settled(e, ids, s, Specialize(I, e, ids, s).value.env, Specialize(I, e, ids, s).value.ids)
    decreases s, 0, 0
  {
    var bodyEnv := AddParams(e.WithoutIncremented(), s.parameters);
    if Specialize(I, bodyEnv, ids, s.body).Err? {
      return;
    }
    var rb := Specialize(I, bodyEnv, ids, s.body).value;
    SpecializeSettled(I, bodyEnv, ids, s.body);
    SpecializeSettled(I, e, rb.ids, s.remainder);
  }

  lemma {:induction false} LetSettled(I: LayoutInterner, e: Env, ids: nat, s: Stmt)
    requires s.Let?
    ensures Specialize(I, e, ids, s).Ok? ==>
      Settled(e, ids, s, Specialize(I, e, ids, s).value.env, Specialize(I, e, ids, s).value.ids)
    decreases s, 0, 0
  {
    var Let(b, x, l, k) := s;
    var e1 := e.AddSymbolLayout(b, l);
    var env := LetEnvironment(e1, b, x);
    if env.Err? || Specialize(I, env.value, ids, k).Err? {
      return;
    }
    var inner := Specialize(I, env.value, ids, k).value;
    SpecializeSettled(I, env.value, ids, k);
    LetSettledFrom(e, s, env.value, ids, inner.env, inner.ids);
    assert Specialize(I, e, ids, s).value == Out(Let(b, x, l, inner.stmt), if Forks(x) then e1 else inner.env, inner.ids);
  }

  /** The let case once its continuation has settled into `e'`. */
  lemma LetSettledFrom(e: Env, s: Stmt, bound: Env, ids: nat, e': Env, ids': nat)
    requires s.Let?
    requires LetEnvironment(e.AddSymbolLayout(s.binding, s.layout), s.binding, s.expr) == Ok(bound)
    requires Settled(bound, ids, s.continuation, e', ids')
    ensures Settled(e, ids, s, if Forks(s.expr) then e.AddSymbolLayout(s.binding, s.layout) else e', ids')
  {
    var e1 := e.AddSymbolLayout(s.binding, s.layout);
    if !Forks(s.expr) {
      GrowsTrans(e, e1, bound);
      GrowsTrans(e, bound, e');
    }
  }

  lemma {:induction false} DecSettled(I: LayoutInterner, e: Env, ids: nat, s: Stmt)
    requires s.Refcounting? && s.rc.Dec?
    ensures var r := Specialize(I, e, ids, s);
      r.Ok? ==> Settled(e, ids, s, r.value.env, r.value.ids)
    decreases s, 0, 0
  {
    var r := Specialize(I, e, ids, s);
    if r.Err? {
      return;
    }
    var x, k := s.rc.symbol, s.continuation;
    var cancelled := e.PopIncremented(x);
    SameFactsGrows(e, cancelled.1);
    if cancelled.0 {
      SpecializeSettled(I, cancelled.1, ids, k);
      GrowsTrans(e, cancelled.1, r.value.env);
    } else {
      var children := e.PopChildren(e.GetChildren(x), {});
      var e2 := children.1;
      SameFactsGrows(e, e2);
      DispatchSettled(I, e2, ids, x, children.0, k);
      var d := DispatchDec(I, e2, ids, x, children.0, k).value;
      assert r.value == Out(d.stmt, d.env.AddBack(d.popped), d.ids);
      var back := d.env.AddBack(d.popped);
      SameFactsGrows(d.env, back);
      GrowsTrans(e, e2, d.env);
      GrowsTrans(e, d.env, back);
    }
  }

  lemma {:induction false} DispatchSettled(I: LayoutInterner, e: Env, ids: nat, x: Symbol, popped: set<Symbol>, k: Stmt)
    ensures var r := DispatchDec(I, e, ids, x, popped, k);
      r.Ok? ==> SettledDec(e, ids, popped, k, r.value)
    decreases k, 2, 2
  {
    var l := e.GetSymbolLayout(x);
    if l.Ok? {
      match I.runtimeRepresentation(l.value)
      case StructRepr(fls) => StructSettled(I, e, ids, x, fls, popped, k);
      case UnionRepr(u) => UnionSettled(I, e, ids, x, u, popped, k);
      case BoxedRepr(_) => BoxedSettled(I, e, ids, popped, x, k);
      case ListRepr(item) => ListSettled(I, e, ids, popped, x, item, k);
      case OtherRepr => KeepSettled(I, e, ids, x, popped, k);
    }
  }

  lemma {:induction false} BranchesSettled(I: LayoutInterner, e: Env, ids: nat, s: Stmt, i: nat)
    requires s.Switch? && i <= |s.branches|
    ensures SpecializeBranches(I, e, ids, s, i).Ok? ==> ids <= SpecializeBranches(I, e, ids, s, i).value.1
    ensures SpecializeBranches(I, e, ids, s, i).Ok? ==> |SpecializeBranches(I, e, ids, s, i).value.0| == |s.branches| - i
    decreases s, 0, |s.branches| - i
  {
    if i < |s.branches| {
      var b := s.branches[i];
      var r := Specialize(I, e.WithoutIncremented().InsertBranchInfo(b.info), ids, b.body);
      if r.Err? || SpecializeBranches(I, e, r.value.ids, s, i + 1).Err? {
        return;
      }
      assert ids <= r.value.ids by {
        SpecializeSettled(I, e.WithoutIncremented().InsertBranchInfo(b.info), ids, b.body);
      }
      BranchesSettled(I, e, r.value.ids, s, i + 1);
      var rest := SpecializeBranches(I, e, r.value.ids, s, i + 1).value;
      assert SpecializeBranches(I, e, ids, s, i).value == ([Branch(b.caseValue, b.info, r.value.stmt)] + rest.0, rest.1);
    }
  }

  lemma {:induction false} KeepSettled(I: LayoutInterner, e: Env, ids: nat, x: Symbol, popped: set<Symbol>, k: Stmt)
    ensures var r := KeepOriginalDecrement(I, e, ids, x, popped, k);
      r.Ok? ==> SettledDec(e, ids, popped, k, r.value)
    decreases k, 2, 0
  {
    SpecializeSettled(I, e, ids, k);
  }

  lemma {:induction false} StructSettled(I: LayoutInterner, e: Env, ids: nat, x: Symbol, fls: seq<InLayout>,
                                         popped: set<Symbol>, k: Stmt)
    ensures var r := SpecializeStruct(I, e, ids, x, fls, popped, k);
      r.Ok? ==> SettledDec(e, ids, popped, k, r.value)
    decreases k, 2, 1
  {
    if x in e.structChildren {
      var chosen := IndexSymbols(e.structChildren[x], 0, |fls|, map[], popped);
      IndexSymbolsEffect(e.structChildren[x], 0, |fls|, map[], popped);
      SpecializeSettled(I, e, ids, k);
      var r := Specialize(I, e, ids, k);
      if r.Ok? {
        WrapFromIds(StructPlan(I, x, fls, chosen.0), r.value.stmt, r.value.ids);
      }
    } else {
      KeepSettled(I, e, ids, x, popped, k);
    }
  }

  lemma {:induction false} UnionSettled(I: LayoutInterner, e: Env, ids: nat, x: Symbol, u: UnionLayout,
                                        popped: set<Symbol>, k: Stmt)
    ensures var r := SpecializeUnion(I, e, ids, x, u, popped, k);
      r.Ok? ==> SettledDec(e, ids, popped, k, r.value)
    decreases k, 2, 1
  {
    var tag := if x in e.symbolTag then Some(e.symbolTag[x]) else None;
    var resolved := GetUnionTagLayout(u, tag);
    if resolved.Ok? {
      match resolved.value
      case Unknown => KeepSettled(I, e, ids, x, popped, k);
      case Null => SpecializeSettled(I, e, ids, k);
      case Found(fls, t) =>
        if x !in e.unionChildren {
          KeepSettled(I, e, ids, x, popped, k);
        } else {
          KnownUnionSettled(I, e, ids, x, u, fls, t, popped, k);
        }
    }
  }

  lemma {:induction false} KnownUnionSettled(I: LayoutInterner, e: Env, ids: nat, x: Symbol, u: UnionLayout,
                                             fls: seq<InLayout>, t: Tag, popped: set<Symbol>, k: Stmt)
    requires x in e.unionChildren
    ensures var r := SpecializeKnownUnion(I, e, ids, x, u, fls, t, popped, k);
      r.Ok? ==> SettledDec(e, ids, popped, k, r.value)
    decreases k, 2, 0
  {
    var chosen := IndexSymbols(UnionIndexed(e.unionChildren[x]), 0, |fls|, map[], popped);
    IndexSymbolsEffect(UnionIndexed(e.unionChildren[x]), 0, |fls|, map[], popped);
    SpecializeSettled(I, e, ids, k);
    var r := Specialize(I, e, ids, k);
    if r.Ok? {
      var up := UniquePlan(I, x, t, u, fls, chosen.0);
      var sp := SharedPlan(I, x, t, u, fls, chosen.0);
      if u.NonRecursive? {
        WrapFromIds(up, r.value.stmt, r.value.ids);
      } else {
        BranchUniquenessIds(e.layout, x, up, sp, r.value.stmt, r.value.ids);
      }
    }
  }

  lemma BranchUniquenessIds(retLayout: InLayout, x: Symbol, unique: FieldPlan, shared: FieldPlan, k: Stmt, ids: nat)
    requires |unique.fieldLayouts| == |shared.fieldLayouts|
    ensures BranchUniqueness(retLayout, x, unique, shared, k, ids).1 > ids
  {
    var n := |unique.fieldLayouts|;
    var start := if k.Ret? || k.Jump? then ids else ids + 1;
    var k' := Refcounting(DecRef(x), if k.Ret? || k.Jump? then k else Jump(ids, []));
    var u := unique.WrapFrom(n, k', start);
    WrapFromIds(unique, k', start);
    WrapFromIds(shared, k', u.1);
  }

  lemma {:induction false} BoxedSettled(I: LayoutInterner, e: Env, ids: nat, popped: set<Symbol>, x: Symbol, k: Stmt)
    ensures var r := SpecializeBoxed(I, e, ids, popped, x, k);
      r.Ok? ==> SettledDec(e, ids, popped, k, r.value)
    decreases k, 2, 1
  {
    SpecializeSettled(I, e, ids, k);
  }

  lemma {:induction false} ListSettled(I: LayoutInterner, e: Env, ids: nat, popped: set<Symbol>, x: Symbol,
                                       item: InLayout, k: Stmt)
    ensures var r := SpecializeList(I, e, ids, popped, x, item, k);
      r.Ok? ==> SettledDec(e, ids, popped, k, r.value)
    decreases k, 2, 1
  {
    if ListSpecialisable(I, e, x, item) {
      IndexSymbolsEffect(e.listChildren[x], 0, e.listLength[x], map[], popped);
      SpecializeSettled(I, e, ids, k);
    } else {
      KeepSettled(I, e, ids, x, popped, k);
    }
  }

  /** The whole pass keeps every procedure's arguments and result layout,
      rewrites only bodies, and never hands the same fresh symbol to two
      procedures: the counter only advances. */
  lemma {:induction false} SpecializeAllKeepsCount(I: LayoutInterner, procs: seq<Proc>, ids: nat)
    ensures SpecializeAll(I, procs, ids).Ok? ==> |SpecializeAll(I, procs, ids).value.0| == |procs|
    ensures SpecializeAll(I, procs, ids).Ok? ==> ids <= SpecializeAll(I, procs, ids).value.1
    decreases |procs|
  {
    if procs != [] && SpecializeAll(I, procs, ids).Ok? {
      var p := procs[0];
      var o := SpecializeProc(I, p.resultLayout, p.args, ids, p.body).value;
      SpecializeSettled(I, AddParams(Env.Empty(p.resultLayout), p.args), ids, p.body);
      SpecializeAllKeepsCount(I, procs[1..], o.ids);
    }
  }

  /** One step of `SpecializeAll`: the first procedure's rewrite, then the rest. */
  lemma SpecializeAllCons(I: LayoutInterner, procs: seq<Proc>, ids: nat)
    requires procs != [] && SpecializeAll(I, procs, ids).Ok?
    ensures var p := procs[0];
      var o := SpecializeProc(I, p.resultLayout, p.args, ids, p.body);
      && o.Ok? && SpecializeAll(I, procs[1..], o.value.ids).Ok?
      && SpecializeAll(I, procs, ids).value.0
         == [p.(body := o.value.stmt)] + SpecializeAll(I, procs[1..], o.value.ids).value.0
  {
  }

  lemma {:induction false} SpecializeAllKeepsSignatures(I: LayoutInterner, procs: seq<Proc>, ids: nat)
    ensures SpecializeAll(I, procs, ids).Ok? ==>
      forall i | 0 <= i < |procs| && i < |SpecializeAll(I, procs, ids).value.0| ::
        && SpecializeAll(I, procs, ids).value.0[i].args == procs[i].args
        && SpecializeAll(I, procs, ids).value.0[i].resultLayout == procs[i].resultLayout
    decreases |procs|
  {
    if procs != [] && SpecializeAll(I, procs, ids).Ok? {
      var p := procs[0];
      var o := SpecializeProc(I, p.resultLayout, p.args, ids, p.body).value;
      var all := SpecializeAll(I, procs, ids).value.0;
      SpecializeAllCons(I, procs, ids);
      SpecializeAllKeepsSignatures(I, procs[1..], o.ids);
      var rest := SpecializeAll(I, procs[1..], o.ids).value.0;
      forall i | 0 < i < |procs| && i < |all|
        ensures all[i].args == procs[i].args && all[i].resultLayout == procs[i].resultLayout
      {
        assert all[i] == rest[i - 1] && procs[i] == procs[1..][i - 1];
      }
    }
  }
}
