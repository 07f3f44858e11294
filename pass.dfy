/** The pass as the source runs it: one recursive walk over a statement that
    updates a `DropSpecializationEnvironment` in place, takes forks of it
    where reservations must be forgotten, and draws fresh symbols from the
    module's `IdentIds`. Every method is proved to compute exactly what the
    function of the same name in `DropSpec` computes from the state it
    starts in, so every property proved about those functions holds of the
    pass. */
module DropPass {
  import opened Ir
  import opened Environment
  import opened Slots
  import opened Fields
  import opened TagLayout
  import DropSpec

  /** `r`, with the environment `e` and the next symbol `ids` left behind, is
      what the specification function produced: the same statement, state and
      counter, or the same panic. */
  predicate Agrees(spec: Result<DropSpec.Out>, r: Result<Stmt>, e: Env, ids: nat) {
    match spec
    case Err(p) => r == Err(p)
    case Ok(o) => r == Ok(o.stmt) && e == o.env && ids == o.ids
  }

  /** The same for a specialiser, which also hands back the popped children it did not use. */
  predicate AgreesDec(spec: Result<DropSpec.SpecialisedDec>, r: Result<Stmt>, popped: set<Symbol>, e: Env, ids: nat) {
    match spec
    case Err(p) => r == Err(p)
    case Ok(d) => r == Ok(d.stmt) && popped == d.popped && e == d.env && ids == d.ids
  }

  /** The `rc` closures of the field loop: the action put before `k` for child `c`. */
  function ApplyRc(a: RcAction, c: Symbol, k: Stmt): (r: Stmt)
    ensures r == Chain(Act(a, c), k)
  {
    match a
    case Nothing => k
    case DecChild => assert Act(a, c)[1..] == []; Refcounting(Dec(c), k)
    case IncChild => assert Act(a, c)[1..] == []; Refcounting(Inc(c, 1), k)
  }

  /** `specialize_drops_stmt`. */
  method SpecializeDropsStmt(I: LayoutInterner, env: DropSpecializationEnvironment, ids: IdentIds, s: Stmt)
    returns (r: Result<Stmt>)
    modifies env, ids
    ensures Agrees(DropSpec.Specialize(I, old(env.Snapshot()), old(ids.next), s), r, env.Snapshot(), ids.next)
    decreases s, 1, 0
  {
    match s
    case Let(_, _, _, _) =>
      r := SpecializeLet(I, env, ids, s);
    case Switch(_, _, _, _, _, _) =>
      r := SpecializeSwitch(I, env, ids, s);
    case Ret(_) =>
      r := Ok(s);
    case Refcounting(Inc(_, _), _) =>
      r := SpecializeInc(I, env, ids, s);
    case Refcounting(Dec(_), _) =>
      r := SpecializeDec(I, env, ids, s);
    case Refcounting(DecRef(x), k) =>
      var inner := SpecializeDropsStmt(I, env, ids, k);
      r := if inner.Err? then inner else Ok(Refcounting(DecRef(x), inner.value));
    case Expect(c, ls, k) =>
      var inner := SpecializeDropsStmt(I, env, ids, k);
      r := if inner.Err? then inner else Ok(Expect(c, ls, inner.value));
    case ExpectFx(c, ls, k) =>
      var inner := SpecializeDropsStmt(I, env, ids, k);
      r := if inner.Err? then inner else Ok(ExpectFx(c, ls, inner.value));
    case Dbg(x, k) =>
      var inner := SpecializeDropsStmt(I, env, ids, k);
      r := if inner.Err? then inner else Ok(Dbg(x, inner.value));
    case Join(_, _, _, _) =>
      r := SpecializeJoin(I, env, ids, s);
    case Jump(_, _) =>
      r := Ok(s);
    case Crash(_) =>
      r := Ok(s);
  }

  /** A binding: its layout is recorded, what its expression tells about
      parents, tags and indices is recorded, and its continuation is rewritten,
      on a fork when the expression may change reference counts. */
  method SpecializeLet(I: LayoutInterner, env: DropSpecializationEnvironment, ids: IdentIds, s: Stmt)
    returns (r: Result<Stmt>)
    requires s.Let?
    modifies env, ids
    ensures Agrees(DropSpec.Specialize(I, old(env.Snapshot()), old(ids.next), s), r, env.Snapshot(), ids.next)
    decreases s, 0, 0
  {
    var b, x, l, k := s.binding, s.expr, s.layout, s.continuation;
    env.AddSymbolLayout(b, l);
    ghost var e1 := env.Snapshot();
    var inner: Result<Stmt>;
    if DropSpec.Forks(x) {
      var fork := env.CloneWithoutIncremented();
      if x.TagExpr? {
        fork.symbolTag := fork.symbolTag[b := x.tagId];
      }
      assert fork.Snapshot() == DropSpec.LetEnvironment(e1, b, x).value;
      inner := SpecializeDropsStmt(I, fork, ids, k);
    } else {
      var failure := RecordBinding(env, b, x);
      if failure.Some? {
        return Err(failure.value);
      }
      inner := SpecializeDropsStmt(I, env, ids, k);
    }
    r := if inner.Err? then inner else Ok(Let(b, x, l, inner.value));
  }

  /** What a binding that does not fork teaches the environment: the
      element a list access reads, the field a projection reads, the
      content of a box, the index an integer literal denotes. A list access
      with other than two arguments is fatal. */
  method RecordBinding(env: DropSpecializationEnvironment, b: Symbol, x: Expr) returns (failure: Option<Panic>)
    requires !DropSpec.Forks(x)
    modifies env
    ensures match DropSpec.LetEnvironment(old(env.Snapshot()), b, x)
      case Err(p) => failure == Some(p)
      case Ok(e) => failure.None? && env.Snapshot() == e
  {
    failure := None;
    match x {
      case Call(_, args) =>
        if |args| != 2 {
          return Some(ListGetArity(|args|));
        }
        env.AddListChild(args[0], b, args[1]);
      case StructAtIndex(index, _, structure) =>
        env.AddStructChild(structure, b, index);
      case UnionAtIndex(structure, tagId, _, index) =>
        env.AddUnionChild(structure, b, tagId, index);
        env.symbolTag := env.symbolTag[structure := tagId];
      case ExprUnbox(symbol) =>
        env.AddBoxChild(symbol, b);
      case LiteralExpr(lit) =>
        if lit.IntLiteral? {
          env.symbolIndex := env.symbolIndex[b := DropSpec.LiteralIndex(lit.i)];
        }
      case _ =>
    }
  }

  /** `insert_branch_info`. */
  method InsertBranchInfo(env: DropSpecializationEnvironment, info: BranchInfo)
    modifies env
    ensures env.Snapshot() == old(env.Snapshot()).InsertBranchInfo(info)
  {
    match info
    case NoInfo =>
    case Constructor(scrutinee, tag) =>
      env.symbolTag := env.symbolTag[scrutinee := tag];
    case ListInfo(scrutinee, len) =>
      env.listLength := env.listLength[scrutinee := len];
  }

  /** What is left to compute from position `i` on, prefixed with the part `done` already computed. */
  function After<T>(done: seq<T>, rest: Result<(seq<T>, nat)>): Result<(seq<T>, nat)> {
    match rest
    case Err(p) => Err(p)
    case Ok(t) => Ok((done + t.0, t.1))
  }

  lemma AfterNothing<T>(rest: Result<(seq<T>, nat)>)
    ensures After([], rest) == rest
  {
    if rest.Ok? {
      assert [] + rest.value.0 == rest.value.0;
    }
  }

  lemma AfterDone<T>(done: seq<T>, ids: nat)
    ensures After(done, Ok(([], ids))) == Ok((done, ids))
  {
    assert done + [] == done;
  }

  /** A switch: each branch, then the default, on its own fork; the
      environment before the switch is left as it was. */
  method SpecializeSwitch(I: LayoutInterner, env: DropSpecializationEnvironment, ids: IdentIds, s: Stmt)
    returns (r: Result<Stmt>)
    requires s.Switch?
    modifies env, ids
    ensures Agrees(DropSpec.Specialize(I, old(env.Snapshot()), old(ids.next), s), r, env.Snapshot(), ids.next)
    decreases s, 0, 0
  {
    ghost var e0 := env.Snapshot();
    ghost var ids0 := ids.next;
    var newBranches: seq<Branch> := [];
    var i := 0;
    AfterNothing(DropSpec.SpecializeBranches(I, e0, ids0, s, 0));
    while i < |s.branches|
      invariant 0 <= i <= |s.branches|
      invariant env.Snapshot() == e0
      invariant DropSpec.SpecializeBranches(I, e0, ids0, s, 0)
             == After(newBranches, DropSpec.SpecializeBranches(I, e0, ids.next, s, i))
    {
      var branch := s.branches[i];
      var fork := env.CloneWithoutIncremented();
      InsertBranchInfo(fork, branch.info);
      var body := SpecializeDropsStmt(I, fork, ids, branch.body);
      if body.Err? {
        return body;
      }
      assert forall t: seq<Branch> :: newBranches + ([Branch(branch.caseValue, branch.info, body.value)] + t)
                                    == (newBranches + [Branch(branch.caseValue, branch.info, body.value)]) + t;
      newBranches := newBranches + [Branch(branch.caseValue, branch.info, body.value)];
      i := i + 1;
    }
    assert newBranches == newBranches + [];
    var fork := env.CloneWithoutIncremented();
    InsertBranchInfo(fork, s.defaultInfo);
    var default := SpecializeDropsStmt(I, fork, ids, s.defaultBranch);
    if default.Err? {
      return default;
    }
    r := Ok(Switch(s.condSymbol, s.condLayout, newBranches, s.defaultInfo, default.value, s.retLayout));
  }

  /** An increment: recorded as a reservation; the first increment of a symbol
      on the path emits what the continuation left of it. */
  method SpecializeInc(I: LayoutInterner, env: DropSpecializationEnvironment, ids: IdentIds, s: Stmt)
    returns (r: Result<Stmt>)
    requires s.Refcounting? && s.rc.Inc?
    modifies env, ids
    ensures Agrees(DropSpec.Specialize(I, old(env.Snapshot()), old(ids.next), s), r, env.Snapshot(), ids.next)
    decreases s, 0, 0
  {
    var x, n, k := s.rc.symbol, s.rc.count, s.continuation;
    var any := env.AnyIncremented(x);
    env.AddIncremented(x, n);
    var inner := SpecializeDropsStmt(I, env, ids, k);
    if inner.Err? || any {
      return inner;
    }
    var count := env.GetIncremented(x);
    r := if count == 0 then inner else Ok(Refcounting(Inc(x, count), inner.value));
  }

  /** Pops one reservation from each of `cs` that has one, collecting those
      children: the filter over `get_children`. */
  method PopChildren(env: DropSpecializationEnvironment, cs: seq<Symbol>) returns (popped: set<Symbol>)
    modifies env
    ensures (popped, env.Snapshot()) == old(env.Snapshot()).PopChildren(cs, {})
  {
    popped := {};
    var i := 0;
    while i < |cs|
      invariant 0 <= i <= |cs|
      invariant env.Snapshot().PopChildren(cs[i..], popped) == old(env.Snapshot()).PopChildren(cs, {})
    {
      assert cs[i..][1..] == cs[i + 1..];
      var removed := env.PopIncremented(cs[i]);
      if removed {
        popped := popped + {cs[i]};
      }
      i := i + 1;
    }
  }

  /** Gives one reservation back to each child of `cs`. */
  method AddBack(env: DropSpecializationEnvironment, cs: set<Symbol>)
    modifies env
    ensures env.Snapshot() == old(env.Snapshot()).AddBack(cs)
  {
    ghost var base := env.Snapshot();
    AddBackNothing(base);
    var rest := cs;
    while rest != {}
      invariant rest <= cs
      invariant env.Snapshot() == base.AddBack(cs - rest)
      decreases |rest|
    {
      var c :| c in rest;
      AddBackStep(base, cs, rest, c);
      env.AddIncremented(c, 1);
      rest := rest - {c};
    }
    assert cs - rest == cs;
  }

  lemma AddBackStep(base: Env, cs: set<Symbol>, rest: set<Symbol>, c: Symbol)
    requires c in rest && rest <= cs
    ensures base.AddBack(cs - rest).AddIncremented(c, 1) == base.AddBack(cs - (rest - {c}))
  {
    AddBackOne(base, cs - rest, c);
    assert cs - (rest - {c}) == (cs - rest) + {c};
  }

  /** A decrement: cancelled by a reservation of the symbol, or else handed to
      the specialiser for its layout with the popped reservations of its
      children, which get back those the specialiser did not use. */
  method SpecializeDec(I: LayoutInterner, env: DropSpecializationEnvironment, ids: IdentIds, s: Stmt)
    returns (r: Result<Stmt>)
    requires s.Refcounting? && s.rc.Dec?
    modifies env, ids
    ensures Agrees(DropSpec.Specialize(I, old(env.Snapshot()), old(ids.next), s), r, env.Snapshot(), ids.next)
    decreases s, 0, 0
  {
    var x, k := s.rc.symbol, s.continuation;
    var cancelled := env.PopIncremented(x);
    if cancelled {
      r := SpecializeDropsStmt(I, env, ids, k);
      return;
    }
    ghost var e0 := env.Snapshot();
    var children := env.GetChildren(x);
    var incremented := PopChildren(env, children);
    ghost var lowered, ids0 := env.Snapshot(), ids.next;
    var left: set<Symbol>;
    r, left := DispatchDec(I, env, ids, x, incremented, k);
    if r.Ok? {
      DropSpec.DecUnfolds(I, e0, ids0, x, k, incremented, lowered,
                          DropSpec.SpecialisedDec(r.value, env.Snapshot(), ids.next, left));
      AddBack(env, left);
    }
  }

  /** The specialiser chosen by the runtime representation of the decremented symbol's layout. */
  method DispatchDec(I: LayoutInterner, env: DropSpecializationEnvironment, ids: IdentIds, x: Symbol,
                     incremented: set<Symbol>, k: Stmt)
    returns (r: Result<Stmt>, popped: set<Symbol>)
    modifies env, ids
    ensures AgreesDec(DropSpec.DispatchDec(I, old(env.Snapshot()), old(ids.next), x, incremented, k),
                      r, popped, env.Snapshot(), ids.next)
    decreases k, 2, 2
  {
    var layout := env.GetSymbolLayout(x);
    if layout.Err? {
      return Err(layout.error), incremented;
    }
    match I.runtimeRepresentation(layout.value)
    case StructRepr(fls) =>
      r, popped := SpecializeStruct(I, env, ids, x, fls, incremented, k);
    case UnionRepr(u) =>
      r, popped := SpecializeUnion(I, env, ids, x, u, incremented, k);
    case BoxedRepr(_) =>
      r, popped := SpecializeBoxed(I, env, ids, incremented, x, k);
    case ListRepr(item) =>
      r, popped := SpecializeList(I, env, ids, incremented, x, item, k);
    case OtherRepr =>
      r, popped := KeepOriginalDecrement(I, env, ids, x, incremented, k);
  }

  /** The decrement kept as it is, before the rewritten continuation. */
  method KeepOriginalDecrement(I: LayoutInterner, env: DropSpecializationEnvironment, ids: IdentIds, x: Symbol,
                               incremented: set<Symbol>, k: Stmt)
    returns (r: Result<Stmt>, popped: set<Symbol>)
    modifies env, ids
    ensures AgreesDec(DropSpec.KeepOriginalDecrement(I, old(env.Snapshot()), old(ids.next), x, incremented, k),
                      r, popped, env.Snapshot(), ids.next)
    decreases k, 2, 0
  {
    var inner := SpecializeDropsStmt(I, env, ids, k);
    popped := incremented;
    r := if inner.Err? then inner else Ok(Refcounting(Dec(x), inner.value));
  }

  /** The reverse loop over the fields of a parent (`refcount_fields`):
      actions for fields `n - 1` down to 0 are put in front of `k`, so that
      they run in ascending order. */
  method RefcountFields(env: DropSpecializationEnvironment, ids: IdentIds, plan: FieldPlan, k: Stmt)
    returns (st: Stmt)
    modifies ids
    ensures (st, ids.next) == plan.WrapFrom(|plan.fieldLayouts|, k, old(ids.next))
  {
    var fls := plan.fieldLayouts;
    st := k;
    var i := |fls|;
    while i > 0
      invariant 0 <= i <= |fls|
      invariant plan.WrapFrom(i, st, ids.next) == plan.WrapFrom(|fls|, k, old(ids.next))
    {
      i := i - 1;
      ghost var heads := plan.FieldHeads(i, ids.next);
      if plan.interner.containsRefcounted(fls[i]) {
        if i in plan.slots {
          var slot := plan.slots[i];
          st := ApplyRc(if slot.popped then plan.onPopped else plan.onUnpopped, slot.child, st);
        } else if !plan.onUnpopped.Nothing? {
          var field := env.CreateSymbol(ids);
          var rest := ApplyRc(plan.onUnpopped, field, st);
          assert heads[1..] == Act(plan.onUnpopped, field);
          st := Let(field, Project(plan.projection, i), plan.interner.chaseRecursiveIn(fls[i]), rest);
        }
      }
    }
  }

  method SpecializeStruct(I: LayoutInterner, env: DropSpecializationEnvironment, ids: IdentIds, x: Symbol,
                          fls: seq<InLayout>, incremented: set<Symbol>, k: Stmt)
    returns (r: Result<Stmt>, popped: set<Symbol>)
    modifies env, ids
    ensures AgreesDec(DropSpec.SpecializeStruct(I, old(env.Snapshot()), old(ids.next), x, fls, incremented, k),
                      r, popped, env.Snapshot(), ids.next)
    decreases k, 2, 1
  {
    if x !in env.structChildren {
      r, popped := KeepOriginalDecrement(I, env, ids, x, incremented, k);
      return;
    }
    var slots;
    slots, popped := ComputeIndexSymbols(env.structChildren[x], |fls|, incremented);
    var inner := SpecializeDropsStmt(I, env, ids, k);
    if inner.Err? {
      return inner, popped;
    }
    var st := RefcountFields(env, ids, DropSpec.StructPlan(I, x, fls, slots), inner.value);
    r := Ok(st);
  }

  method SpecializeUnion(I: LayoutInterner, env: DropSpecializationEnvironment, ids: IdentIds, x: Symbol,
                         u: UnionLayout, incremented: set<Symbol>, k: Stmt)
    returns (r: Result<Stmt>, popped: set<Symbol>)
    modifies env, ids
    ensures AgreesDec(DropSpec.SpecializeUnion(I, old(env.Snapshot()), old(ids.next), x, u, incremented, k),
                      r, popped, env.Snapshot(), ids.next)
    decreases k, 2, 1
  {
    ghost var e0, ids0 := env.Snapshot(), ids.next;
    ghost var spec := DropSpec.SpecializeUnion(I, e0, ids0, x, u, incremented, k);
    var currentTag := if x in env.symbolTag then Some(env.symbolTag[x]) else None;
    var resolved := GetUnionTagLayout(u, currentTag);
    if resolved.Err? {
      return Err(resolved.error), incremented;
    }
    match resolved.value
    case Unknown =>
      assert spec == DropSpec.KeepOriginalDecrement(I, e0, ids0, x, incremented, k);
      r, popped := KeepOriginalDecrement(I, env, ids, x, incremented, k);
    case Null =>
      r := SpecializeDropsStmt(I, env, ids, k);
      popped := incremented;
    case Found(fls, tag) =>
      if x !in env.unionChildren {
        assert spec == DropSpec.KeepOriginalDecrement(I, e0, ids0, x, incremented, k);
        r, popped := KeepOriginalDecrement(I, env, ids, x, incremented, k);
      } else {
        assert spec == DropSpec.SpecializeKnownUnion(I, e0, ids0, x, u, fls, tag, incremented, k);
        r, popped := SpecializeKnownUnion(I, env, ids, x, u, fls, tag, incremented, k);
      }
  }

  /** A union whose tag is known and whose fields have registered children:
      a non-recursive union frees its fields in place; any other branches on
      its uniqueness first. */
  method SpecializeKnownUnion(I: LayoutInterner, env: DropSpecializationEnvironment, ids: IdentIds, x: Symbol,
                              u: UnionLayout, fls: seq<InLayout>, tag: Tag, incremented: set<Symbol>, k: Stmt)
    returns (r: Result<Stmt>, popped: set<Symbol>)
    requires x in env.unionChildren
    modifies env, ids
    ensures AgreesDec(DropSpec.SpecializeKnownUnion(I, old(env.Snapshot()), old(ids.next), x, u, fls, tag, incremented, k),
                      r, popped, env.Snapshot(), ids.next)
    decreases k, 2, 0
  {
    var slots;
    slots, popped := ComputeIndexSymbols(UnionIndexed(env.unionChildren[x]), |fls|, incremented);
    var inner := SpecializeDropsStmt(I, env, ids, k);
    if inner.Err? {
      return inner, popped;
    }
    var unique := DropSpec.UniquePlan(I, x, tag, u, fls, slots);
    var st;
    if u.NonRecursive? {
      st := RefcountFields(env, ids, unique, inner.value);
    } else {
      st := BranchUniqueness(env, ids, x, unique, DropSpec.SharedPlan(I, x, tag, u, fls, slots), inner.value);
    }
    r := Ok(st);
  }

  /** `branch_uniqueness`: both arms end in `DecRef(x)` and the continuation,
      copied when it is a single return or jump, and otherwise put in a join
      point both arms jump to. */
  method BranchUniqueness(env: DropSpecializationEnvironment, ids: IdentIds, x: Symbol,
                          unique: FieldPlan, shared: FieldPlan, k: Stmt)
    returns (st: Stmt)
    requires |unique.fieldLayouts| == |shared.fieldLayouts|
    modifies ids
    ensures (st, ids.next) == DropSpec.BranchUniqueness(env.layout, x, unique, shared, k, old(ids.next))
  {
    if k.Ret? || k.Jump? {
      var u := RefcountFields(env, ids, unique, Refcounting(DecRef(x), k));
      var n := RefcountFields(env, ids, shared, Refcounting(DecRef(x), k));
      st := UniqueSymbol(env, ids, x, u, n);
    } else {
      var joinId := env.CreateSymbol(ids);
      var jump := Jump(joinId, []);
      var u := RefcountFields(env, ids, unique, Refcounting(DecRef(x), jump));
      var n := RefcountFields(env, ids, shared, Refcounting(DecRef(x), jump));
      var test := UniqueSymbol(env, ids, x, u, n);
      st := Join(joinId, [], k, test);
    }
  }

  /** `unique_symbol`: binds a fresh symbol to the uniqueness test of `x` and
      switches on it. */
  method UniqueSymbol(env: DropSpecializationEnvironment, ids: IdentIds, x: Symbol, unique: Stmt, notUnique: Stmt)
    returns (st: Stmt)
    modifies ids
    ensures st == DropSpec.UniqueSymbol(x, old(ids.next), unique, notUnique, env.layout)
    ensures ids.next == old(ids.next) + 1
  {
    var isUnique := env.CreateSymbol(ids);
    st := Let(isUnique, DropSpec.IsUniqueCall(x), BOOL,
              Switch(isUnique, BOOL, [Branch(1, NoInfo, unique)], NoInfo, notUnique, env.layout));
  }

  /** A box takes one popped child (the least) and then only drops its own allocation. */
  method SpecializeBoxed(I: LayoutInterner, env: DropSpecializationEnvironment, ids: IdentIds,
                         incremented: set<Symbol>, x: Symbol, k: Stmt)
    returns (r: Result<Stmt>, popped: set<Symbol>)
    modifies env, ids
    ensures AgreesDec(DropSpec.SpecializeBoxed(I, old(env.Snapshot()), old(ids.next), incremented, x, k),
                      r, popped, env.Snapshot(), ids.next)
    decreases k, 2, 1
  {
    var removed := false;
    popped := incremented;
    if incremented != {} {
      popped := incremented - {DropSpec.Least(incremented)};
      removed := true;
    }
    var inner := SpecializeDropsStmt(I, env, ids, k);
    if inner.Err? {
      return inner, popped;
    }
    r := Ok(Refcounting(if removed then DecRef(x) else Dec(x), inner.value));
  }

  method SpecializeList(I: LayoutInterner, env: DropSpecializationEnvironment, ids: IdentIds,
                        incremented: set<Symbol>, x: Symbol, item: InLayout, k: Stmt)
    returns (r: Result<Stmt>, popped: set<Symbol>)
    modifies env, ids
    ensures AgreesDec(DropSpec.SpecializeList(I, old(env.Snapshot()), old(ids.next), incremented, x, item, k),
                      r, popped, env.Snapshot(), ids.next)
    decreases k, 2, 1
  {
    ghost var e0, ids0 := env.Snapshot(), ids.next;
    ghost var spec := DropSpec.SpecializeList(I, e0, ids0, incremented, x, item, k);
    if !(I.containsRefcounted(item) && x in env.listLength && x in env.listChildren
         && |env.listChildren[x]| == env.listLength[x]) {
      assert spec == DropSpec.KeepOriginalDecrement(I, e0, ids0, x, incremented, k);
      r, popped := KeepOriginalDecrement(I, env, ids, x, incremented, k);
      return;
    }
    var length := env.listLength[x];
    var slots;
    slots, popped := ComputeIndexSymbols(env.listChildren[x], length, incremented);
    var inner := SpecializeDropsStmt(I, env, ids, k);
    if inner.Err? {
      return inner, popped;
    }
    var st := Refcounting(DecRef(x), inner.value);
    var i := length;
    while i > 0
      invariant 0 <= i <= length
      invariant WrapElements(slots, i, st) == WrapElements(slots, length, Refcounting(DecRef(x), inner.value))
    {
      i := i - 1;
      if i !in slots {
        return Err(ListItemMissing(i)), popped;
      }
      var slot := slots[i];
      if !slot.popped {
        st := Refcounting(Dec(slot.child), st);
      }
    }
    r := Ok(st);
  }

  /** A join point: its body on a fork holding the parameters' layouts, its remainder on this environment. */
  method SpecializeJoin(I: LayoutInterner, env: DropSpecializationEnvironment, ids: IdentIds, s: Stmt)
    returns (r: Result<Stmt>)
    requires s.Join?
    modifies env, ids
    ensures Agrees(DropSpec.Specialize(I, old(env.Snapshot()), old(ids.next), s), r, env.Snapshot(), ids.next)
    decreases s, 0, 0
  {
    var fork := env.CloneWithoutIncremented();
    AddParams(fork, s.parameters);
    var body := SpecializeDropsStmt(I, fork, ids, s.body);
    if body.Err? {
      return body;
    }
    var remainder := SpecializeDropsStmt(I, env, ids, s.remainder);
    if remainder.Err? {
      return remainder;
    }
    r := Ok(Join(s.id, s.parameters, body.value, remainder.value));
  }

  /** Records the layout of each parameter, in order. */
  method AddParams(env: DropSpecializationEnvironment, ps: seq<Param>)
    modifies env
    ensures env.Snapshot() == DropSpec.AddParams(old(env.Snapshot()), ps)
  {
    var i := 0;
    while i < |ps|
      invariant 0 <= i <= |ps|
      invariant DropSpec.AddParams(env.Snapshot(), ps[i..]) == DropSpec.AddParams(old(env.Snapshot()), ps)
    {
      assert ps[i..][1..] == ps[i + 1..];
      env.AddSymbolLayout(ps[i].symbol, ps[i].layout);
      i := i + 1;
    }
  }

  /** `specialize_drops_proc`: the arguments' layouts recorded on the
      procedure's fresh environment, then the body rewritten. */
  method SpecializeDropsProc(I: LayoutInterner, env: DropSpecializationEnvironment, ids: IdentIds,
                             args: seq<Param>, body: Stmt)
    returns (r: Result<Stmt>)
    requires env.Snapshot() == Env.Empty(env.layout)
    modifies env, ids
    ensures match DropSpec.SpecializeProc(I, env.layout, args, old(ids.next), body)
      case Err(p) => r == Err(p)
      case Ok(o) => r == Ok(o.stmt) && ids.next == o.ids
  {
    AddParams(env, args);
    r := SpecializeDropsStmt(I, env, ids, body);
  }

  /** One more procedure done moves it from what is left into what is computed. */
  lemma SpecializeAllStep(I: LayoutInterner, all: seq<DropSpec.Proc>, i: nat, ids: nat, before: seq<DropSpec.Proc>,
                          r: Result<Stmt>, ids': nat)
    requires i < |all|
    requires match DropSpec.SpecializeProc(I, all[i].resultLayout, all[i].args, ids, all[i].body)
      case Err(p) => r == Err(p)
      case Ok(o) => r == Ok(o.stmt) && ids' == o.ids
    ensures r.Err? ==> After(before, DropSpec.SpecializeAll(I, all[i..], ids)) == Err(r.error)
    ensures r.Ok? ==>
      After(before, DropSpec.SpecializeAll(I, all[i..], ids))
        == After(before + [all[i].(body := r.value)], DropSpec.SpecializeAll(I, all[i + 1..], ids'))
  {
    assert all[i..][0] == all[i] && all[i..][1..] == all[i + 1..];
    if r.Ok? {
      var t := DropSpec.SpecializeAll(I, all[i + 1..], ids');
      if t.Ok? {
        assert before + ([all[i].(body := r.value)] + t.value.0) == (before + [all[i].(body := r.value)]) + t.value.0;
      }
    }
  }

  /** `specialize_drops`: every procedure rewritten in place, in the order of
      the array, each on a fresh environment for the layout it returns. */
  method SpecializeDrops(I: LayoutInterner, ids: IdentIds, procs: array<DropSpec.Proc>) returns (failure: Option<Panic>)
    modifies ids, procs
    ensures match DropSpec.SpecializeAll(I, old(procs[..]), old(ids.next))
      case Err(p) => failure == Some(p)
      case Ok(t) => failure.None? && procs[..] == t.0 && ids.next == t.1
  {
    ghost var all := procs[..];
    ghost var ids0 := ids.next;
    AfterNothing(DropSpec.SpecializeAll(I, all, ids0));
    var i := 0;
    while i < procs.Length
      invariant 0 <= i <= procs.Length
      invariant procs[i..] == all[i..]
      invariant DropSpec.SpecializeAll(I, all, ids0) == After(procs[..i], DropSpec.SpecializeAll(I, all[i..], ids.next))
    {
      var p := procs[i];
      assert all[i..][0] == p;
      ghost var idsBefore, before := ids.next, procs[..i];
      var env := new DropSpecializationEnvironment(p.resultLayout);
      var body := SpecializeDropsProc(I, env, ids, p.args, p.body);
      SpecializeAllStep(I, all, i, idsBefore, before, body, ids.next);
      if body.Err? {
        return Some(body.error);
      }
      procs[i] := p.(body := body.value);
      assert procs[..i + 1] == before + [p.(body := body.value)];
      assert procs[i + 1..] == all[i + 1..] by {
        assert all[i + 1..] == all[i..][1..];
      }
      i := i + 1;
    }
    assert all[i..] == [] && procs[..i] == procs[..];
    assert DropSpec.SpecializeAll(I, all[i..], ids.next) == Ok(([], ids.next));
    AfterDone(procs[..], ids.next);
    failure := None;
  }
}
