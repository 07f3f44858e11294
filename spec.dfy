/** The drop-specialisation pass as pure functions: each takes the
    environment value and the next fresh symbol, and returns the rewritten
    statement with the environment and fresh-symbol counter it leaves behind.
    A panic of the pass is an `Err`. The imperative pass is proved to compute
    exactly these results. */
module DropSpec {
  import opened Ir
  import opened Environment
  import opened TagLayout
  import opened Slots
  import opened Fields

  /** What rewriting one statement yields: the new statement, the
      environment after it, and the next unused symbol. */
  datatype Out = Out(stmt: Stmt, env: Env, ids: nat)

  /** What a specialiser yields: additionally, the popped children it did not take out. */
  datatype SpecialisedDec = SpecialisedDec(stmt: Stmt, env: Env, ids: nat, popped: set<Symbol>)

  /** The low-level call emitted by the uniqueness test. */
  function IsUniqueCall(s: Symbol): Expr {
    Call(LowLevelCall(RefCountIsUnique), [s])
  }

  /** A literal index truncated to the source's unsigned 64 bits (low bits of the i128). */
  function LiteralIndex(i: int): (r: Index)
    ensures r < U64_MAX + 1
    ensures 0 <= i <= U64_MAX ==> r == i
  {
    i % (U64_MAX + 1)
  }

  /** The fork's environment after the join point's parameter layouts are recorded, in order. */
  function AddParams(e: Env, ps: seq<Param>): (r: Env)
    ensures r.incrementedSymbols == e.incrementedSymbols
    ensures r.symbolLayouts.Keys == e.symbolLayouts.Keys + set p | p in ps :: p.symbol
    ensures r == e.(symbolLayouts := r.symbolLayouts)
    ensures forall i | 0 <= i < |ps| :: ps[i].symbol in r.symbolLayouts
    // The last parameter of each symbol decides its layout; other symbols keep theirs.
    ensures forall i | 0 <= i < |ps| && LastOfSymbol(ps, i) :: r.symbolLayouts[ps[i].symbol] == ps[i].layout
    ensures forall t | t in e.symbolLayouts && !IsParam(ps, t) :: r.symbolLayouts[t] == e.symbolLayouts[t]
    decreases |ps|
  {
    if ps == [] then e
    else
      var e1 := e.AddSymbolLayout(ps[0].symbol, ps[0].layout);
      var r := AddParams(e1, ps[1..]);
      assert forall p | p in ps :: p == ps[0] || p in ps[1..];
      AddParamsStep(ps, e1, r);
      r
  }

  /** No later parameter has the symbol of `ps[i]`. */
  predicate LastOfSymbol(ps: seq<Param>, i: nat)
    requires i < |ps|
  {
    forall j | i < j < |ps| :: ps[j].symbol != ps[i].symbol
  }

  predicate IsParam(ps: seq<Param>, t: Symbol) {
    exists k | 0 <= k < |ps| :: ps[k].symbol == t
  }

  /** The layouts `AddParams` gives a non-empty list, from what the recursive call gives its tail. */
  lemma AddParamsStep(ps: seq<Param>, e1: Env, r: Env)
    requires ps != []
    requires e1.symbolLayouts.Keys <= r.symbolLayouts.Keys
    requires forall i | 0 <= i < |ps[1..]| :: ps[1..][i].symbol in r.symbolLayouts
    requires forall i | 0 <= i < |ps[1..]| && LastOfSymbol(ps[1..], i) :: r.symbolLayouts[ps[1..][i].symbol] == ps[1..][i].layout
    requires forall t | t in e1.symbolLayouts && !IsParam(ps[1..], t) :: r.symbolLayouts[t] == e1.symbolLayouts[t]
    requires ps[0].symbol in e1.symbolLayouts && e1.symbolLayouts[ps[0].symbol] == ps[0].layout
    ensures forall i | 0 <= i < |ps| :: ps[i].symbol in r.symbolLayouts
    ensures forall i | 0 <= i < |ps| && LastOfSymbol(ps, i) :: r.symbolLayouts[ps[i].symbol] == ps[i].layout
    ensures forall t | t in e1.symbolLayouts && !IsParam(ps, t) :: r.symbolLayouts[t] == e1.symbolLayouts[t]
  {
    forall i | 1 <= i < |ps| ensures ps[i].symbol in r.symbolLayouts {
      assert ps[i] == ps[1..][i - 1];
    }
    forall i | 0 <= i < |ps| && LastOfSymbol(ps, i) ensures r.symbolLayouts[ps[i].symbol] == ps[i].layout {
      if i == 0 {
        assert !IsParam(ps[1..], ps[0].symbol) by {
          forall k | 0 <= k < |ps[1..]| ensures ps[1..][k].symbol != ps[0].symbol {
            assert ps[1..][k] == ps[k + 1];
          }
        }
      } else {
        assert LastOfSymbol(ps[1..], i - 1) by {
          forall j | i - 1 < j < |ps[1..]| ensures ps[1..][j].symbol != ps[1..][i - 1].symbol {
            assert ps[1..][j] == ps[j + 1];
          }
        }
      }
    }
    forall t | t in e1.symbolLayouts && !IsParam(ps, t) ensures r.symbolLayouts[t] == e1.symbolLayouts[t] {
      assert !IsParam(ps[1..], t) by {
        forall k | 0 <= k < |ps[1..]| ensures ps[1..][k].symbol != t {
          assert ps[1..][k] == ps[k + 1];
        }
      }
    }
  }

  /** The least symbol of a non-empty set: the child the boxed specialiser takes. */
  function Least(s: set<Symbol>): (m: Symbol)
    requires s != {}
    ensures m in s && forall y | y in s :: m <= y
  {
    LeastExists(s);
    var m :| m in s && forall y | y in s :: m <= y;
    m
  }

  lemma {:induction false} LeastExists(s: set<Symbol>)
    requires s != {}
    ensures exists m :: m in s && forall y | y in s :: m <= y
    decreases |s|
  {
    var x :| x in s;
    var rest := s - {x};
    if rest == {} {
      LeastOfOne(s, x);
    } else {
      LeastExists(rest);
      var m :| m in rest && forall y | y in rest :: m <= y;
      LeastOfMore(s, x, m);
    }
  }

  lemma LeastOfOne(s: set<Symbol>, x: Symbol)
    requires x in s && s - {x} == {}
    ensures x in s && forall y | y in s :: x <= y
  {
    forall y | y in s ensures x <= y {
      assert y !in s - {x};
    }
  }

  lemma LeastOfMore(s: set<Symbol>, x: Symbol, m: Symbol)
    requires x in s && m in s - {x} && forall y | y in s - {x} :: m <= y
    ensures var w := if x < m then x else m; w in s && forall y | y in s :: w <= y
  {
    forall y | y in s ensures (if x < m then x else m) <= y {
      if y != x {
        assert y in s - {x};
      }
    }
  }

  /** The continuation of `let b = x` runs on a fork: calls may change
      reference counts, and so may building a struct or a tag. */
  predicate Forks(x: Expr) {
    match x
    case Call(LowLevelCall(ListGetUnsafe), _) => false
    case Call(_, _) => true
    case Struct(_) => true
    case TagExpr(_, _) => true
    case _ => false
  }

  /** The environment the continuation of `let b = x` is rewritten in, from
      `e` where the layout of `b` is already recorded. A list access with
      other than two arguments is fatal. */
  function LetEnvironment(e: Env, b: Symbol, x: Expr): (r: Result<Env>)
    ensures r.Err? <==> x.Call? && x.callType == LowLevelCall(ListGetUnsafe) && |x.arguments| != 2
    ensures r.Ok? ==> e.GrowsInto(r.value)
    ensures r.Ok? && Forks(x) ==> r.value.incrementedSymbols == map[]
    ensures r.Ok? && !Forks(x) ==> r.value.incrementedSymbols == e.incrementedSymbols
    // Only a known literal index registers a list element.
    ensures r.Ok? && x.Call? && x.callType == LowLevelCall(ListGetUnsafe) ==>
      r.value == e.AddListChild(x.arguments[0], b, x.arguments[1])
    // A projected union field tells the tag of the union.
    ensures r.Ok? && x.UnionAtIndex? ==> r.value.symbolTag == e.symbolTag[x.structure := x.tagId]
    ensures r.Ok? && x.TagExpr? ==> r.value.symbolTag == e.symbolTag[b := x.tagId]
    // Each kind of binding, exactly.
    ensures match x
      case Call(LowLevelCall(ListGetUnsafe), _) => true
      case Call(_, _) => r == Ok(e.WithoutIncremented())
      case Struct(_) => r == Ok(e.WithoutIncremented())
      case TagExpr(tagId, _) => r == Ok(e.WithoutIncremented().(symbolTag := e.symbolTag[b := tagId]))
      case StructAtIndex(index, _, structure) => r == Ok(e.AddStructChild(structure, b, index))
      case UnionAtIndex(structure, tagId, _, index) =>
        r == Ok(e.AddUnionChild(structure, b, tagId, index).(symbolTag := e.symbolTag[structure := tagId]))
      case ExprUnbox(symbol) => r == Ok(e.AddBoxChild(symbol, b))
      case LiteralExpr(IntLiteral(i)) => r == Ok(e.(symbolIndex := e.symbolIndex[b := LiteralIndex(i)]))
      case LiteralExpr(OtherLiteral) => r == Ok(e)
      case Inert => r == Ok(e)
  {
    match x
    case Call(LowLevelCall(ListGetUnsafe), args) =>
      if |args| != 2 then Err(ListGetArity(|args|))
      else
        var r := e.AddListChild(args[0], b, args[1]);
        assert e.GrowsInto(r) by {
          if args[1] in e.symbolIndex {
            PushExtends(e.listChildren, args[0], IndexedChild(b, e.symbolIndex[args[1]]));
          }
        }
        Ok(r)
    case Call(_, _) => Ok(e.WithoutIncremented())
    case Struct(_) => Ok(e.WithoutIncremented())
    case TagExpr(tagId, _) => Ok(e.WithoutIncremented().(symbolTag := e.symbolTag[b := tagId]))
    case StructAtIndex(index, _, structure) =>
      PushExtends(e.structChildren, structure, IndexedChild(b, index));
      Ok(e.AddStructChild(structure, b, index))
    case UnionAtIndex(structure, tagId, _, index) =>
      PushExtends(e.unionChildren, structure, UnionChild(b, tagId, index));
      Ok(e.AddUnionChild(structure, b, tagId, index).(symbolTag := e.symbolTag[structure := tagId]))
    case ExprUnbox(symbol) =>
      PushExtends(e.boxChildren, symbol, b);
      Ok(e.AddBoxChild(symbol, b))
    case LiteralExpr(IntLiteral(i)) => Ok(e.(symbolIndex := e.symbolIndex[b := LiteralIndex(i)]))
    case LiteralExpr(OtherLiteral) => Ok(e)
    case Inert => Ok(e)
  }

  /** The rewrite of one statement (`specialize_drops_stmt`). */
  function Specialize(I: LayoutInterner, e: Env, ids: nat, s: Stmt): Result<Out>
    decreases s, 1, 0
  {
    match s
    case Let(b, x, l, k) =>
      var e1 := e.AddSymbolLayout(b, l);
      var inner :- LetEnvironment(e1, b, x);
      var r :- Specialize(I, inner, ids, k);
      // A forked continuation leaves the parent environment as it was after the binding.
      Ok(Out(Let(b, x, l, r.stmt), if Forks(x) then e1 else r.env, r.ids))
    case Switch(c, cl, bs, di, d, rl) =>
      var rb :- SpecializeBranches(I, e, ids, s, 0);
      var rd :- Specialize(I, e.WithoutIncremented().InsertBranchInfo(di), rb.1, d);
      Ok(Out(Switch(c, cl, rb.0, di, rd.stmt, rl), e, rd.ids))
    case Ret(_) => Ok(Out(s, e, ids))
    case Refcounting(Inc(x, n), k) =>
      var any := x in e.incrementedSymbols;
      var r :- Specialize(I, e.AddIncremented(x, n), ids, k);
      if any then
        // An earlier increment of `x` settles this one too.
        Ok(r)
      else
        var settled := r.env.GetIncremented(x);
        Ok(Out(if settled.0 == 0 then r.stmt else Refcounting(Inc(x, settled.0), r.stmt), settled.1, r.ids))
    case Refcounting(Dec(x), k) =>
      var cancelled := e.PopIncremented(x);
      if cancelled.0 then
        Specialize(I, cancelled.1, ids, k)
      else
        var children := e.PopChildren(e.GetChildren(x), {});
        var e2 := children.1;
        var r :- DispatchDec(I, e2, ids, x, children.0, k);
        // Every popped child the specialiser did not use gets its reservation back.
        Ok(Out(r.stmt, r.env.AddBack(r.popped), r.ids))
    case Refcounting(DecRef(x), k) =>
      var r :- Specialize(I, e, ids, k);
      Ok(r.(stmt := Refcounting(DecRef(x), r.stmt)))
    case Expect(c, ls, k) =>
      var r :- Specialize(I, e, ids, k);
      Ok(r.(stmt := Expect(c, ls, r.stmt)))
    case ExpectFx(c, ls, k) =>
      var r :- Specialize(I, e, ids, k);
      Ok(r.(stmt := ExpectFx(c, ls, r.stmt)))
    case Dbg(x, k) =>
      var r :- Specialize(I, e, ids, k);
      Ok(r.(stmt := Dbg(x, r.stmt)))
    case Join(id, ps, body, rem) =>
      var rb :- Specialize(I, AddParams(e.WithoutIncremented(), ps), ids, body);
      var rr :- Specialize(I, e, rb.ids, rem);
      Ok(rr.(stmt := Join(id, ps, rb.stmt, rr.stmt)))
    case Jump(_, _) => Ok(Out(s, e, ids))
    case Crash(_) => Ok(Out(s, e, ids))
  }

  /** An increment of a symbol without reservation whose continuation used
      up all of the reservation it made emits nothing. */
  lemma IncAbsorbed(I: LayoutInterner, e: Env, ids: nat, x: Symbol, n: nat, k: Stmt, r: Out)
    requires x !in e.incrementedSymbols
    requires Specialize(I, e.AddIncremented(x, n), ids, k) == Ok(r)
    requires x !in r.env.incrementedSymbols
    ensures Specialize(I, e, ids, Refcounting(Inc(x, n), k)) == Ok(r)
  {
    assert r.env.GetIncremented(x) == (0, r.env) by {
      assert r.env.incrementedSymbols - {x} == r.env.incrementedSymbols;
    }
  }

  /** A decrement without reservation, once its children are popped and the
      specialiser has run. */
  lemma DecUnfolds(I: LayoutInterner, e: Env, ids: nat, x: Symbol, k: Stmt,
                   popped: set<Symbol>, lowered: Env, d: SpecialisedDec)
    requires x !in e.incrementedSymbols
    requires e.PopChildren(e.GetChildren(x), {}).0 == popped
    requires e.PopChildren(e.GetChildren(x), {}).1 == lowered
    requires DispatchDec(I, lowered, ids, x, popped, k) == Ok(d)
    ensures Specialize(I, e, ids, Refcounting(Dec(x), k)) == Ok(Out(d.stmt, d.env.AddBack(d.popped), d.ids))
  {
  }

  /** The decrement of `x` handed to the specialiser for its layout; a layout
      of no recognised aggregate shape keeps the plain decrement. */
  function DispatchDec(I: LayoutInterner, e: Env, ids: nat, x: Symbol, popped: set<Symbol>, k: Stmt)
    : Result<SpecialisedDec>
    decreases k, 2, 2
  {
    var l :- e.GetSymbolLayout(x);
    match I.runtimeRepresentation(l)
    case StructRepr(fls) => SpecializeStruct(I, e, ids, x, fls, popped, k)
    case UnionRepr(u) => SpecializeUnion(I, e, ids, x, u, popped, k)
    case BoxedRepr(_) => SpecializeBoxed(I, e, ids, popped, x, k)
    case ListRepr(item) => SpecializeList(I, e, ids, popped, x, item, k)
    case OtherRepr => KeepOriginalDecrement(I, e, ids, x, popped, k)
  }

  /** The branches `i ..` of switch `s`, each on its own fork carrying the branch's information. */
  function SpecializeBranches(I: LayoutInterner, e: Env, ids: nat, s: Stmt, i: nat): Result<(seq<Branch>, nat)>
    requires s.Switch? && i <= |s.branches|
    decreases s, 0, |s.branches| - i
  {
    if i == |s.branches| then Ok(([], ids))
    else
      var b := s.branches[i];
      var r :- Specialize(I, e.WithoutIncremented().InsertBranchInfo(b.info), ids, b.body);
      var rest :- SpecializeBranches(I, e, r.ids, s, i + 1);
      Ok(([Branch(b.caseValue, b.info, r.stmt)] + rest.0, rest.1))
  }

  /** The decrement left as it is, before the rewritten continuation. */
  function KeepOriginalDecrement(I: LayoutInterner, e: Env, ids: nat, x: Symbol, popped: set<Symbol>, k: Stmt)
    : Result<SpecialisedDec>
    decreases k, 2, 0
  {
    var r :- Specialize(I, e, ids, k);
    Ok(SpecialisedDec(Refcounting(Dec(x), r.stmt), r.env, r.ids, popped))
  }

  function SpecializeStruct(I: LayoutInterner, e: Env, ids: nat, x: Symbol, fls: seq<InLayout>,
                            popped: set<Symbol>, k: Stmt): Result<SpecialisedDec>
    decreases k, 2, 1
  {
    if x in e.structChildren then
      var chosen := IndexSymbols(e.structChildren[x], 0, |fls|, map[], popped);
      var r :- Specialize(I, e, ids, k);
      var w := StructPlan(I, x, fls, chosen.0).WrapFrom(|fls|, r.stmt, r.ids);
      Ok(SpecialisedDec(w.0, r.env, w.1, chosen.1))
    else
      KeepOriginalDecrement(I, e, ids, x, popped, k)
  }

  /** Struct fields: popped children cancel, the others are decremented. */
  function StructPlan(I: LayoutInterner, x: Symbol, fls: seq<InLayout>, slots: map<Index, Slot>): FieldPlan {
    FieldPlan(I, StructField(fls, x), fls, slots, Nothing, DecChild)
  }

  /** The fields of a union whose parent is freed: as for a struct. */
  function UniquePlan(I: LayoutInterner, x: Symbol, t: Tag, u: UnionLayout, fls: seq<InLayout>, slots: map<Index, Slot>): FieldPlan {
    FieldPlan(I, UnionField(x, t, u), fls, slots, Nothing, DecChild)
  }

  /** The fields of a shared union: popped children get their increment back, nothing else. */
  function SharedPlan(I: LayoutInterner, x: Symbol, t: Tag, u: UnionLayout, fls: seq<InLayout>, slots: map<Index, Slot>): FieldPlan {
    FieldPlan(I, UnionField(x, t, u), fls, slots, IncChild, Nothing)
  }

  function SpecializeUnion(I: LayoutInterner, e: Env, ids: nat, x: Symbol, u: UnionLayout,
                           popped: set<Symbol>, k: Stmt): Result<SpecialisedDec>
    decreases k, 2, 1
  {
    var tag := if x in e.symbolTag then Some(e.symbolTag[x]) else None;
    var resolved :- GetUnionTagLayout(u, tag);
    match resolved
    case Unknown => KeepOriginalDecrement(I, e, ids, x, popped, k)
    case Null =>
      var r :- Specialize(I, e, ids, k);
      Ok(SpecialisedDec(r.stmt, r.env, r.ids, popped))
    case Found(fls, t) =>
      if x !in e.unionChildren then KeepOriginalDecrement(I, e, ids, x, popped, k)
      else SpecializeKnownUnion(I, e, ids, x, u, fls, t, popped, k)
  }

  /** A union whose tag is known and whose fields have registered children. */
  function SpecializeKnownUnion(I: LayoutInterner, e: Env, ids: nat, x: Symbol, u: UnionLayout,
                                fls: seq<InLayout>, t: Tag, popped: set<Symbol>, k: Stmt): Result<SpecialisedDec>
    requires x in e.unionChildren
    decreases k, 2, 0
  {
    var chosen := IndexSymbols(UnionIndexed(e.unionChildren[x]), 0, |fls|, map[], popped);
    var r :- Specialize(I, e, ids, k);
    var w :=
      if u.NonRecursive? then UniquePlan(I, x, t, u, fls, chosen.0).WrapFrom(|fls|, r.stmt, r.ids)
      else BranchUniqueness(e.layout, x, UniquePlan(I, x, t, u, fls, chosen.0),
                            SharedPlan(I, x, t, u, fls, chosen.0), r.stmt, r.ids);
    Ok(SpecialisedDec(w.0, r.env, w.1, chosen.1))
  }

  /** `let isUnique = is_unique(symbol)` followed by the two-way switch on it. */
  function UniqueSymbol(symbol: Symbol, isUnique: Symbol, unique: Stmt, notUnique: Stmt, retLayout: InLayout): Stmt {
    Let(isUnique, IsUniqueCall(symbol), BOOL,
        Switch(isUnique, BOOL, [Branch(1, NoInfo, unique)], NoInfo, notUnique, retLayout))
  }

  /** Branches on the uniqueness of `x`: the unique arm frees it after its
      fields, the shared arm only drops its own reference. A continuation that
      is a single `Ret` or `Jump` is copied into both arms; any other is put in
      a join point that both arms jump to. */
  function BranchUniqueness(retLayout: InLayout, x: Symbol, unique: FieldPlan, shared: FieldPlan,
                            k: Stmt, ids: nat): (Stmt, nat)
    requires |unique.fieldLayouts| == |shared.fieldLayouts|
  {
    if k.Ret? || k.Jump? then
      UniquenessTest(retLayout, x, unique, shared, k, ids)
    else
      var joinId := ids;
      var t := UniquenessTest(retLayout, x, unique, shared, Jump(joinId, []), ids + 1);
      (Join(joinId, [], k, t.0), t.1)
  }

  /** The test of `x` and its two arms, each ending in `DecRef(x)` and then `k`;
      fresh symbols are drawn from `ids`, the test's own last. */
  function UniquenessTest(retLayout: InLayout, x: Symbol, unique: FieldPlan, shared: FieldPlan,
                          k: Stmt, ids: nat): (Stmt, nat)
    requires |unique.fieldLayouts| == |shared.fieldLayouts|
  {
    var n := |unique.fieldLayouts|;
    var u := unique.WrapFrom(n, Refcounting(DecRef(x), k), ids);
    var s := shared.WrapFrom(n, Refcounting(DecRef(x), k), u.1);
    (UniqueSymbol(x, s.1, u.0, s.0, retLayout), s.1 + 1)
  }

  function SpecializeBoxed(I: LayoutInterner, e: Env, ids: nat, popped: set<Symbol>, x: Symbol, k: Stmt)
    : Result<SpecialisedDec>
    decreases k, 2, 1
  {
    var removed := popped != {};
    var left := if removed then popped - {Least(popped)} else popped;
    var r :- Specialize(I, e, ids, k);
    Ok(SpecialisedDec(Refcounting(if removed then DecRef(x) else Dec(x), r.stmt), r.env, r.ids, left))
  }

  /** The list can be specialised: its items hold refcounted data, its length
      is known and as many elements are registered as it has. */
  predicate ListSpecialisable(I: LayoutInterner, e: Env, x: Symbol, item: InLayout) {
    I.containsRefcounted(item) && x in e.listLength && x in e.listChildren
    && |e.listChildren[x]| == e.listLength[x]
  }

  function SpecializeList(I: LayoutInterner, e: Env, ids: nat, popped: set<Symbol>, x: Symbol,
                          item: InLayout, k: Stmt): Result<SpecialisedDec>
    decreases k, 2, 1
  {
    if ListSpecialisable(I, e, x, item) then
      var n := e.listLength[x];
      var chosen := IndexSymbols(e.listChildren[x], 0, n, map[], popped);
      var r :- Specialize(I, e, ids, k);
      var w :- WrapElements(chosen.0, n, Refcounting(DecRef(x), r.stmt));
      Ok(SpecialisedDec(w, r.env, r.ids, chosen.1))
    else
      KeepOriginalDecrement(I, e, ids, x, popped, k)
  }

  /** A procedure as the pass sees it: its arguments, the layout it returns and its body. */
  datatype Proc = Proc(args: seq<Param>, resultLayout: InLayout, body: Stmt)

  /** Every procedure in turn, each on a fresh environment, fresh symbols
      drawn from one counter; the first panic stops the pass. */
  function SpecializeAll(I: LayoutInterner, procs: seq<Proc>, ids: nat): Result<(seq<Proc>, nat)>
    decreases |procs|
  {
    if procs == [] then Ok(([], ids))
    else
      var p := procs[0];
      var o :- SpecializeProc(I, p.resultLayout, p.args, ids, p.body);
      var rest :- SpecializeAll(I, procs[1..], o.ids);
      Ok(([p.(body := o.stmt)] + rest.0, rest.1))
  }

  /** One procedure: its arguments' layouts recorded on a fresh environment, then its body rewritten. */
  function SpecializeProc(I: LayoutInterner, resultLayout: InLayout, args: seq<Param>, ids: nat, body: Stmt)
    : Result<Out>
  {
    Specialize(I, AddParams(Env.Empty(resultLayout), args), ids, body)
  }
}
