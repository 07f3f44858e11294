/** The fragment of the monomorphised IR that drop specialisation reads and
    rebuilds: statements, expressions, reference-count operations and the
    layouts it dispatches on, restricted to the constructors the pass looks at. */
module Ir {

  type Symbol = nat
  type Tag = nat
  type Index = nat

  /** An interned layout handle; what it stands for is answered by a LayoutInterner. */
  type InLayout = nat

  /** The interned handle of the Bool layout, used for the uniqueness test. */
  const BOOL: InLayout := 1

  datatype Option<+T> = None | Some(value: T)

  /** The fatal assertions of the pass (compiler-internal bugs). */
  datatype Panic =
    | MissingSymbolLayout(symbol: Symbol)
    | ListGetArity(arguments: nat)
    | TagOutOfRange(tag: Tag)
    | ListItemMissing(index: Index)

  datatype Result<+T> = Ok(value: T) | Err(error: Panic) {
    predicate IsFailure() { Err? }
    function PropagateFailure<U>(): Result<U> requires Err? { Err(error) }
    function Extract(): T requires Ok? { value }
  }

  datatype UnionLayout =
    | NonRecursive(tags: seq<seq<InLayout>>)
    | Recursive(tags: seq<seq<InLayout>>)
    | NonNullableUnwrapped(fields: seq<InLayout>)
    | NullableWrapped(nullableId: Tag, otherTags: seq<seq<InLayout>>)
    | NullableUnwrapped(nullableIsOne: bool, otherFields: seq<InLayout>)

  /** The runtime shape of a layout, as far as the pass distinguishes shapes. */
  datatype LayoutRepr =
    | StructRepr(fieldLayouts: seq<InLayout>)
    | UnionRepr(union: UnionLayout)
    | BoxedRepr(inner: InLayout)
    | ListRepr(item: InLayout)
    | OtherRepr

  /** The layout queries the pass asks of the interner; their code is not part of this model. */
  datatype LayoutInterner = LayoutInterner(
    runtimeRepresentation: InLayout -> LayoutRepr,
    containsRefcounted: InLayout -> bool,
    chaseRecursiveIn: InLayout -> InLayout)

  datatype LowLevel = ListGetUnsafe | RefCountIsUnique | OtherLowLevel

  /** The call type after low-level wrappers have been replaced by the low-level they wrap. */
  datatype CallType = LowLevelCall(op: LowLevel) | OtherCall

  /** An integer literal carries the 128 bits of an i128; other literal kinds are irrelevant here. */
  datatype Literal = IntLiteral(i: int) | OtherLiteral

  datatype Expr =
    | Call(callType: CallType, arguments: seq<Symbol>)
    | Struct(fields: seq<Symbol>)
    | TagExpr(tagId: Tag, arguments: seq<Symbol>)
    | StructAtIndex(index: Index, fieldLayouts: seq<InLayout>, structure: Symbol)
    | UnionAtIndex(structure: Symbol, tagId: Tag, unionLayout: UnionLayout, index: Index)
    | ExprUnbox(symbol: Symbol)
    | LiteralExpr(literal: Literal)
      /** Reuse, Reset, ResetRef, ExprBox, Array, EmptyArray, NullPointer, GetTagId,
          RuntimeErrorFunction: nothing the pass looks at. */
    | Inert

  datatype ModifyRc = Inc(symbol: Symbol, count: nat) | Dec(symbol: Symbol) | DecRef(symbol: Symbol)

  datatype BranchInfo =
    | NoInfo
    | Constructor(scrutinee: Symbol, tagId: Tag)
    | ListInfo(scrutinee: Symbol, len: nat)

  datatype Param = Param(symbol: Symbol, layout: InLayout)

  datatype Stmt =
    | Let(binding: Symbol, expr: Expr, layout: InLayout, continuation: Stmt)
    | Switch(condSymbol: Symbol, condLayout: InLayout, branches: seq<Branch>,
             defaultInfo: BranchInfo, defaultBranch: Stmt, retLayout: InLayout)
    | Ret(symbol: Symbol)
    | Refcounting(rc: ModifyRc, continuation: Stmt)
    | Expect(condition: Symbol, lookups: seq<Symbol>, remainder: Stmt)
    | ExpectFx(condition: Symbol, lookups: seq<Symbol>, remainder: Stmt)
    | Dbg(symbol: Symbol, remainder: Stmt)
    | Join(id: Symbol, parameters: seq<Param>, body: Stmt, remainder: Stmt)
    | Jump(target: Symbol, arguments: seq<Symbol>)
    | Crash(symbol: Symbol)

  datatype Branch = Branch(caseValue: nat, info: BranchInfo, body: Stmt)

  /** A statement with its continuation left open: what the specialisers emit, one after the other. */
  datatype Head = LetHead(binding: Symbol, expr: Expr, layout: InLayout) | RcHead(rc: ModifyRc)

  function Close(h: Head, k: Stmt): Stmt {
    match h
    case LetHead(b, e, l) => Let(b, e, l, k)
    case RcHead(rc) => Refcounting(rc, k)
  }

  /** The statement that runs heads[0], then heads[1], ..., then k. */
  function Chain(heads: seq<Head>, k: Stmt): Stmt
    decreases |heads|
  {
    if heads == [] then k else Close(heads[0], Chain(heads[1..], k))
  }

  lemma {:induction false} ChainAppend(a: seq<Head>, b: seq<Head>, k: Stmt)
    ensures Chain(a + b, k) == Chain(a, Chain(b, k))
    decreases |a|
  {
    if a != [] {
      assert (a + b)[1..] == a[1..] + b;
      ChainAppend(a[1..], b, k);
    } else {
      assert a + b == b;
    }
  }

  /** Every Inc of the statement increments by at least one. */
  predicate IncCountsPositive(s: Stmt)
    decreases s
  {
    match s
    case Let(_, _, _, k) => IncCountsPositive(k)
    case Switch(_, _, bs, _, d, _) =>
      (forall i | 0 <= i < |bs| :: IncCountsPositive(bs[i].body)) && IncCountsPositive(d)
    case Ret(_) => true
    case Refcounting(rc, k) => (rc.Inc? ==> rc.count >= 1) && IncCountsPositive(k)
    case Expect(_, _, k) => IncCountsPositive(k)
    case ExpectFx(_, _, k) => IncCountsPositive(k)
    case Dbg(_, k) => IncCountsPositive(k)
    case Join(_, _, b, k) => IncCountsPositive(b) && IncCountsPositive(k)
    case Jump(_, _) => true
    case Crash(_) => true
  }
}
