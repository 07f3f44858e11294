/** The field actions a specialiser wraps around the rewritten continuation of
    a decrement: the reverse loops over the fields of a struct or union and
    over the elements of a list. Each loop wraps from the last field to the
    first, so the statements it emits run in ascending field order; the lemmas
    here state that order outright. */
module Fields {
  import opened Ir
  import opened Slots

  /** What is emitted for the child standing for a field (the source's
      optional `rc` closure): nothing, a decrement, or one increment. */
  datatype RcAction = Nothing | DecChild | IncChild

  function Act(a: RcAction, s: Symbol): (r: seq<Head>)
    ensures a.Nothing? <==> r == []
    ensures a.DecChild? ==> r == [RcHead(Dec(s))]
    ensures a.IncChild? ==> r == [RcHead(Inc(s, 1))]
  {
    match a
    case Nothing => []
    case DecChild => [RcHead(Dec(s))]
    case IncChild => [RcHead(Inc(s, 1))]
  }

  /** How a fresh binding projects a field out of the parent. */
  datatype Projection =
    | StructField(fieldLayouts: seq<InLayout>, structure: Symbol)
    | UnionField(structure: Symbol, tag: Tag, union: UnionLayout)

  function Project(p: Projection, i: Index): Expr {
    match p
    case StructField(fls, s) => StructAtIndex(i, fls, s)
    case UnionField(s, t, u) => UnionAtIndex(s, t, u, i)
  }

  /** How the fields of one parent are treated: which child stands for each
      field, and what to do with popped and with unpopped ones. */
  datatype FieldPlan = FieldPlan(
    interner: LayoutInterner,
    projection: Projection,
    fieldLayouts: seq<InLayout>,
    slots: map<Index, Slot>,
    onPopped: RcAction,
    onUnpopped: RcAction)
  {
    /** Field `i` needs a fresh symbol: it holds refcounted data, no child
        stands for it, and unpopped fields get an action. */
    predicate UsesFresh(i: nat)
      requires i < |fieldLayouts|
    {
      interner.containsRefcounted(fieldLayouts[i]) && i !in slots && !onUnpopped.Nothing?
    }

    /** The statements emitted for field `i`, binding `newSymbol` when it needs a new symbol. */
    function FieldHeads(i: nat, newSymbol: Symbol): (r: seq<Head>)
      requires i < |fieldLayouts|
      // Fields without refcounted data get nothing.
      ensures !interner.containsRefcounted(fieldLayouts[i]) ==> r == []
      // A field whose child was popped gets the popped action on that child.
      ensures interner.containsRefcounted(fieldLayouts[i]) && i in slots && slots[i].popped ==>
        r == Act(onPopped, slots[i].child)
      // A field whose child was not popped gets the unpopped action on that child.
      ensures interner.containsRefcounted(fieldLayouts[i]) && i in slots && !slots[i].popped ==>
        r == Act(onUnpopped, slots[i].child)
      // A field no child stands for is projected into `newSymbol`, which then gets the unpopped action.
      ensures UsesFresh(i) ==>
        r == [LetHead(newSymbol, Project(projection, i), interner.chaseRecursiveIn(fieldLayouts[i]))]
             + Act(onUnpopped, newSymbol)
      ensures interner.containsRefcounted(fieldLayouts[i]) && i !in slots && onUnpopped.Nothing? ==> r == []
    {
      if !interner.containsRefcounted(fieldLayouts[i]) then []
      else if i in slots then
        Act(if slots[i].popped then onPopped else onUnpopped, slots[i].child)
      else if onUnpopped.Nothing? then []
      else
        [LetHead(newSymbol, Project(projection, i), interner.chaseRecursiveIn(fieldLayouts[i]))]
        + Act(onUnpopped, newSymbol)
    }

    /** The reverse loop: wraps `k` with the actions of fields `n - 1` down to
        0, drawing fresh symbols from `ids` on the way; returns the wrapped
        statement and the next unused symbol. */
    function WrapFrom(n: nat, k: Stmt, ids: nat): (r: (Stmt, nat))
      requires n <= |fieldLayouts|
      decreases n
    {
      if n == 0 then (k, ids)
      else
        var i := n - 1;
        WrapFrom(i, Chain(FieldHeads(i, ids), k), if UsesFresh(i) then ids + 1 else ids)
    }

    /** How many of fields `0 .. n - 1` take a fresh symbol. */
    function FreshCount(n: nat): (r: nat)
      requires n <= |fieldLayouts|
      ensures r <= n
    {
      if n == 0 then 0 else FreshCount(n - 1) + (if UsesFresh(n - 1) then 1 else 0)
    }

    /** The actions of fields `0 .. n - 1` in ascending order, fresh symbols
        numbered from `ids` starting at the highest field. */
    function AscendingHeads(n: nat, ids: nat): seq<Head>
      requires n <= |fieldLayouts|
      decreases n
    {
      if n == 0 then []
      else
        var i := n - 1;
        AscendingHeads(i, if UsesFresh(i) then ids + 1 else ids) + FieldHeads(i, ids)
    }

    /** The statement the reverse loop builds runs the field actions in
        ascending field order, then `k`; it consumes one fresh symbol per
        field that needs one. */
    lemma {:induction false} WrapFromIsChain(n: nat, k: Stmt, ids: nat)
      requires n <= |fieldLayouts|
      ensures WrapFrom(n, k, ids).0 == Chain(AscendingHeads(n, ids), k)
      ensures WrapFrom(n, k, ids).1 == ids + FreshCount(n)
      decreases n
    {
      if n > 0 {
        var i := n - 1;
        var ids' := if UsesFresh(i) then ids + 1 else ids;
        var heads := FieldHeads(i, ids);
        var before := AscendingHeads(i, ids');
        assert WrapFrom(n, k, ids) == WrapFrom(i, Chain(heads, k), ids');
        assert AscendingHeads(n, ids) == before + heads;
        assert FreshCount(n) == FreshCount(i) + (ids' - ids);
        WrapFromIsChain(i, Chain(heads, k), ids');
        ChainAppend(before, heads, k);
      } else {
        assert AscendingHeads(0, ids) == [] && FreshCount(0) == 0;
      }
    }

    /** An action list that only ever uses `onUnpopped` on fresh symbols
        mentions a child's symbol only for fields that child stands for. */
    lemma {:induction false} AscendingHeadsMention(n: nat, ids: nat, s: Symbol)
      requires n <= |fieldLayouts|
      requires s < ids
      requires forall i | i in slots :: slots[i].child != s
      ensures forall h | h in AscendingHeads(n, ids) :: h != RcHead(Dec(s)) && h != RcHead(Inc(s, 1))
      decreases n
    {
      if n > 0 {
        var i := n - 1;
        AscendingHeadsMention(i, if UsesFresh(i) then ids + 1 else ids, s);
        forall h | h in FieldHeads(i, ids) ensures h != RcHead(Dec(s)) && h != RcHead(Inc(s, 1)) {
        }
      }
    }
  }

  /** The reverse loop over list elements, from `n - 1` down to 0: a popped
      element gets nothing, an unpopped one a decrement. An element without a
      slot is the source's `unwrap` on a missing entry. */
  function WrapElements(slots: map<Index, Slot>, n: nat, k: Stmt): (r: Result<Stmt>)
    decreases n
  {
    if n == 0 then Ok(k)
    else if n - 1 !in slots then Err(ListItemMissing(n - 1))
    else
      var s := slots[n - 1];
      WrapElements(slots, n - 1, if s.popped then k else Refcounting(Dec(s.child), k))
  }

  /** The decrements of the unpopped elements `0 .. n - 1` in ascending order. */
  function ElementHeads(slots: map<Index, Slot>, n: nat): seq<Head>
    requires forall i | 0 <= i < n :: i in slots
  {
    if n == 0 then []
    else
      var s := slots[n - 1];
      ElementHeads(slots, n - 1) + (if s.popped then [] else [RcHead(Dec(s.child))])
  }

  /** With every element covered, the loop decrements exactly the unpopped
      elements, in ascending index order, before `k`. */
  lemma {:induction false} WrapElementsIsChain(slots: map<Index, Slot>, n: nat, k: Stmt)
    requires forall i | 0 <= i < n :: i in slots
    ensures WrapElements(slots, n, k) == Ok(Chain(ElementHeads(slots, n), k))
    decreases n
  {
    if n > 0 {
      var s := slots[n - 1];
      var tail := if s.popped then [] else [RcHead(Dec(s.child))];
      var k' := if s.popped then k else Refcounting(Dec(s.child), k);
      assert Chain(tail, k) == k' by {
        if !s.popped {
          assert tail[1..] == [];
        }
      }
      WrapElementsIsChain(slots, n - 1, k');
      ChainAppend(ElementHeads(slots, n - 1), tail, k);
    }
  }

  /** The loop panics exactly when some element below `n` has no slot, and
      then on the highest such element. */
  lemma {:induction false} WrapElementsMissing(slots: map<Index, Slot>, n: nat, k: Stmt, m: nat)
    requires m < n && m !in slots
    requires forall i | m < i < n :: i in slots
    ensures WrapElements(slots, n, k) == Err(ListItemMissing(m))
    decreases n
  {
    if n - 1 != m {
      var s := slots[n - 1];
      WrapElementsMissing(slots, n - 1, if s.popped then k else Refcounting(Dec(s.child), k), m);
    }
  }

  /** Some element below `n` without a slot makes the loop panic. */
  lemma {:induction false} WrapElementsFails(slots: map<Index, Slot>, n: nat, k: Stmt, m: nat)
    requires m < n && m !in slots
    ensures WrapElements(slots, n, k).Err?
    decreases n
  {
    if n - 1 in slots {
      var s := slots[n - 1];
      WrapElementsFails(slots, n - 1, if s.popped then k else Refcounting(Dec(s.child), k), m);
    }
  }

  /** Every element of the ascending list decrements an unpopped element's child. */
  lemma {:induction false} ElementHeadsAreUnpoppedDecs(slots: map<Index, Slot>, n: nat)
    requires forall i | 0 <= i < n :: i in slots
    ensures |ElementHeads(slots, n)| <= n
    ensures forall h | h in ElementHeads(slots, n) ::
      exists i | 0 <= i < n :: !slots[i].popped && h == RcHead(Dec(slots[i].child))
    decreases n
  {
    if n > 0 {
      ElementHeadsAreUnpoppedDecs(slots, n - 1);
    }
  }
}
