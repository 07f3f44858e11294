/** Which registered child stands for each field (or list element) of a parent
    that is being decremented, and whether that child's reservation was taken
    out of the set of popped children: the `index_symbols` map of the struct,
    union and list specialisers. */
module Slots {
  import opened Ir
  import opened Environment

  datatype Slot = Slot(child: Symbol, popped: bool)

  /** The children at `index` in registration order, from the current one on:
      each visited child is removed from `popped`; the first one that was in it
      ends the scan, marked popped; otherwise the last visited child is kept. */
  function ScanIndex(cs: seq<IndexedChild>, index: Index, slot: Option<Slot>, popped: set<Symbol>)
    : (r: (Option<Slot>, set<Symbol>))
    decreases |cs|
  {
    if cs == [] then (slot, popped)
    else if cs[0].index != index then ScanIndex(cs[1..], index, slot, popped)
    else if cs[0].child in popped then (Some(Slot(cs[0].child, true)), popped - {cs[0].child})
    else ScanIndex(cs[1..], index, Some(Slot(cs[0].child, false)), popped)
  }

  /** The slots of indices `i` to `n - 1`, scanned in ascending order, added to `slots`. */
  function IndexSymbols(cs: seq<IndexedChild>, i: nat, n: nat, slots: map<Index, Slot>, popped: set<Symbol>)
    : (r: (map<Index, Slot>, set<Symbol>))
    decreases n - i
  {
    if i >= n then (slots, popped)
    else
      var scanned := ScanIndex(cs, i, None, popped);
      IndexSymbols(cs, i + 1, n, if scanned.0.Some? then slots[i := scanned.0.value] else slots, scanned.1)
  }

  /** The slot of an index holds the FIRST child at that index whose reservation was popped. */
  lemma {:induction false} ScanIndexFirstPopped(cs: seq<IndexedChild>, index: Index, slot: Option<Slot>, popped: set<Symbol>, j: nat)
    requires j < |cs| && cs[j].index == index && cs[j].child in popped
    requires forall k | 0 <= k < j :: cs[k].index == index ==> cs[k].child !in popped
    ensures ScanIndex(cs, index, slot, popped) == (Some(Slot(cs[j].child, true)), popped - {cs[j].child})
    decreases |cs|
  {
    if j > 0 {
      var slot' := if cs[0].index == index then Some(Slot(cs[0].child, false)) else slot;
      ScanIndexFirstPopped(cs[1..], index, slot', popped, j - 1);
    }
  }

  /** With no popped child at an index, its slot holds the LAST child at that
      index, unpopped, and the popped set is unchanged. */
  lemma {:induction false} ScanIndexLastUnpopped(cs: seq<IndexedChild>, index: Index, slot: Option<Slot>, popped: set<Symbol>, j: nat)
    requires forall k | 0 <= k < |cs| :: cs[k].index == index ==> cs[k].child !in popped
    requires j < |cs| && cs[j].index == index
    requires forall k | j < k < |cs| :: cs[k].index != index
    ensures ScanIndex(cs, index, slot, popped) == (Some(Slot(cs[j].child, false)), popped)
    decreases |cs|
  {
    if j > 0 {
      var slot' := if cs[0].index == index then Some(Slot(cs[0].child, false)) else slot;
      ScanIndexLastUnpopped(cs[1..], index, slot', popped, j - 1);
    } else {
      ScanIndexAbsent(cs[1..], index, Some(Slot(cs[0].child, false)), popped);
    }
  }

  /** An index with no registered child keeps whatever slot it had. */
  lemma {:induction false} ScanIndexAbsent(cs: seq<IndexedChild>, index: Index, slot: Option<Slot>, popped: set<Symbol>)
    requires forall k | 0 <= k < |cs| :: cs[k].index != index
    ensures ScanIndex(cs, index, slot, popped) == (slot, popped)
    decreases |cs|
  {
    if cs != [] {
      ScanIndexAbsent(cs[1..], index, slot, popped);
    }
  }

  /** A scan removes at most the one child it marks popped, and finds one at
      the index whenever a child is registered there. */
  lemma {:induction false} ScanIndexEffect(cs: seq<IndexedChild>, index: Index, slot: Option<Slot>, popped: set<Symbol>)
    requires slot.None? || !slot.value.popped
    ensures var r := ScanIndex(cs, index, slot, popped);
      && (r.0.Some? && r.0.value.popped ==> r.0.value.child in popped && r.1 == popped - {r.0.value.child})
      && (!(r.0.Some? && r.0.value.popped) ==> r.1 == popped)
      && (slot.Some? && !slot.value.popped ==> r.0.Some?)
      && (AnyAt(cs, index) ==> r.0.Some?)
      && (r.0.Some? && r.0 != slot ==> RegisteredAt(cs, index, r.0.value.child))
    decreases |cs|
  {
    if cs != [] {
      if cs[0].index != index {
        ScanIndexEffect(cs[1..], index, slot, popped);
        ShiftExists(cs, index);
      } else if cs[0].child !in popped {
        ScanIndexEffect(cs[1..], index, Some(Slot(cs[0].child, false)), popped);
        ShiftExists(cs, index);
      }
    }
  }

  /** `c` is registered as the child at `index`. */
  predicate RegisteredAt(cs: seq<IndexedChild>, index: Index, c: Symbol) {
    exists k | 0 <= k < |cs| :: cs[k].index == index && cs[k].child == c
  }

  /** Some child is registered at `index`. */
  predicate AnyAt(cs: seq<IndexedChild>, index: Index) {
    exists k | 0 <= k < |cs| :: cs[k].index == index
  }

  lemma ShiftExists(cs: seq<IndexedChild>, index: Index)
    requires cs != []
    ensures forall c | RegisteredAt(cs[1..], index, c) :: RegisteredAt(cs, index, c)
    ensures AnyAt(cs, index) && cs[0].index != index ==> AnyAt(cs[1..], index)
  {
    forall c | RegisteredAt(cs[1..], index, c) ensures RegisteredAt(cs, index, c) {
      var k :| 0 <= k < |cs[1..]| && cs[1..][k].index == index && cs[1..][k].child == c;
      assert cs[k + 1] == cs[1..][k];
    }
    if AnyAt(cs, index) && cs[0].index != index {
      var k :| 0 <= k < |cs| && cs[k].index == index;
      assert cs[1..][k - 1] == cs[k];
    }
  }

  /** The slots of indices `i` to `n - 1`: every such index with a registered
      child gets a slot holding one of its children at that index; the set
      loses exactly the children of the new slots marked popped. */
  lemma {:induction false} IndexSymbolsEffect(cs: seq<IndexedChild>, i: nat, n: nat, slots: map<Index, Slot>, popped: set<Symbol>)
    requires forall k | k in slots :: k < i
    ensures var r := IndexSymbols(cs, i, n, slots, popped);
      && r.1 <= popped
      && (forall k | k in r.0 && k !in slots :: i <= k < n && RegisteredAt(cs, k, r.0[k].child))
      && (forall k | i <= k < n && AnyAt(cs, k) :: k in r.0)
      && (forall k | k in slots :: k in r.0 && r.0[k] == slots[k])
      && (forall k | k in r.0 && k !in slots && r.0[k].popped :: r.0[k].child in popped && r.0[k].child !in r.1)
      && (forall c | c in popped && c !in r.1 :: exists k | k in r.0 && k !in slots :: r.0[k].popped && r.0[k].child == c)
    decreases n - i
  {
    if i < n {
      var scanned := ScanIndex(cs, i, None, popped);
      ScanIndexEffect(cs, i, None, popped);
      var slots' := if scanned.0.Some? then slots[i := scanned.0.value] else slots;
      IndexSymbolsEffect(cs, i + 1, n, slots', scanned.1);
      var r := IndexSymbols(cs, i + 1, n, slots', scanned.1);
      assert r == IndexSymbols(cs, i, n, slots, popped);
      forall c | c in popped && c !in r.1
        ensures exists k | k in r.0 && k !in slots :: r.0[k].popped && r.0[k].child == c
      {
        if c in scanned.1 {
          var k :| k in r.0 && k !in slots' && r.0[k].popped && r.0[k].child == c;
        } else {
          assert i in r.0 && i !in slots && r.0[i] == scanned.0.value;
        }
      }
      forall k | k in r.0 && k !in slots && r.0[k].popped
        ensures r.0[k].child in popped && r.0[k].child !in r.1
      {
        if k == i {
          assert r.0[k] == scanned.0.value;
        }
      }
    }
  }

  /** The nested loops that fill `index_symbols` for indices `0 .. n - 1`. */
  method ComputeIndexSymbols(cs: seq<IndexedChild>, n: nat, popped: set<Symbol>)
    returns (slots: map<Index, Slot>, remaining: set<Symbol>)
    ensures (slots, remaining) == IndexSymbols(cs, 0, n, map[], popped)
  {
    slots, remaining := map[], popped;
    var index := 0;
    while index < n
      invariant IndexSymbols(cs, index, n, slots, remaining) == IndexSymbols(cs, 0, n, map[], popped)
    {
      ghost var before := remaining;
      var slot: Option<Slot> := None;
      var j := 0;
      while j < |cs|
        invariant 0 <= j <= |cs|
        invariant ScanIndex(cs[j..], index, slot, remaining) == ScanIndex(cs, index, None, before)
      {
        assert cs[j..][1..] == cs[j + 1..];
        if cs[j].index == index {
          var child := cs[j].child;
          var removed := child in remaining;
          ghost var old_remaining := remaining;
          remaining := remaining - {child};
          assert !removed ==> remaining == old_remaining;
          slot := Some(Slot(child, removed));
          if removed {
            assert (slot, remaining) == ScanIndex(cs, index, None, before);
            break;
          }
        }
        j := j + 1;
      }
      assert (slot, remaining) == ScanIndex(cs, index, None, before);
      if slot.Some? {
        slots := slots[index := slot.value];
      }
      index := index + 1;
    }
  }
}
