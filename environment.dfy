/** The traversal environment of drop specialisation: what is known along one
    linear control path about layouts, parent/child projections, tags, list
    indices and lengths, and the increments not yet settled ("reservations").

    `Env` is the environment as a value, with one function per operation; the
    class `DropSpecializationEnvironment` is the mutable object the pass
    threads, each of its methods proved to act on `Snapshot()` as the
    function of the same name acts on an `Env`. */
module Environment {
  import opened Ir

  /** Largest value of the source's 64-bit counters. */
  const U64_MAX: nat := 0xFFFF_FFFF_FFFF_FFFF

  datatype IndexedChild = IndexedChild(child: Symbol, index: Index)
  datatype UnionChild = UnionChild(child: Symbol, tag: Tag, index: Index)

  function Registered<T>(m: map<Symbol, seq<T>>, parent: Symbol): seq<T> {
    if parent in m then m[parent] else []
  }

  /** `m` with `x` pushed at the end of the registry of `parent`, creating it when absent. */
  function Push<T>(m: map<Symbol, seq<T>>, parent: Symbol, x: T): (r: map<Symbol, seq<T>>)
    ensures r.Keys == m.Keys + {parent}
    ensures Registered(r, parent) == Registered(m, parent) + [x]
    ensures forall p | p in m && p != parent :: r[p] == m[p]
  {
    m[parent := Registered(m, parent) + [x]]
  }

  function IndexedChildren(cs: seq<IndexedChild>): (r: seq<Symbol>)
    ensures |r| == |cs| && forall i | 0 <= i < |cs| :: r[i] == cs[i].child
  {
    seq(|cs|, i requires 0 <= i < |cs| => cs[i].child)
  }

  /** Union children seen only through their field index, as the specialiser filters them. */
  function UnionIndexed(cs: seq<UnionChild>): (r: seq<IndexedChild>)
    ensures |r| == |cs| && forall i | 0 <= i < |cs| :: r[i] == IndexedChild(cs[i].child, cs[i].index)
  {
    seq(|cs|, i requires 0 <= i < |cs| => IndexedChild(cs[i].child, cs[i].index))
  }

  function UnionChildren(cs: seq<UnionChild>): (r: seq<Symbol>)
    ensures |r| == |cs| && forall i | 0 <= i < |cs| :: r[i] == cs[i].child
  {
    IndexedChildren(UnionIndexed(cs))
  }

  /** each registry of `before` is a prefix of its registry in `after`: entries are only ever appended. */
  predicate Extends<T(==)>(before: map<Symbol, seq<T>>, after: map<Symbol, seq<T>>) {
    forall p | p in before :: p in after && before[p] <= after[p]
  }

  datatype Env = Env(
    layout: InLayout,
    symbolLayouts: map<Symbol, InLayout>,
    structChildren: map<Symbol, seq<IndexedChild>>,
    unionChildren: map<Symbol, seq<UnionChild>>,
    boxChildren: map<Symbol, seq<Symbol>>,
    listChildren: map<Symbol, seq<IndexedChild>>,
    incrementedSymbols: map<Symbol, nat>,
    symbolTag: map<Symbol, Tag>,
    symbolIndex: map<Symbol, Index>,
    listLength: map<Symbol, nat>)
  {
    static function Empty(layout: InLayout): Env {
      Env(layout, map[], map[], map[], map[], map[], map[], map[], map[], map[])
    }

    /** The outstanding increments of `s`, 0 when it has no entry. */
    function Count(s: Symbol): nat {
      if s in incrementedSymbols then incrementedSymbols[s] else 0
    }

    /** No reservation is stored with a count of zero. */
    predicate PositiveCounts() {
      forall s | s in incrementedSymbols :: incrementedSymbols[s] >= 1
    }

    /** Everything but the reservations is the same in `e` and this. */
    predicate SameFacts(e: Env) {
      e.(incrementedSymbols := incrementedSymbols) == this
    }

    /** Path-invariant facts only grow: layouts stay recorded and registries are append-only. */
    predicate GrowsInto(e: Env) {
      && e.layout == layout
      && symbolLayouts.Keys <= e.symbolLayouts.Keys
      && Extends(structChildren, e.structChildren)
      && Extends(unionChildren, e.unionChildren)
      && Extends(boxChildren, e.boxChildren)
      && Extends(listChildren, e.listChildren)
    }

    /** The fork taken where linear reasoning about reservations breaks down. */
    function WithoutIncremented(): (e: Env)
      ensures e.incrementedSymbols == map[]
      ensures SameFacts(e)
    {
      this.(incrementedSymbols := map[])
    }

    function AddSymbolLayout(s: Symbol, l: InLayout): (e: Env)
      ensures e.symbolLayouts.Keys == symbolLayouts.Keys + {s} && e.symbolLayouts[s] == l
      ensures forall t | t in symbolLayouts && t != s :: e.symbolLayouts[t] == symbolLayouts[t]
      ensures e == this.(symbolLayouts := e.symbolLayouts)
      ensures e.incrementedSymbols == incrementedSymbols
    {
      this.(symbolLayouts := symbolLayouts[s := l])
    }

    /** Fails (the source's `expect`) when no layout was recorded for `s`. */
    function GetSymbolLayout(s: Symbol): (r: Result<InLayout>)
      ensures r.Ok? <==> s in symbolLayouts
      ensures r.Ok? ==> r.value == symbolLayouts[s]
      ensures r.Err? ==> r.error == MissingSymbolLayout(s)
    {
      if s in symbolLayouts then Ok(symbolLayouts[s]) else Err(MissingSymbolLayout(s))
    }

    /** Registers `child` as field `index` of the struct `parent`. */
    function AddStructChild(parent: Symbol, child: Symbol, index: Index): (e: Env)
      ensures Registered(e.structChildren, parent) == Registered(structChildren, parent) + [IndexedChild(child, index)]
      ensures forall p | p != parent :: Registered(e.structChildren, p) == Registered(structChildren, p)
      ensures e == this.(structChildren := e.structChildren)
    {
      this.(structChildren := Push(structChildren, parent, IndexedChild(child, index)))
    }

    /** Registers `child` as field `index` of constructor `tag` of the union `parent`. */
    function AddUnionChild(parent: Symbol, child: Symbol, tag: Tag, index: Index): (e: Env)
      ensures Registered(e.unionChildren, parent) == Registered(unionChildren, parent) + [UnionChild(child, tag, index)]
      ensures forall p | p != parent :: Registered(e.unionChildren, p) == Registered(unionChildren, p)
      ensures e == this.(unionChildren := e.unionChildren)
    {
      this.(unionChildren := Push(unionChildren, parent, UnionChild(child, tag, index)))
    }

    /** Registers `child` as the contents of the box `parent`. */
    function AddBoxChild(parent: Symbol, child: Symbol): (e: Env)
      ensures Registered(e.boxChildren, parent) == Registered(boxChildren, parent) + [child]
      ensures forall p | p != parent :: Registered(e.boxChildren, p) == Registered(boxChildren, p)
      ensures e == this.(boxChildren := e.boxChildren)
    {
      this.(boxChildren := Push(boxChildren, parent, child))
    }

    /** Registers `child` as element `i` of `parent` only when the index symbol has a known literal value `i`. */
    function AddListChild(parent: Symbol, child: Symbol, index: Symbol): (e: Env)
      ensures index !in symbolIndex ==> e == this
      ensures index in symbolIndex ==>
        Registered(e.listChildren, parent) == Registered(listChildren, parent) + [IndexedChild(child, symbolIndex[index])]
      ensures forall p | p != parent :: Registered(e.listChildren, p) == Registered(listChildren, p)
      ensures SameFacts(e) || e.(listChildren := listChildren) == this
    {
      if index in symbolIndex then
        this.(listChildren := Push(listChildren, parent, IndexedChild(child, symbolIndex[index])))
      else
        this
    }

    /** Every registered child of `parent`: struct, union, box, then list
        registry, each entry once, so a child registered twice appears twice. */
    function GetChildren(parent: Symbol): (r: seq<Symbol>)
      ensures forall c | c in IndexedChildren(Registered(structChildren, parent)) :: c in r
      ensures forall c | c in UnionChildren(Registered(unionChildren, parent)) :: c in r
      ensures forall c | c in Registered(boxChildren, parent) :: c in r
      ensures forall c | c in IndexedChildren(Registered(listChildren, parent)) :: c in r
      ensures forall c | c in r ::
        || c in IndexedChildren(Registered(structChildren, parent))
        || c in UnionChildren(Registered(unionChildren, parent))
        || c in Registered(boxChildren, parent)
        || c in IndexedChildren(Registered(listChildren, parent))
      ensures |r| == |Registered(structChildren, parent)| + |Registered(unionChildren, parent)|
                   + |Registered(boxChildren, parent)| + |Registered(listChildren, parent)|
      ensures multiset(r) == multiset(IndexedChildren(Registered(structChildren, parent)))
                           + multiset(UnionChildren(Registered(unionChildren, parent)))
                           + multiset(Registered(boxChildren, parent))
                           + multiset(IndexedChildren(Registered(listChildren, parent)))
    {
      IndexedChildren(Registered(structChildren, parent))
        + UnionChildren(Registered(unionChildren, parent))
        + Registered(boxChildren, parent)
        + IndexedChildren(Registered(listChildren, parent))
    }

    /** Accumulates `count` more reservations of `s`. */
    function AddIncremented(s: Symbol, count: nat): (e: Env)
      ensures s in e.incrementedSymbols && e.Count(s) == Count(s) + count
      ensures forall t | t != s :: e.Count(t) == Count(t) && (t in e.incrementedSymbols <==> t in incrementedSymbols)
      ensures SameFacts(e)
      ensures PositiveCounts() && count >= 1 ==> e.PositiveCounts()
    {
      this.(incrementedSymbols := incrementedSymbols[s := Count(s) + count])
    }

    /** Removes the entry of `s` and returns what it held, 0 when there was none. */
    function GetIncremented(s: Symbol): (r: (nat, Env))
      ensures r.0 == Count(s)
      ensures s !in r.1.incrementedSymbols
      ensures forall t | t != s :: r.1.Count(t) == Count(t) && (t in r.1.incrementedSymbols <==> t in incrementedSymbols)
      ensures SameFacts(r.1)
      ensures PositiveCounts() ==> r.1.PositiveCounts()
    {
      (Count(s), this.(incrementedSymbols := incrementedSymbols - {s}))
    }

    /** Consumes one reservation of `s`, reporting whether there was one; the
        entry goes when its last unit is consumed. A stored zero wraps around
        as the source's unsigned subtraction does in a release build. */
    function PopIncremented(s: Symbol): (r: (bool, Env))
      ensures r.0 <==> s in incrementedSymbols
      ensures !r.0 ==> r.1 == this
      ensures r.0 && Count(s) >= 1 ==> r.1.Count(s) == Count(s) - 1
      ensures r.0 && Count(s) >= 1 ==> (s in r.1.incrementedSymbols <==> Count(s) > 1)
      ensures forall t | t != s :: r.1.Count(t) == Count(t) && (t in r.1.incrementedSymbols <==> t in incrementedSymbols)
      ensures r.1.incrementedSymbols.Keys <= incrementedSymbols.Keys
      ensures SameFacts(r.1)
      ensures PositiveCounts() ==> r.1.PositiveCounts()
    {
      if s !in incrementedSymbols then (false, this)
      else if incrementedSymbols[s] == 1 then (true, this.(incrementedSymbols := incrementedSymbols - {s}))
      else if incrementedSymbols[s] == 0 then (true, this.(incrementedSymbols := incrementedSymbols[s := U64_MAX]))
      else (true, this.(incrementedSymbols := incrementedSymbols[s := incrementedSymbols[s] - 1]))
    }

    /** Pops `cs` from left to right, collecting into `acc` every child that had a reservation. */
    function PopChildren(cs: seq<Symbol>, acc: set<Symbol>): (r: (set<Symbol>, Env))
      ensures acc <= r.0 && forall c | c in r.0 - acc :: c in cs && c in incrementedSymbols
      ensures r.1.incrementedSymbols.Keys <= incrementedSymbols.Keys
      ensures SameFacts(r.1)
      ensures PositiveCounts() ==> r.1.PositiveCounts()
      decreases |cs|
    {
      if cs == [] then (acc, this)
      else
        var (popped, e) := PopIncremented(cs[0]);
        assert forall c | c in cs[1..] :: c in cs;
        e.PopChildren(cs[1..], if popped then acc + {cs[0]} else acc)
    }

    /** One more reservation for each symbol of `cs`. */
    function AddBack(cs: set<Symbol>): (e: Env)
      ensures forall t :: e.Count(t) == Count(t) + (if t in cs then 1 else 0)
      ensures e.incrementedSymbols.Keys == incrementedSymbols.Keys + cs
      ensures SameFacts(e)
      ensures PositiveCounts() ==> e.PositiveCounts()
    {
      this.(incrementedSymbols :=
        map t | t in incrementedSymbols.Keys + cs :: Count(t) + (if t in cs then 1 else 0))
    }

    /** What a branch learns about its scrutinee: a constructor's tag or a list's length. */
    function InsertBranchInfo(info: BranchInfo): (e: Env)
      ensures info.Constructor? ==> info.scrutinee in e.symbolTag && e.symbolTag[info.scrutinee] == info.tagId
      ensures info.ListInfo? ==> info.scrutinee in e.listLength && e.listLength[info.scrutinee] == info.len
      ensures forall s | s in symbolTag && !(info.Constructor? && s == info.scrutinee) ::
        s in e.symbolTag && e.symbolTag[s] == symbolTag[s]
      ensures forall s | s in listLength && !(info.ListInfo? && s == info.scrutinee) ::
        s in e.listLength && e.listLength[s] == listLength[s]
      ensures e.(symbolTag := symbolTag, listLength := listLength) == this
    {
      match info
      case NoInfo => this
      case Constructor(s, t) => this.(symbolTag := symbolTag[s := t])
      case ListInfo(s, n) => this.(listLength := listLength[s := n])
    }
  }

  /** Giving back no reservation changes nothing. */
  lemma AddBackNothing(e: Env)
    ensures e.AddBack({}) == e
  {
    assert e.AddBack({}).incrementedSymbols == e.incrementedSymbols;
  }

  lemma PushExtends<T>(m: map<Symbol, seq<T>>, parent: Symbol, x: T)
    ensures Extends(m, Push(m, parent, x))
  {
  }

  lemma GrowsTrans(a: Env, b: Env, c: Env)
    requires a.GrowsInto(b) && b.GrowsInto(c)
    ensures a.GrowsInto(c)
  {
  }

  lemma AddBackOne(e: Env, done: set<Symbol>, c: Symbol)
    requires c !in done
    ensures e.AddBack(done).AddIncremented(c, 1) == e.AddBack(done + {c})
  {
    var l := e.AddBack(done).AddIncremented(c, 1);
    var r := e.AddBack(done + {c});
    assert l.incrementedSymbols.Keys == r.incrementedSymbols.Keys;
    forall t | t in l.incrementedSymbols ensures l.incrementedSymbols[t] == r.incrementedSymbols[t] {
      assert l.Count(t) == r.Count(t);
    }
    assert l.incrementedSymbols == r.incrementedSymbols;
  }

  /** Popping distinct children takes exactly one reservation from each child
      that had one, collects exactly those, and leaves every other count alone. */
  lemma PopChildrenEffect(e: Env, cs: seq<Symbol>, acc: set<Symbol>)
    requires e.PositiveCounts()
    requires forall i, j | 0 <= i < j < |cs| :: cs[i] != cs[j]
    requires forall c | c in cs :: c !in acc
    ensures e.PopChildren(cs, acc).0 == acc + set c | c in cs && c in e.incrementedSymbols
    ensures forall t :: e.PopChildren(cs, acc).1.Count(t) == e.Count(t) - (if t in cs && t in e.incrementedSymbols then 1 else 0)
  {
    PopChildrenPopped(e, cs, acc);
    PopChildrenCounts(e, cs, acc);
  }

  /** The tail of a duplicate-free sequence is duplicate-free and misses its head. */
  lemma DistinctTail(cs: seq<Symbol>)
    requires cs != []
    requires forall i, j | 0 <= i < j < |cs| :: cs[i] != cs[j]
    ensures forall i, j | 0 <= i < j < |cs[1..]| :: cs[1..][i] != cs[1..][j]
    ensures cs[0] !in cs[1..]
    ensures forall c :: c in cs <==> c == cs[0] || c in cs[1..]
  {
    forall i, j | 0 <= i < j < |cs[1..]| ensures cs[1..][i] != cs[1..][j] {
      assert cs[i + 1] != cs[j + 1];
    }
    assert cs == [cs[0]] + cs[1..];
  }

  lemma {:induction false} PopChildrenPopped(e: Env, cs: seq<Symbol>, acc: set<Symbol>)
    requires forall i, j | 0 <= i < j < |cs| :: cs[i] != cs[j]
    requires forall c | c in cs :: c !in acc
    ensures e.PopChildren(cs, acc).0 == acc + set c | c in cs && c in e.incrementedSymbols
    decreases |cs|
  {
    if cs != [] {
      DistinctTail(cs);
      var e1 := e.PopIncremented(cs[0]).1;
      var acc1 := if cs[0] in e.incrementedSymbols then acc + {cs[0]} else acc;
      assert e.PopChildren(cs, acc) == e1.PopChildren(cs[1..], acc1);
      PopChildrenPopped(e1, cs[1..], acc1);
      assert forall c | c in cs[1..] :: c in e1.incrementedSymbols <==> c in e.incrementedSymbols;
    }
  }

  lemma {:induction false} PopChildrenCounts(e: Env, cs: seq<Symbol>, acc: set<Symbol>)
    requires e.PositiveCounts()
    requires forall i, j | 0 <= i < j < |cs| :: cs[i] != cs[j]
    ensures forall t :: e.PopChildren(cs, acc).1.Count(t) == e.Count(t) - (if t in cs && t in e.incrementedSymbols then 1 else 0)
    decreases |cs|
  {
    if cs != [] {
      DistinctTail(cs);
      var e1 := e.PopIncremented(cs[0]).1;
      var acc1 := if cs[0] in e.incrementedSymbols then acc + {cs[0]} else acc;
      assert e.PopChildren(cs, acc).1 == e1.PopChildren(cs[1..], acc1).1;
      PopChildrenCounts(e1, cs[1..], acc1);
      forall t ensures e.PopChildren(cs, acc).1.Count(t) == e.Count(t) - (if t in cs && t in e.incrementedSymbols then 1 else 0) {
        if t == cs[0] && t in e.incrementedSymbols {
          assert e.Count(t) >= 1;
        }
      }
    }
  }

  /** The fresh-identifier allocator of the module being compiled. */
  class IdentIds {
    var next: nat

    constructor (next: nat)
      ensures this.next == next
    {
      this.next := next;
    }

    method Add() returns (id: nat)
      modifies this
      ensures id == old(next) && next == old(next) + 1
    {
      id := next;
      next := next + 1;
    }
  }

  class DropSpecializationEnvironment {
    /** The layout the procedure returns, given to the uniqueness switch. */
    const layout: InLayout
    var symbolLayouts: map<Symbol, InLayout>
    var structChildren: map<Symbol, seq<IndexedChild>>
    var unionChildren: map<Symbol, seq<UnionChild>>
    var boxChildren: map<Symbol, seq<Symbol>>
    var listChildren: map<Symbol, seq<IndexedChild>>
    var incrementedSymbols: map<Symbol, nat>
    var symbolTag: map<Symbol, Tag>
    var symbolIndex: map<Symbol, Index>
    var listLength: map<Symbol, nat>

    function Snapshot(): Env
      reads this
    {
      Env(layout, symbolLayouts, structChildren, unionChildren, boxChildren, listChildren,
          incrementedSymbols, symbolTag, symbolIndex, listLength)
    }

    constructor (layout: InLayout)
      ensures Snapshot() == Env.Empty(layout)
    {
      this.layout := layout;
      symbolLayouts, structChildren, unionChildren, boxChildren, listChildren := map[], map[], map[], map[], map[];
      incrementedSymbols, symbolTag, symbolIndex, listLength := map[], map[], map[], map[];
    }

    constructor Copy(e: Env)
      ensures Snapshot() == e
    {
      layout := e.layout;
      symbolLayouts, structChildren, unionChildren := e.symbolLayouts, e.structChildren, e.unionChildren;
      boxChildren, listChildren, incrementedSymbols := e.boxChildren, e.listChildren, e.incrementedSymbols;
      symbolTag, symbolIndex, listLength := e.symbolTag, e.symbolIndex, e.listLength;
    }

    /** A fresh environment with every fact copied and no reservation. */
    method CloneWithoutIncremented() returns (e: DropSpecializationEnvironment)
      ensures fresh(e) && e.Snapshot() == Snapshot().WithoutIncremented()
    {
      e := new DropSpecializationEnvironment.Copy(Snapshot().(incrementedSymbols := map[]));
    }

    method CreateSymbol(ids: IdentIds) returns (s: Symbol)
      modifies ids
      ensures s == old(ids.next) && ids.next == old(ids.next) + 1
    {
      s := ids.Add();
    }

    method AddSymbolLayout(s: Symbol, l: InLayout)
      modifies this
      ensures Snapshot() == old(Snapshot()).AddSymbolLayout(s, l)
    {
      symbolLayouts := symbolLayouts[s := l];
    }

    method GetSymbolLayout(s: Symbol) returns (r: Result<InLayout>)
      ensures r == Snapshot().GetSymbolLayout(s)
    {
      if s in symbolLayouts {
        r := Ok(symbolLayouts[s]);
      } else {
        r := Err(MissingSymbolLayout(s));
      }
    }

    method AddStructChild(parent: Symbol, child: Symbol, index: Index)
      modifies this
      ensures Snapshot() == old(Snapshot()).AddStructChild(parent, child, index)
    {
      var existing := if parent in structChildren then structChildren[parent] else [];
      structChildren := structChildren[parent := existing + [IndexedChild(child, index)]];
    }

    method AddUnionChild(parent: Symbol, child: Symbol, tag: Tag, index: Index)
      modifies this
      ensures Snapshot() == old(Snapshot()).AddUnionChild(parent, child, tag, index)
    {
      var existing := if parent in unionChildren then unionChildren[parent] else [];
      unionChildren := unionChildren[parent := existing + [UnionChild(child, tag, index)]];
    }

    method AddBoxChild(parent: Symbol, child: Symbol)
      modifies this
      ensures Snapshot() == old(Snapshot()).AddBoxChild(parent, child)
    {
      var existing := if parent in boxChildren then boxChildren[parent] else [];
      boxChildren := boxChildren[parent := existing + [child]];
    }

    method AddListChild(parent: Symbol, child: Symbol, index: Symbol)
      modifies this
      ensures Snapshot() == old(Snapshot()).AddListChild(parent, child, index)
    {
      if index in symbolIndex {
        var existing := if parent in listChildren then listChildren[parent] else [];
        listChildren := listChildren[parent := existing + [IndexedChild(child, symbolIndex[index])]];
      }
    }

    method GetChildren(parent: Symbol) returns (r: seq<Symbol>)
      ensures r == Snapshot().GetChildren(parent)
    {
      r := [];
      if parent in structChildren {
        r := r + IndexedChildren(structChildren[parent]);
      }
      assert r == IndexedChildren(Registered(structChildren, parent));
      if parent in unionChildren {
        r := r + UnionChildren(unionChildren[parent]);
      }
      assert r == IndexedChildren(Registered(structChildren, parent)) + UnionChildren(Registered(unionChildren, parent));
      if parent in boxChildren {
        r := r + boxChildren[parent];
      }
      assert r == IndexedChildren(Registered(structChildren, parent)) + UnionChildren(Registered(unionChildren, parent))
                  + Registered(boxChildren, parent);
      if parent in listChildren {
        r := r + IndexedChildren(listChildren[parent]);
      }
    }

    method AddIncremented(s: Symbol, count: nat)
      modifies this
      ensures Snapshot() == old(Snapshot()).AddIncremented(s, count)
    {
      if s in incrementedSymbols {
        incrementedSymbols := incrementedSymbols[s := incrementedSymbols[s] + count];
      } else {
        incrementedSymbols := incrementedSymbols[s := count];
      }
    }

    method AnyIncremented(s: Symbol) returns (b: bool)
      ensures b <==> s in Snapshot().incrementedSymbols
    {
      b := s in incrementedSymbols;
    }

    method GetIncremented(s: Symbol) returns (n: nat)
      modifies this
      ensures (n, Snapshot()) == old(Snapshot()).GetIncremented(s)
    {
      n := if s in incrementedSymbols then incrementedSymbols[s] else 0;
      incrementedSymbols := incrementedSymbols - {s};
    }

    method PopIncremented(s: Symbol) returns (b: bool)
      modifies this
      ensures (b, Snapshot()) == old(Snapshot()).PopIncremented(s)
    {
      if s !in incrementedSymbols {
        b := false;
      } else if incrementedSymbols[s] == 1 {
        incrementedSymbols := incrementedSymbols - {s};
        b := true;
      } else {
        var c := incrementedSymbols[s];
        incrementedSymbols := incrementedSymbols[s := if c == 0 then U64_MAX else c - 1];
        b := true;
      }
    }
  }
}
