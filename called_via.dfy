/** The binary operators of the surface language and their three lookup
    tables: precedence, associativity and display string. Each table is
    written as a list of (operator, value) pairs in operator order and turned
    into an array indexed by the operator's discriminant by a loop; the
    lookups read that array, and operators are ordered by precedence alone. */
module CalledVia {

  /** The operators, from highest to lowest precedence; the last four never
      reach the lookups. */
  datatype BinOp =
    | Caret | Star | Slash | DoubleSlash | Percent | Plus | Minus | Pizza
    | Equals | NotEquals | LessThan | GreaterThan | LessThanOrEq | GreaterThanOrEq
    | And | Or
    | Assignment | IsAliasType | IsOpaqueType | Backpassing

  datatype Associativity = LeftAssociative | RightAssociative | NonAssociative

  datatype Ordering = Less | Equal | Greater

  newtype u8 = x: int | 0 <= x < 0x100
  newtype u16 = x: int | 0 <= x < 0x1_0000

  /** The number of operators, the length of every table. */
  const OP_COUNT: nat := 20

  /** `op as usize`: the operator's position in the declaration. */
  function Discriminant(op: BinOp): (n: nat)
    ensures n < OP_COUNT
  {
    match op
    case Caret => 0
    case Star => 1
    case Slash => 2
    case DoubleSlash => 3
    case Percent => 4
    case Plus => 5
    case Minus => 6
    case Pizza => 7
    case Equals => 8
    case NotEquals => 9
    case LessThan => 10
    case GreaterThan => 11
    case LessThanOrEq => 12
    case GreaterThanOrEq => 13
    case And => 14
    case Or => 15
    case Assignment => 16
    case IsAliasType => 17
    case IsOpaqueType => 18
    case Backpassing => 19
  }

  /** The operator at a table position. */
  function OpAt(n: nat): (op: BinOp)
    requires n < OP_COUNT
    ensures Discriminant(op) == n
  {
    match n
    case 0 => Caret
    case 1 => Star
    case 2 => Slash
    case 3 => DoubleSlash
    case 4 => Percent
    case 5 => Plus
    case 6 => Minus
    case 7 => Pizza
    case 8 => Equals
    case 9 => NotEquals
    case 10 => LessThan
    case 11 => GreaterThan
    case 12 => LessThanOrEq
    case 13 => GreaterThanOrEq
    case 14 => And
    case 15 => Or
    case 16 => Assignment
    case 17 => IsAliasType
    case 18 => IsOpaqueType
    case _ => Backpassing
  }

  /** Distinct operators have distinct discriminants: each table slot belongs to one operator. */
  lemma DiscriminantInjective(a: BinOp, b: BinOp)
    ensures Discriminant(a) == Discriminant(b) <==> a == b
  {
    OpAtDiscriminant(a);
    OpAtDiscriminant(b);
  }

  /** The operator at an operator's own position is that operator. */
  lemma OpAtDiscriminant(op: BinOp)
    ensures OpAt(Discriminant(op)) == op
  {
    match op
    case Caret => case Star => case Slash => case DoubleSlash => case Percent =>
    case Plus => case Minus => case Pizza => case Equals => case NotEquals =>
    case LessThan => case GreaterThan => case LessThanOrEq => case GreaterThanOrEq =>
    case And => case Or => case Assignment => case IsAliasType => case IsOpaqueType => case Backpassing =>
  }

  /** The operators the lookups accept: all but the four that never come up. */
  predicate Usable(op: BinOp) {
    !(op.Assignment? || op.IsAliasType? || op.IsOpaqueType? || op.Backpassing?)
  }

  const PRECEDENCES: seq<(BinOp, u8)> := [
    (Caret, 7), (Star, 6), (Slash, 6), (DoubleSlash, 5), (Percent, 5),
    (Plus, 4), (Minus, 4), (Pizza, 3), (Equals, 2), (NotEquals, 2),
    (LessThan, 1), (GreaterThan, 1), (LessThanOrEq, 1), (GreaterThanOrEq, 1),
    (And, 0), (Or, 0),
    (Assignment, 255), (IsAliasType, 255), (IsOpaqueType, 255), (Backpassing, 255)]

  const ASSOCIATIVITIES: seq<(BinOp, Associativity)> := [
    (Caret, RightAssociative), (Star, LeftAssociative), (Slash, LeftAssociative),
    (DoubleSlash, LeftAssociative), (Percent, LeftAssociative), (Plus, LeftAssociative),
    (Minus, LeftAssociative), (Pizza, LeftAssociative), (Equals, NonAssociative),
    (NotEquals, NonAssociative), (LessThan, NonAssociative), (GreaterThan, NonAssociative),
    (LessThanOrEq, NonAssociative), (GreaterThanOrEq, NonAssociative),
    (And, RightAssociative), (Or, RightAssociative),
    (Assignment, LeftAssociative), (IsAliasType, LeftAssociative),
    (IsOpaqueType, LeftAssociative), (Backpassing, LeftAssociative)]

  const DISPLAY_STRINGS: seq<(BinOp, string)> := [
    (Caret, "^"), (Star, "*"), (Slash, "/"), (DoubleSlash, "//"), (Percent, "%"),
    (Plus, "+"), (Minus, "-"), (Pizza, "|>"), (Equals, "=="), (NotEquals, "!="),
    (LessThan, "<"), (GreaterThan, ">"), (LessThanOrEq, "<="), (GreaterThanOrEq, ">="),
    (And, "&&"), (Or, "||"),
    (Assignment, "="), (IsAliasType, ":"), (IsOpaqueType, ":="), (Backpassing, "<-")]

  /** Entry `i` of each pair list names the operator whose discriminant is `i`. */
  lemma PrecedencesIndexed()
    ensures |PRECEDENCES| == OP_COUNT
    ensures forall i | 0 <= i < OP_COUNT :: Discriminant(PRECEDENCES[i].0) == i
  {
  }

  lemma AssociativitiesIndexed()
    ensures |ASSOCIATIVITIES| == OP_COUNT
    ensures forall i | 0 <= i < OP_COUNT :: Discriminant(ASSOCIATIVITIES[i].0) == i
  {
  }

  lemma DisplayStringsIndexed()
    ensures |DISPLAY_STRINGS| == OP_COUNT
    ensures forall i | 0 <= i < OP_COUNT :: Discriminant(DISPLAY_STRINGS[i].0) == i
  {
  }

  /** The value the table-filling loop leaves for `op` after the pairs
      `entries`: that of the last pair naming `op`, or the initial value. */
  function LastPaired<V>(entries: seq<(BinOp, V)>, op: BinOp, initial: V): V
    decreases |entries|
  {
    if entries == [] then initial
    else if entries[|entries| - 1].0 == op then entries[|entries| - 1].1
    else LastPaired(entries[..|entries| - 1], op, initial)
  }

  /** In a pair list indexed by discriminant, the value paired with `op` is at position `Discriminant(op)`. */
  lemma {:induction false} LastPairedIndexed<V>(entries: seq<(BinOp, V)>, op: BinOp, initial: V)
    requires forall i | 0 <= i < |entries| :: Discriminant(entries[i].0) == i
    requires Discriminant(op) < |entries|
    ensures LastPaired(entries, op, initial) == entries[Discriminant(op)].1
    decreases |entries|
  {
    var last := |entries| - 1;
    DiscriminantInjective(entries[last].0, op);
    if entries[last].0 != op {
      LastPairedIndexed(entries[..last], op, initial);
    }
  }

  /** The table the loop fills: slot `j` holds the value last paired with the operator at `j`. */
  function Table<V>(entries: seq<(BinOp, V)>, initial: V): (t: seq<V>)
    ensures |t| == OP_COUNT
  {
    seq(OP_COUNT, j requires 0 <= j < OP_COUNT => LastPaired(entries, OpAt(j), initial))
  }

  /** A table built from a pair list indexed by discriminant holds each pair's value at its operator's slot. */
  lemma TableIndexed<V>(entries: seq<(BinOp, V)>, initial: V)
    requires |entries| == OP_COUNT
    requires forall i | 0 <= i < |entries| :: Discriminant(entries[i].0) == i
    ensures forall op :: Table(entries, initial)[Discriminant(op)] == entries[Discriminant(op)].1
  {
    forall op ensures Table(entries, initial)[Discriminant(op)] == entries[Discriminant(op)].1 {
      DiscriminantInjective(OpAt(Discriminant(op)), op);
      LastPairedIndexed(entries, op, initial);
    }
  }

  /** The loop shared by the three `generate_*_table` functions: a table of
      `initial`, then `table[op as usize] = value` for each pair in order. */
  method GenerateTable<V>(entries: seq<(BinOp, V)>, initial: V) returns (table: array<V>)
    ensures fresh(table)
    ensures table[..] == Table(entries, initial)
    // Every operator's slot holds the value the pairs give it.
    ensures forall op :: table[Discriminant(op)] == LastPaired(entries, op, initial)
  {
    table := new V[OP_COUNT](_ => initial);
    var i := 0;
    while i < |entries|
      invariant 0 <= i <= |entries|
      invariant table[..] == Table(entries[..i], initial)
    {
      var op := entries[i].0;
      ghost var before := table[..];
      table[Discriminant(op)] := entries[i].1;
      assert entries[..i + 1][..i] == entries[..i];
      forall j | 0 <= j < OP_COUNT ensures table[j] == Table(entries[..i + 1], initial)[j] {
        DiscriminantInjective(op, OpAt(j));
      }
      i := i + 1;
    }
    assert entries[..i] == entries;
    forall op ensures table[Discriminant(op)] == LastPaired(entries, op, initial) {
      assert OpAt(Discriminant(op)) == op by {
        DiscriminantInjective(OpAt(Discriminant(op)), op);
      }
    }
  }

  /** `generate_precedence_table`. */
  method GeneratePrecedenceTable() returns (table: array<u8>)
    ensures fresh(table)
    ensures table[..] == PrecedenceTable()
    ensures forall op | Usable(op) :: table[Discriminant(op)] == Precedence(op)
  {
    table := GenerateTable(PRECEDENCES, 0);
  }

  /** `generate_associativity_table`. */
  method GenerateAssociativityTable() returns (table: array<Associativity>)
    ensures fresh(table)
    ensures table[..] == AssociativityTable()
    ensures forall op | Usable(op) :: table[Discriminant(op)] == GetAssociativity(op)
  {
    table := GenerateTable(ASSOCIATIVITIES, NonAssociative);
  }

  /** `generate_display_table`. */
  method GenerateDisplayTable() returns (table: array<string>)
    ensures fresh(table)
    ensures table[..] == DisplayTable()
    ensures forall op | Usable(op) :: table[Discriminant(op)] == Display(op)
  {
    table := GenerateTable(DISPLAY_STRINGS, "");
  }

  /** The constant tables the lookups read. */
  function PrecedenceTable(): (t: seq<u8>)
    ensures |t| == OP_COUNT
    ensures forall op :: t[Discriminant(op)] == PRECEDENCES[Discriminant(op)].1
  {
    PrecedencesIndexed();
    TableIndexed(PRECEDENCES, 0);
    Table(PRECEDENCES, 0)
  }

  function AssociativityTable(): (t: seq<Associativity>)
    ensures |t| == OP_COUNT
    ensures forall op :: t[Discriminant(op)] == ASSOCIATIVITIES[Discriminant(op)].1
  {
    AssociativitiesIndexed();
    TableIndexed(ASSOCIATIVITIES, NonAssociative);
    Table(ASSOCIATIVITIES, NonAssociative)
  }

  function DisplayTable(): (t: seq<string>)
    ensures |t| == OP_COUNT
    ensures forall op :: t[Discriminant(op)] == DISPLAY_STRINGS[Discriminant(op)].1
  {
    DisplayStringsIndexed();
    TableIndexed(DISPLAY_STRINGS, "");
    Table(DISPLAY_STRINGS, "")
  }

  /** `precedence`: the table slot of the operator. */
  function Precedence(op: BinOp): (p: u8)
    requires Usable(op)
    ensures p == PRECEDENCES[Discriminant(op)].1
    ensures p <= 7
  {
    PrecedencesLevels();
    PrecedenceTable()[Discriminant(op)]
  }

  /** `associativity`: the table slot of the operator. */
  function GetAssociativity(op: BinOp): (a: Associativity)
    requires Usable(op)
    ensures a == ASSOCIATIVITIES[Discriminant(op)].1
  {
    AssociativityTable()[Discriminant(op)]
  }

  /** The text `fmt` writes for the operator: the table slot of the operator. */
  function Display(op: BinOp): (s: string)
    requires Usable(op)
    ensures s == DISPLAY_STRINGS[Discriminant(op)].1
    ensures s != []
  {
    DisplayStringLengths();
    DisplayTable()[Discriminant(op)]
  }

  /** `width`: how many characters the operator takes when typed out. */
  function Width(op: BinOp): (w: u16)
    requires Usable(op)
    ensures w == 1 || w == 2
  {
    match op
    case Caret | Star | Slash | Percent | Plus | Minus | LessThan | GreaterThan => 1
    case DoubleSlash | Equals | NotEquals | LessThanOrEq | GreaterThanOrEq | And | Or | Pizza => 2
  }

  /** The display strings of the usable positions: one character, except
      the two-character ones. */
  lemma DisplayStringLengths()
    ensures forall i | 0 <= i < 16 :: |DISPLAY_STRINGS[i].1| == if i in {3, 7, 8, 9, 12, 13, 14, 15} then 2 else 1
  {
  }

  /** The width of an operator is the length of the text it is displayed as. */
  lemma WidthIsDisplayLength(op: BinOp)
    requires Usable(op)
    ensures Width(op) as int == |Display(op)|
  {
    DisplayStringLengths();
    match op
    case Caret => case Star => case Slash => case DoubleSlash => case Percent =>
    case Plus => case Minus => case Pizza => case Equals => case NotEquals =>
    case LessThan => case GreaterThan => case LessThanOrEq => case GreaterThanOrEq =>
    case And => case Or =>
  }

  /** `cmp`: operators compare by precedence and nothing else. */
  function Cmp(a: BinOp, b: BinOp): (o: Ordering)
    requires Usable(a) && Usable(b)
    ensures o == Less <==> Precedence(a) < Precedence(b)
    ensures o == Equal <==> Precedence(a) == Precedence(b)
    ensures o == Greater <==> Precedence(a) > Precedence(b)
  {
    var p, q := Precedence(a), Precedence(b);
    if p < q then Less else if p == q then Equal else Greater
  }

  /** The ordering is a total preorder: reflexive, total with consistent
      reversal, and transitive. */
  lemma CmpTotalPreorder(a: BinOp, b: BinOp, c: BinOp)
    requires Usable(a) && Usable(b) && Usable(c)
    ensures Cmp(a, a) == Equal
    ensures Cmp(a, b) == Less <==> Cmp(b, a) == Greater
    ensures Cmp(a, b) == Equal <==> Cmp(b, a) == Equal
    ensures Cmp(a, b) != Greater && Cmp(b, c) != Greater ==> Cmp(a, c) != Greater
  {
  }

  /** It is not antisymmetric: distinct operators of the same precedence compare equal. */
  lemma CmpNotAntisymmetric()
    ensures Star != Slash && Cmp(Star, Slash) == Equal
    ensures Plus != Minus && Cmp(Plus, Minus) == Equal
    ensures And != Or && Cmp(And, Or) == Equal
  {
    PrecedencesLevels();
  }

  /** The precedence level of the operator declared at position `n`,
      written as ranges of positions. */
  function LevelAt(n: nat): u8
    requires n < 16
  {
    if n == 0 then 7
    else if n <= 2 then 6
    else if n <= 4 then 5
    else if n <= 6 then 4
    else if n == 7 then 3
    else if n <= 9 then 2
    else if n <= 13 then 1
    else 0
  }

  lemma LevelAtNonIncreasing(m: nat, n: nat)
    requires m <= n < 16
    ensures LevelAt(m) >= LevelAt(n)
  {
  }

  /** The pair list gives every usable position its level. */
  lemma PrecedencesLevels()
    ensures forall i | 0 <= i < 16 :: PRECEDENCES[i].1 == LevelAt(i)
  {
  }

  /** The table gives every usable operator the level of its position. */
  lemma PrecedenceByPosition(op: BinOp)
    requires Usable(op)
    ensures Discriminant(op) < 16
    ensures Precedence(op) == LevelAt(Discriminant(op))
  {
    PrecedencesLevels();
  }

  /** Operators declared later never bind tighter: precedence falls from
      `Caret` at 7 to `And` and `Or` at 0. */
  lemma PrecedenceNonIncreasing(a: BinOp, b: BinOp)
    requires Usable(a) && Usable(b)
    requires Discriminant(a) <= Discriminant(b)
    ensures Precedence(a) >= Precedence(b)
    ensures Precedence(Caret) == 7 && Precedence(And) == 0 && Precedence(Or) == 0
  {
    PrecedenceByPosition(a);
    PrecedenceByPosition(b);
    LevelAtNonIncreasing(Discriminant(a), Discriminant(b));
    PrecedenceByPosition(Caret);
    PrecedenceByPosition(And);
    PrecedenceByPosition(Or);
  }

  /** The usable operators in order of binding strength, as the parser needs them. */
  lemma PrecedenceLevels(op: BinOp)
    requires Usable(op)
    ensures Precedence(op) == 7 <==> op == Caret
    ensures Precedence(op) == 6 <==> op in {Star, Slash}
    ensures Precedence(op) == 5 <==> op in {DoubleSlash, Percent}
    ensures Precedence(op) == 4 <==> op in {Plus, Minus}
    ensures Precedence(op) == 3 <==> op == Pizza
    ensures Precedence(op) == 2 <==> op in {Equals, NotEquals}
    ensures Precedence(op) == 1 <==> op in {LessThan, GreaterThan, LessThanOrEq, GreaterThanOrEq}
    ensures Precedence(op) == 0 <==> op in {And, Or}
  {
    PrecedenceByPosition(op);
  }

  /** The pair list's associativities by position: 0, 14 and 15 group
      right, 8 to 13 not at all, the rest left. */
  lemma AssociativitiesGrouping()
    ensures forall i | 0 <= i < 16 ::
      ASSOCIATIVITIES[i].1 == (if i == 0 || 14 <= i then RightAssociative
                               else if 8 <= i then NonAssociative else LeftAssociative)
  {
  }

  /** Exponentiation and the boolean operators group to the right, the
      comparisons not at all, arithmetic and `|>` to the left. */
  lemma AssociativityClasses(op: BinOp)
    requires Usable(op)
    ensures GetAssociativity(op) == RightAssociative <==> op in {Caret, And, Or}
    ensures GetAssociativity(op) == NonAssociative <==>
      op in {Equals, NotEquals, LessThan, GreaterThan, LessThanOrEq, GreaterThanOrEq}
    ensures GetAssociativity(op) == LeftAssociative <==>
      op in {Star, Slash, DoubleSlash, Percent, Plus, Minus, Pizza}
  {
    AssociativitiesGrouping();
    match op
    case Caret => case Star => case Slash => case DoubleSlash => case Percent =>
    case Plus => case Minus => case Pizza => case Equals => case NotEquals =>
    case LessThan => case GreaterThan => case LessThanOrEq => case GreaterThanOrEq =>
    case And => case Or =>
  }

  /** Operators of one precedence level share their associativity, so a
      chain of equal-precedence operators groups one way. */
  lemma SameLevelSameAssociativity(a: BinOp, b: BinOp)
    requires Usable(a) && Usable(b)
    requires Cmp(a, b) == Equal
    ensures GetAssociativity(a) == GetAssociativity(b)
  {
    PrecedenceLevels(a);
    PrecedenceLevels(b);
    AssociativityClasses(a);
    AssociativityClasses(b);
  }
}
