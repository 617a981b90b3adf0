/**
 * The two operator enumerations of the relation language. Each member's
 * textual token is its enum value; applying a member to operands is a
 * `match` here where the source builds `str(a) + token + str(b)` and
 * evaluates it.
 */
module Operators {
  import opened Wrappers

  /** The unary modifiers put in front of a triplet: negation or nothing. */
  datatype UnaryRelation = UnaryNot | UnaryNeutral

  /** Six comparisons and three logical connectives. */
  datatype BinaryRelation =
    | Equal | LessThan | GreaterThan | LessThanOrEqual | GreaterThanOrEqual | NotEqual
    | LogicOr | LogicAnd | LogicXor
  {
    predicate IsComparison()
    {
      !IsConnective()
    }

    predicate IsConnective()
    {
      this == LogicOr || this == LogicAnd || this == LogicXor
    }
  }

  /** The enum value (and `__str__`) of a unary member. */
  function UnaryToken(u: UnaryRelation): string
  {
    match u
    case UnaryNot => " not "
    case UnaryNeutral => " "
  }

  /** The enum value (and `__str__`) of a binary member. */
  function BinaryToken(op: BinaryRelation): string
  {
    match op
    case Equal => " == "
    case LessThan => " < "
    case GreaterThan => " > "
    case LessThanOrEqual => " <= "
    case GreaterThanOrEqual => " >= "
    case NotEqual => " != "
    case LogicOr => " or "
    case LogicAnd => " and "
    case LogicXor => " ^ "
  }

  /** `UnaryRelation(s)`: the member whose value is `s`; None when the enum constructor raises. */
  function ParseUnary(s: string): (r: Option<UnaryRelation>)
    ensures r.Some? ==> UnaryToken(r.value) == s
    ensures r.None? ==> UnaryToken(UnaryNot) != s && UnaryToken(UnaryNeutral) != s
  {
    if s == " not " then Some(UnaryNot)
    else if s == " " then Some(UnaryNeutral)
    else None
  }

  /** `BinaryRelation(s)`: the member whose value is `s`; None when the enum constructor raises. */
  function ParseBinary(s: string): (r: Option<BinaryRelation>)
    ensures r.Some? ==> BinaryToken(r.value) == s
    ensures r.None? ==> forall op: BinaryRelation :: BinaryToken(op) != s
  {
    if s == " == " then Some(Equal)
    else if s == " < " then Some(LessThan)
    else if s == " > " then Some(GreaterThan)
    else if s == " <= " then Some(LessThanOrEqual)
    else if s == " >= " then Some(GreaterThanOrEqual)
    else if s == " != " then Some(NotEqual)
    else if s == " or " then Some(LogicOr)
    else if s == " and " then Some(LogicAnd)
    else if s == " ^ " then Some(LogicXor)
    else None
  }

  /** Every token parses back to its own member, so the tokens are pairwise distinct. */
  lemma TokensRoundTrip(u: UnaryRelation, op: BinaryRelation)
    ensures ParseUnary(UnaryToken(u)) == Some(u)
    ensures ParseBinary(BinaryToken(op)) == Some(op)
  {
  }

  lemma {:induction false} TokensInjective(u1: UnaryRelation, u2: UnaryRelation, op1: BinaryRelation, op2: BinaryRelation)
    ensures UnaryToken(u1) == UnaryToken(u2) ==> u1 == u2
    ensures BinaryToken(op1) == BinaryToken(op2) ==> op1 == op2
  {
    TokensRoundTrip(u1, op1);
    TokensRoundTrip(u2, op2);
  }

  /** Every binary token is set off by a space on each side. */
  lemma TokenSpaced(op: BinaryRelation)
    ensures BinaryToken(op) != [] && BinaryToken(op)[0] == ' ' && BinaryToken(op)[|BinaryToken(op)| - 1] == ' '
  {
  }

  /** Tokens hold none of the characters that delimit the serialised format. */
  lemma TokensFreeOfDelimiters(u: UnaryRelation, op: BinaryRelation)
    ensures '$' !in UnaryToken(u) && '@' !in UnaryToken(u) && '|' !in UnaryToken(u) && ',' !in UnaryToken(u)
    ensures '$' !in BinaryToken(op) && '@' !in BinaryToken(op) && '|' !in BinaryToken(op) && ',' !in BinaryToken(op)
  {
  }

  /** `apply_unary_relation`: negation or identity. */
  function ApplyUnary(u: UnaryRelation, argument: bool): (r: bool)
    ensures u == UnaryNot ==> r == !argument
    ensures u == UnaryNeutral ==> r == argument
  {
    if u == UnaryNot then !argument else argument
  }

  lemma NotIsInvolution(b: bool)
    ensures ApplyUnary(UnaryNot, ApplyUnary(UnaryNot, b)) == b
  {
  }

  /** An operand of a binary relation: the source passes ints and bools. */
  datatype Value = Int(i: int) | Bool(b: bool)

  /** Python's numeric view of an operand: `True` is 1 and `False` is 0. */
  function Numeric(v: Value): int
  {
    match v
    case Int(i) => i
    case Bool(b) => if b then 1 else 0
  }

  /**
   * `apply_binary_relation`: the comparisons compare the numeric views of
   * their operands (as Python compares ints and bools); the connectives
   * take two bools.
   */
  function ApplyBinary(op: BinaryRelation, a: Value, b: Value): bool
    requires op.IsConnective() ==> a.Bool? && b.Bool?
  {
    match op
    case Equal => Numeric(a) == Numeric(b)
    case LessThan => Numeric(a) < Numeric(b)
    case GreaterThan => Numeric(a) > Numeric(b)
    case LessThanOrEqual => Numeric(a) <= Numeric(b)
    case GreaterThanOrEqual => Numeric(a) >= Numeric(b)
    case NotEqual => Numeric(a) != Numeric(b)
    case LogicOr => a.b || b.b
    case LogicAnd => a.b && b.b
    case LogicXor => a.b != b.b
  }

  /** On two ints the comparisons are the integer comparisons. */
  lemma ComparisonsOnInts(x: int, y: int)
    ensures ApplyBinary(Equal, Int(x), Int(y)) == (x == y)
    ensures ApplyBinary(LessThan, Int(x), Int(y)) == (x < y)
    ensures ApplyBinary(GreaterThan, Int(x), Int(y)) == (x > y)
    ensures ApplyBinary(LessThanOrEqual, Int(x), Int(y)) == (x <= y)
    ensures ApplyBinary(GreaterThanOrEqual, Int(x), Int(y)) == (x >= y)
    ensures ApplyBinary(NotEqual, Int(x), Int(y)) == (x != y)
  {
  }

  /** On two bools the connectives are or, and and exclusive or. */
  lemma ConnectivesOnBools(p: bool, q: bool)
    ensures ApplyBinary(LogicOr, Bool(p), Bool(q)) == (p || q)
    ensures ApplyBinary(LogicAnd, Bool(p), Bool(q)) == (p && q)
    ensures ApplyBinary(LogicXor, Bool(p), Bool(q)) == (p != q)
  {
  }

  /**
   * Comparisons between two bools follow `False < True`: equality is
   * equivalence, `!=` coincides with `^`, and `<` holds only for `False < True`.
   */
  lemma ComparisonsOnBools(p: bool, q: bool)
    ensures ApplyBinary(Equal, Bool(p), Bool(q)) == (p == q)
    ensures ApplyBinary(NotEqual, Bool(p), Bool(q)) == ApplyBinary(LogicXor, Bool(p), Bool(q))
    ensures ApplyBinary(LessThan, Bool(p), Bool(q)) == (!p && q)
    ensures ApplyBinary(LessThanOrEqual, Bool(p), Bool(q)) == (p ==> q)
  {
  }
}
