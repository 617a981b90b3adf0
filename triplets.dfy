/**
 * `RelationTriplet`: two modifier chains around a comparison. `check`
 * compares the two modified elements; `__str__` shows the triplet as
 * readable text.
 */
module Triplets {
  import opened Wrappers
  import opened Text
  import opened Operators
  import opened Modifiers

  /** The modifiers are kept as the text they were given in, so they re-serialise verbatim. */
  datatype RelationTriplet = RelationTriplet(mod1: string, relation: BinaryRelation, mod2: string)

  /**
   * `check`: both elements modified, then compared. An error in the first
   * modifier is reported before one in the second.
   */
  function Check(t: RelationTriplet, val1: int, val2: int): (r: Result<bool, ModifierError>)
    requires t.relation.IsComparison()
    ensures r.Ok? <==> GetModified(val1, t.mod1).Ok? && GetModified(val2, t.mod2).Ok?
    ensures GetModified(val1, t.mod1).Err? ==> r == Err(GetModified(val1, t.mod1).error)
    ensures GetModified(val1, t.mod1).Ok? && GetModified(val2, t.mod2).Err? ==> r == Err(GetModified(val2, t.mod2).error)
    ensures r.Ok? ==> r.value == ApplyBinary(t.relation, Int(GetModified(val1, t.mod1).value), Int(GetModified(val2, t.mod2).value))
  {
    match GetModified(val1, t.mod1)
    case Err(e) => Err(e)
    case Ok(elem1) =>
      match GetModified(val2, t.mod2)
      case Err(e) => Err(e)
      case Ok(elem2) => Ok(ApplyBinary(t.relation, Int(elem1), Int(elem2)))
  }

  /** With empty modifiers a triplet compares the elements themselves. */
  lemma CheckUnmodified(rel: BinaryRelation, val1: int, val2: int)
    requires rel.IsComparison()
    ensures Check(RelationTriplet("", rel, ""), val1, val2) == Ok(ApplyBinary(rel, Int(val1), Int(val2)))
  {
    EmptyModifier(val1);
    EmptyModifier(val2);
  }

  /** The first triplet of the documented example task on the pair (12, 14): 2 <= 1 fails. */
  lemma ExampleFirstTriplet()
    ensures Check(RelationTriplet("%10%3", LessThanOrEqual, "/10%3"), 12, 14) == Ok(false)
  {
    ExampleChains();
  }

  /** The second triplet of the documented example task on the pair (12, 14): 1 >= 1 holds. */
  lemma ExampleSecondTriplet()
    ensures Check(RelationTriplet("/10%3", GreaterThanOrEqual, "%10%3"), 12, 14) == Ok(true)
  {
    ExampleChains();
  }

  /** `__str__`: the first modifier, the relation's token, the second modifier. */
  function TripletString(t: RelationTriplet): string
  {
    t.mod1 + BinaryToken(t.relation) + t.mod2
  }

  /** The characters a modifier chain is written with. */
  predicate ChainChar(ch: char)
  {
    ch == '%' || ch == '/' || IsDigit(ch)
  }

  lemma {:induction false} ParsedChainChars(s: string)
    requires ParseChain(s).Some?
    ensures forall i :: 0 <= i < |s| ==> ChainChar(s[i])
    decreases |s|
  {
    if s != [] {
      var len := ParseStep(s).value.1;
      ParsedChainChars(s[len..]);
      assert AllDigits(s[1..][..len - 1]);
      forall i | 0 <= i < |s| ensures ChainChar(s[i]) {
        if 1 <= i < len {
          assert s[i] == s[1..][..len - 1][i - 1];
        } else if len <= i {
          assert s[i] == s[len..][i - len];
        }
      }
    }
  }

  /** The index of the first space in `s`, or `|s|`. */
  function FirstSpace(s: string): nat
  {
    if s == [] || s[0] == ' ' then 0 else 1 + FirstSpace(s[1..])
  }

  /** The number of characters after the last space in `s`, or `|s|`. */
  function AfterLastSpace(s: string): nat
  {
    if s == [] || s[|s| - 1] == ' ' then 0 else 1 + AfterLastSpace(s[..|s| - 1])
  }

  lemma {:induction false} FirstSpaceOf(a: string, k: string, b: string)
    requires NoSpace(a)
    requires k != [] && k[0] == ' '
    ensures FirstSpace(a + k + b) == |a|
  {
    if a != [] {
      assert (a + k + b)[0] == a[0];
      assert (a + k + b)[1..] == a[1..] + k + b;
      FirstSpaceOf(a[1..], k, b);
    } else {
      assert (a + k + b)[0] == k[0];
    }
  }

  lemma {:induction false} AfterLastSpaceOf(a: string, k: string, b: string)
    requires NoSpace(b)
    requires k != [] && k[|k| - 1] == ' '
    ensures AfterLastSpace(a + k + b) == |b|
  {
    var s := a + k + b;
    if b != [] {
      assert s[|s| - 1] == b[|b| - 1];
      assert s[..|s| - 1] == a + k + b[..|b| - 1];
      AfterLastSpaceOf(a, k, b[..|b| - 1]);
    } else {
      assert s[|s| - 1] == k[|k| - 1];
    }
  }

  lemma ThreeParts(a: string, k: string, b: string)
    ensures var s := a + k + b;
      s[..|a|] == a && s[|s| - |b|..] == b && s[|a|..|s| - |b|] == k
  {
  }

  /** A chain, a token and a chain are told apart by the token's outer spaces. */
  lemma Decompose(s: string, a: string, k: string, b: string)
    requires s == a + k + b
    requires NoSpace(a) && NoSpace(b)
    requires k != [] && k[0] == ' ' && k[|k| - 1] == ' '
    ensures |a| == FirstSpace(s) && |b| == AfterLastSpace(s)
    ensures a == s[..FirstSpace(s)] && b == s[|s| - AfterLastSpace(s)..]
    ensures k == s[FirstSpace(s)..|s| - AfterLastSpace(s)]
  {
    FirstSpaceOf(a, k, b);
    AfterLastSpaceOf(a, k, b);
    ThreeParts(a, k, b);
  }

  predicate NoSpace(s: string)
  {
    forall i :: 0 <= i < |s| ==> s[i] != ' '
  }

  lemma ChainHasNoSpace(s: string)
    requires ParseChain(s).Some?
    ensures NoSpace(s)
  {
    ParsedChainChars(s);
  }

  lemma PartsInjective(a1: string, k1: string, b1: string, a2: string, k2: string, b2: string)
    requires NoSpace(a1) && NoSpace(b1) && NoSpace(a2) && NoSpace(b2)
    requires k1 != [] && k1[0] == ' ' && k1[|k1| - 1] == ' '
    requires k2 != [] && k2[0] == ' ' && k2[|k2| - 1] == ' '
    requires a1 + k1 + b1 == a2 + k2 + b2
    ensures a1 == a2 && k1 == k2 && b1 == b2
  {
    var s := a1 + k1 + b1;
    Decompose(s, a1, k1, b1);
    Decompose(s, a2, k2, b2);
  }

  /**
   * When both modifiers are modifier chains, the readable text determines
   * the triplet: no chain holds a space, and every token begins and ends
   * with one.
   */
  lemma TripletStringInjective(t1: RelationTriplet, t2: RelationTriplet)
    requires ParseChain(t1.mod1).Some? && ParseChain(t1.mod2).Some?
    requires ParseChain(t2.mod1).Some? && ParseChain(t2.mod2).Some?
    requires TripletString(t1) == TripletString(t2)
    ensures t1 == t2
  {
    ChainHasNoSpace(t1.mod1);
    ChainHasNoSpace(t1.mod2);
    ChainHasNoSpace(t2.mod1);
    ChainHasNoSpace(t2.mod2);
    TokenSpaced(t1.relation);
    TokenSpaced(t2.relation);
    PartsInjective(t1.mod1, BinaryToken(t1.relation), t1.mod2, t2.mod1, BinaryToken(t2.relation), t2.mod2);
    TokensInjective(UnaryNot, UnaryNot, t1.relation, t2.relation);
  }
}
