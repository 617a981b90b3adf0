/**
 * `RelationElement.get_modified`: an element followed by a modifier chain
 * such as `%10%3` or `/10%3`, evaluated left to right with Python's true
 * division `/` and floored modulo `%`, and truncated toward zero at the end.
 * The chain is read by a dedicated parser instead of evaluating the text.
 */
module Modifiers {
  import opened Wrappers
  import opened Text

  /** One step of a chain: `%n` or `/n`. */
  datatype Step = Mod(n: nat) | Div(n: nat)

  /** Why a modifier cannot be applied: it is not a chain, or it divides by zero. */
  datatype ModifierError = MalformedModifier | ZeroDivision

  /** The length of the longest prefix of `s` made of digits. */
  function DigitPrefix(s: string): (k: nat)
    ensures k <= |s| && AllDigits(s[..k])
    ensures k < |s| ==> !IsDigit(s[k])
  {
    if s != [] && IsDigit(s[0]) then
      var k := 1 + DigitPrefix(s[1..]);
      assert s[..k] == [s[0]] + s[1..][..k - 1];
      k
    else 0
  }

  lemma {:induction false} DigitPrefixOf(d: string, t: string)
    requires AllDigits(d)
    requires t == [] || !IsDigit(t[0])
    ensures DigitPrefix(d + t) == |d|
  {
    if d != [] {
      DigitPrefixOf(d[1..], t);
      assert (d + t)[1..] == d[1..] + t;
    }
  }

  /**
   * The first step of a non-empty chain text: an operator and a literal,
   * with the number of characters they take.
   */
  function ParseStep(s: string): (r: Option<(Step, nat)>)
    ensures r.Some? ==> 2 <= r.value.1 <= |s|
    ensures r.Some? && r.value.1 < |s| ==> !IsDigit(s[r.value.1])
  {
    if s == [] || (s[0] != '%' && s[0] != '/') then None
    else
      var k := DigitPrefix(s[1..]);
      var literal := s[1..][..k];
      if !IsLiteral(literal) then None
      else
        var n := DigitsValue(literal);
        assert k < |s| - 1 ==> s[1 + k] == s[1..][k];
        Some((if s[0] == '%' then Mod(n) else Div(n), 1 + k))
  }

  /** Reads a modifier chain `((%|/)literal)*`; None for any other text. */
  function ParseChain(s: string): (r: Option<seq<Step>>)
    decreases |s|
  {
    if s == [] then Some([])
    else
      match ParseStep(s)
      case None => None
      case Some((st, len)) =>
        match ParseChain(s[len..])
        case None => None
        case Some(rest) => Some([st] + rest)
  }

  /** The canonical text of a chain. */
  function ShowStep(st: Step): string
  {
    [if st.Mod? then '%' else '/'] + ShowNat(st.n)
  }

  function ShowChain(steps: seq<Step>): string
  {
    if steps == [] then "" else ShowStep(steps[0]) + ShowChain(steps[1..])
  }

  lemma ParseShowStep(st: Step, t: string)
    requires t == [] || !IsDigit(t[0])
    ensures ParseStep(ShowStep(st) + t) == Some((st, |ShowStep(st)|))
  {
    var d := ShowNat(st.n);
    var s := ShowStep(st) + t;
    DigitPrefixOf(d, t);
    assert s[1..] == d + t;
    assert s[1..][..|d|] == d;
  }

  lemma ShowChainStart(steps: seq<Step>)
    ensures ShowChain(steps) == [] || ShowChain(steps)[0] == '%' || ShowChain(steps)[0] == '/'
  {
  }

  lemma {:induction false} ParseShowChain(steps: seq<Step>)
    ensures ParseChain(ShowChain(steps)) == Some(steps)
  {
    if steps != [] {
      var st, rest := steps[0], steps[1..];
      var t := ShowChain(rest);
      var s := ShowStep(st) + t;
      assert s == ShowChain(steps);
      ShowChainStart(rest);
      ParseShowStep(st, t);
      assert s[|ShowStep(st)|..] == t;
      ParseShowChain(rest);
      ParseChainUnfold(s);
      assert [st] + rest == steps;
    }
  }

  lemma {:induction false} DigitPrefixAppend(x: string, y: string)
    requires DigitPrefix(x) == |x| ==> y == [] || !IsDigit(y[0])
    ensures DigitPrefix(x + y) == DigitPrefix(x)
  {
    if x != [] && IsDigit(x[0]) {
      assert (x + y)[1..] == x[1..] + y;
      DigitPrefixAppend(x[1..], y);
    }
  }

  lemma PrefixOfAppend(x: string, y: string, k: nat)
    requires k <= |x|
    ensures (x + y)[..k] == x[..k]
  {
  }

  lemma ParseStepAppend(a: string, b: string)
    requires ParseStep(a).Some?
    requires ParseStep(a).value.1 == |a| ==> b == [] || !IsDigit(b[0])
    ensures ParseStep(a + b) == ParseStep(a)
  {
    var x := a[1..];
    SliceOfAppend(a, b, 1);
    DigitPrefixAppend(x, b);
    PrefixOfAppend(x, b, DigitPrefix(x));
    assert (a + b)[0] == a[0];
  }

  lemma ConcatAssoc<T>(x: seq<T>, y: seq<T>, z: seq<T>)
    ensures x + (y + z) == (x + y) + z
  {
  }

  lemma SliceOfAppend(a: string, b: string, k: nat)
    requires k <= |a|
    ensures (a + b)[k..] == a[k..] + b
  {
  }

  lemma ParseChainUnfold(s: string)
    requires s != [] && ParseStep(s).Some?
    ensures ParseChain(s) == match ParseChain(s[ParseStep(s).value.1..])
                             case None => None
                             case Some(rest) => Some([ParseStep(s).value.0] + rest)
  {
  }

  lemma {:induction false} ParseChainAppend(a: string, b: string)
    requires ParseChain(a).Some? && ParseChain(b).Some?
    ensures ParseChain(a + b) == Some(ParseChain(a).value + ParseChain(b).value)
    decreases |a|
  {
    var sb := ParseChain(b).value;
    if a == [] {
      assert a + b == b;
      assert [] + sb == sb;
    } else {
      var st := ParseStep(a).value.0;
      var len := ParseStep(a).value.1;
      ParseChainUnfold(a);
      var restA := ParseChain(a[len..]).value;
      assert b == [] || b[0] == '%' || b[0] == '/' by {
        if b != [] { assert ParseStep(b).Some?; }
      }
      ParseStepAppend(a, b);
      SliceOfAppend(a, b, len);
      ParseChainAppend(a[len..], b);
      assert ParseChain(a[len..] + b) == Some(restA + sb);
      assert ParseStep(a + b) == Some((st, len));
      ParseChainUnfold(a + b);
      var whole := [st] + (restA + sb);
      assert ParseChain(a + b) == Some(whole);
      ConcatAssoc([st], restA, sb);
    }
  }

  predicate NonZero(steps: seq<Step>)
  {
    forall i :: 0 <= i < |steps| ==> steps[i].n > 0
  }

  /**
   * One step on a real value: Python's floored modulo or true division.
   * For a whole divisor `n`, `x % n` is the whole part of `x` taken modulo
   * `n` with the fractional part kept; the lemmas below pin that value down.
   */
  function ApplyStep(x: real, st: Step): real
    requires st.n > 0
  {
    if st.Mod? then (x.Floor % st.n) as real + (x - x.Floor as real) else x / st.n as real
  }

  /**
   * A modulo step leaves a remainder in `[0, n)` that differs from `x` by a
   * whole multiple of `n`: exactly Python's floored `x % n`.
   */
  lemma ModStepMeaning(x: real, n: nat)
    requires n > 0
    ensures 0.0 <= ApplyStep(x, Mod(n)) < n as real
    ensures x - ApplyStep(x, Mod(n)) == (x.Floor / n * n) as real
  {
    var k := x.Floor;
    assert k == k / n * n + k % n;
  }

  /** A division step is undone by multiplying back. */
  lemma DivStepMeaning(x: real, n: nat)
    requires n > 0
    ensures ApplyStep(x, Div(n)) * n as real == x
  {
  }

  /** The chain applied left to right, starting from `x`. */
  function EvalChain(x: real, steps: seq<Step>): real
    requires NonZero(steps)
    decreases steps
  {
    if steps == [] then x else EvalChain(ApplyStep(x, steps[0]), steps[1..])
  }

  lemma {:induction false} EvalChainAppend(x: real, s1: seq<Step>, s2: seq<Step>)
    requires NonZero(s1) && NonZero(s2)
    ensures NonZero(s1 + s2)
    ensures EvalChain(x, s1 + s2) == EvalChain(EvalChain(x, s1), s2)
    decreases s1
  {
    if s1 != [] {
      assert (s1 + s2)[1..] == s1[1..] + s2;
      EvalChainAppend(ApplyStep(x, s1[0]), s1[1..], s2);
    } else {
      assert s1 + s2 == s2;
    }
  }

  /** `math.trunc`: rounds toward zero. */
  function Trunc(x: real): (r: int)
    ensures 0.0 <= x ==> r as real <= x < r as real + 1.0
    ensures x < 0.0 ==> r as real - 1.0 < x <= r as real
  {
    if x >= 0.0 then x.Floor else -((-x).Floor)
  }

  /**
   * `get_modified`: the element with the modifier chain applied and the
   * result truncated; the error cases are those where Python raises.
   */
  function GetModified(element: int, modifier: string): (r: Result<int, ModifierError>)
    ensures r == Err(MalformedModifier) <==> ParseChain(modifier).None?
    ensures r == Err(ZeroDivision) <==> ParseChain(modifier).Some? && !NonZero(ParseChain(modifier).value)
  {
    match ParseChain(modifier)
    case None => Err(MalformedModifier)
    case Some(steps) =>
      if !NonZero(steps) then Err(ZeroDivision)
      else Ok(Trunc(EvalChain(element as real, steps)))
  }

  /** An empty modifier leaves the element as it is. */
  lemma EmptyModifier(element: int)
    ensures GetModified(element, "") == Ok(element)
  {
    assert ParseChain("") == Some([]);
    assert Trunc(element as real) == element;
  }

  /** A chain split in two is the first part applied, then the second, truncated once at the end. */
  lemma ModifierLeftToRight(element: int, a: string, b: string)
    requires ParseChain(a).Some? && NonZero(ParseChain(a).value)
    requires ParseChain(b).Some? && NonZero(ParseChain(b).value)
    ensures GetModified(element, a + b)
         == Ok(Trunc(EvalChain(EvalChain(element as real, ParseChain(a).value), ParseChain(b).value)))
  {
    ParseChainAppend(a, b);
    EvalChainAppend(element as real, ParseChain(a).value, ParseChain(b).value);
  }

  lemma ShowTen()
    ensures ShowNat(10) == "10"
  {
    assert ShowNat(1) == "1";
  }

  /** The two chains of the documented example task parse as written. */
  lemma ExampleChainsParse()
    ensures ParseChain("%10%3") == Some([Mod(10), Mod(3)])
    ensures ParseChain("/10%3") == Some([Div(10), Mod(3)])
  {
    ShowTen();
    assert ShowChain([Mod(10), Mod(3)]) == "%10%3";
    ParseShowChain([Mod(10), Mod(3)]);
    assert ShowChain([Div(10), Mod(3)]) == "/10%3";
    ParseShowChain([Div(10), Mod(3)]);
  }

  lemma ModTenModThree()
    ensures EvalChain(12.0, [Mod(10), Mod(3)]) == 2.0
    ensures EvalChain(14.0, [Mod(10), Mod(3)]) == 1.0
  {
    assert [Mod(10), Mod(3)][1..] == [Mod(3)];
  }

  lemma DivTenModThree()
    ensures EvalChain(14.0, [Div(10), Mod(3)]) == 1.4
    ensures EvalChain(12.0, [Div(10), Mod(3)]) == 1.2
  {
    assert [Div(10), Mod(3)][1..] == [Mod(3)];
  }

  /** The two chains of the documented example task, on its first two elements. */
  lemma ExampleChains()
    ensures GetModified(12, "%10%3") == Ok(2)
    ensures GetModified(14, "/10%3") == Ok(1)
    ensures GetModified(12, "/10%3") == Ok(1)
    ensures GetModified(14, "%10%3") == Ok(1)
  {
    ExampleChainsParse();
    ModTenModThree();
    DivTenModThree();
    assert NonZero([Mod(10), Mod(3)]) && NonZero([Div(10), Mod(3)]);
  }

  /**
   * On a negative element Python's `%` floors (`-12 % 10` is 8) while the
   * final truncation rounds toward zero (`-7 / 2` is -3.5, truncated to -3).
   */
  lemma NegativeElementRounding()
    ensures GetModified(-12, "%10") == Ok(8)
    ensures GetModified(-7, "/2") == Ok(-3)
  {
    ShowTen();
    assert ShowChain([Mod(10)]) == "%10";
    ParseShowChain([Mod(10)]);
    assert ShowChain([Div(2)]) == "/2";
    ParseShowChain([Div(2)]);
    assert EvalChain(-12.0, [Mod(10)]) == 8.0;
    assert EvalChain(-7.0, [Div(2)]) == -3.5;
  }

  /** A zero literal divides by zero; a literal with a leading zero is not Python. */
  lemma ModifierErrors()
    ensures GetModified(5, "%0") == Err(ZeroDivision)
    ensures GetModified(5, "%010") == Err(MalformedModifier)
  {
    assert ShowChain([Mod(0)]) == "%0";
    ParseShowChain([Mod(0)]);
    assert "%010"[1..] == "010";
    assert DigitPrefix("010") == 3 by {
      assert DigitPrefix("") == 0;
      assert "010"[1..] == "10" && "10"[1..] == "0" && "0"[1..] == "";
    }
    assert !IsLiteral("010");
  }
}
