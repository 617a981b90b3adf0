/**
 * The string operations the serialised task format is built from, with
 * Python's meaning: `str.split(c)`, `c.join(parts)`, the slices `s[1:-1]`,
 * `s[1:]` and `s[:-1]`, `str(int)` and `int(str)`.
 */
module Text {
  import opened Wrappers

  /** `sep.join(parts)`: the empty list joins to the empty string. */
  function Join(sep: string, parts: seq<string>): string
  {
    if |parts| == 0 then ""
    else if |parts| == 1 then parts[0]
    else parts[0] + sep + Join(sep, parts[1..])
  }

  /**
   * `s.split(c)`: the pieces between occurrences of `c`; never empty, and
   * `"".split(c) == [""]`. Joining the pieces back gives `s`.
   */
  function Split(s: string, c: char): (r: seq<string>)
    ensures |r| >= 1
    ensures forall i :: 0 <= i < |r| ==> c !in r[i]
    ensures Join([c], r) == s
  {
    if s == [] then [""]
    else if s[0] == c then
      var rest := Split(s[1..], c);
      assert s == [c] + s[1..];
      [""] + rest
    else
      var rest := Split(s[1..], c);
      assert s == [s[0]] + s[1..];
      [[s[0]] + rest[0]] + rest[1..]
  }

  lemma {:induction false} SplitNoSeparator(s: string, c: char)
    requires c !in s
    ensures Split(s, c) == [s]
  {
    if s != [] {
      SplitNoSeparator(s[1..], c);
    }
  }

  /** One step of `Split` on text that does not start with the separator. */
  lemma SplitStep(s: string, c: char)
    requires s != [] && s[0] != c
    ensures Split(s, c) == [[s[0]] + Split(s[1..], c)[0]] + Split(s[1..], c)[1..]
  {
  }

  lemma {:induction false} SplitAppend(a: string, b: string, c: char)
    requires c !in a
    ensures Split(a + [c] + b, c) == [a] + Split(b, c)
  {
    if a == [] {
      assert a + [c] + b == [c] + b;
      assert ([c] + b)[1..] == b;
    } else {
      var s := a + [c] + b;
      assert s[0] == a[0] && s[1..] == a[1..] + [c] + b;
      SplitAppend(a[1..], b, c);
      var rest := Split(b, c);
      SplitStep(s, c);
      assert [a[0]] + a[1..] == a;
      assert ([a[1..]] + rest)[1..] == rest;
    }
  }

  /** Splitting a join gives the parts back when none holds the separator. */
  lemma {:induction false} SplitJoin(parts: seq<string>, c: char)
    requires |parts| >= 1
    requires forall i :: 0 <= i < |parts| ==> c !in parts[i]
    ensures Split(Join([c], parts), c) == parts
  {
    if |parts| == 1 {
      SplitNoSeparator(parts[0], c);
    } else {
      SplitJoin(parts[1..], c);
      SplitAppend(parts[0], Join([c], parts[1..]), c);
      assert parts == [parts[0]] + parts[1..];
    }
  }

  /** Splitting a join followed by more text gives the parts, then the pieces of the rest. */
  lemma {:induction false} SplitJoinThen(parts: seq<string>, c: char, rest: string)
    requires |parts| >= 1
    requires forall i :: 0 <= i < |parts| ==> c !in parts[i]
    ensures Split(Join([c], parts) + [c] + rest, c) == parts + Split(rest, c)
  {
    if |parts| == 1 {
      SplitAppend(parts[0], rest, c);
    } else {
      var j := Join([c], parts[1..]);
      var tail := j + [c] + rest;
      assert Join([c], parts) == parts[0] + [c] + j;
      assert Join([c], parts) + [c] + rest == parts[0] + [c] + tail;
      SplitJoinThen(parts[1..], c, rest);
      SplitAppend(parts[0], tail, c);
      ConsAppend(parts, Split(rest, c));
    }
  }

  lemma ConsAppend<T>(xs: seq<T>, ys: seq<T>)
    requires xs != []
    ensures [xs[0]] + (xs[1..] + ys) == xs + ys
  {
    assert xs == [xs[0]] + xs[1..];
  }

  lemma {:induction false} JoinAppend(sep: string, xs: seq<string>, ys: seq<string>)
    requires |xs| >= 1 && |ys| >= 1
    ensures Join(sep, xs + ys) == Join(sep, xs) + sep + Join(sep, ys)
  {
    if |xs| == 1 {
      assert (xs + ys)[1..] == ys;
    } else {
      JoinAppend(sep, xs[1..], ys);
      assert (xs + ys)[1..] == xs[1..] + ys;
    }
  }

  lemma {:induction false} NotInJoin(sep: string, parts: seq<string>, c: char)
    requires c !in sep
    requires forall i :: 0 <= i < |parts| ==> c !in parts[i]
    ensures c !in Join(sep, parts)
  {
    if |parts| > 1 {
      NotInJoin(sep, parts[1..], c);
    }
  }

  /** Python's `s[1:-1]`: empty for strings shorter than two. */
  function Inner(s: string): (r: string)
    ensures |s| >= 2 ==> s == [s[0]] + r + [s[|s| - 1]]
    ensures |s| < 2 ==> r == ""
  {
    if |s| >= 2 then s[1..|s| - 1] else ""
  }

  /** Python's `s[1:]`. */
  function DropFirst(s: string): (r: string)
    ensures s != [] ==> s == [s[0]] + r
    ensures s == [] ==> r == ""
  {
    if |s| >= 1 then s[1..] else ""
  }

  /** Python's `s[:-1]`. */
  function DropLast(s: string): (r: string)
    ensures s != [] ==> s == r + [s[|s| - 1]]
    ensures s == [] ==> r == ""
  {
    if |s| >= 1 then s[..|s| - 1] else ""
  }

  /**
   * The ASCII whitespace that `int()` ignores around its digits: space,
   * tab, line feed, vertical tab, form feed and carriage return.
   */
  predicate IsSpace(ch: char)
  {
    ch == ' ' || ch == '\t' || ch == '\n' || ch == '\r' || ch == '\U{000B}' || ch == '\U{000C}'
  }

  function TrimLeft(s: string): string
  {
    if s != [] && IsSpace(s[0]) then TrimLeft(s[1..]) else s
  }

  function TrimRight(s: string): string
  {
    if s != [] && IsSpace(s[|s| - 1]) then TrimRight(s[..|s| - 1]) else s
  }

  /** `lstrip()` removes exactly the leading whitespace. */
  lemma {:induction false} TrimLeftMeaning(s: string)
    ensures |TrimLeft(s)| <= |s| && TrimLeft(s) == s[|s| - |TrimLeft(s)|..]
    ensures TrimLeft(s) != [] ==> !IsSpace(TrimLeft(s)[0])
    ensures forall i :: 0 <= i < |s| - |TrimLeft(s)| ==> IsSpace(s[i])
  {
    if s != [] && IsSpace(s[0]) {
      var t := s[1..];
      TrimLeftMeaning(t);
      var r := TrimLeft(t);
      assert TrimLeft(s) == r;
      assert t[|t| - |r|..] == s[|s| - |r|..];
      forall i | 0 <= i < |s| - |r|
        ensures IsSpace(s[i])
      {
        if i > 0 {
          assert s[i] == t[i - 1];
        }
      }
    }
  }

  /** `rstrip()` removes exactly the trailing whitespace. */
  lemma {:induction false} TrimRightMeaning(s: string)
    ensures |TrimRight(s)| <= |s| && TrimRight(s) == s[..|TrimRight(s)|]
    ensures TrimRight(s) != [] ==> !IsSpace(TrimRight(s)[|TrimRight(s)| - 1])
    ensures forall i :: |TrimRight(s)| <= i < |s| ==> IsSpace(s[i])
  {
    if s != [] && IsSpace(s[|s| - 1]) {
      TrimRightMeaning(s[..|s| - 1]);
    }
  }

  /** `str.strip()`. */
  function Trim(s: string): string
  {
    TrimRight(TrimLeft(s))
  }

  lemma TrimUntouched(s: string)
    requires s != [] && !IsSpace(s[0]) && !IsSpace(s[|s| - 1])
    ensures Trim(s) == s
  {
  }

  predicate IsDigit(ch: char)
  {
    '0' <= ch <= '9'
  }

  predicate AllDigits(s: string)
  {
    forall i :: 0 <= i < |s| ==> IsDigit(s[i])
  }

  /** The value of a string of decimal digits. */
  function DigitsValue(s: string): nat
    requires AllDigits(s)
  {
    if s == [] then 0 else DigitsValue(s[..|s| - 1]) * 10 + (s[|s| - 1] - '0') as nat
  }

  /** A Python decimal literal: no leading zero unless every digit is zero. */
  predicate IsLiteral(d: string)
  {
    d != [] && AllDigits(d) && (d[0] != '0' || forall i :: 0 <= i < |d| ==> d[i] == '0')
  }

  /** The text after an optional leading sign. */
  function Unsigned(t: string): string
  {
    if t != [] && (t[0] == '-' || t[0] == '+') then t[1..] else t
  }

  function DigitChar(d: nat): (ch: char)
    requires d < 10
    ensures IsDigit(ch) && (ch - '0') as nat == d
  {
    '0' + d as char
  }

  /** `str(n)` for a natural number: decimal, no leading zero. */
  function ShowNat(n: nat): (r: string)
    ensures r != [] && AllDigits(r) && DigitsValue(r) == n
    ensures r[0] != '0' || r == "0"
  {
    if n < 10 then [DigitChar(n)]
    else
      var prefix := ShowNat(n / 10);
      var r := prefix + [DigitChar(n % 10)];
      assert r[..|r| - 1] == prefix;
      r
  }

  /** `str(i)` for an integer. */
  function ShowInt(i: int): (r: string)
    ensures r != [] && !IsSpace(r[0]) && !IsSpace(r[|r| - 1])
    ensures IsDigit(r[|r| - 1])
    ensures forall k :: 0 <= k < |r| ==> IsDigit(r[k]) || (k == 0 && r[k] == '-')
  {
    if i < 0 then "-" + ShowNat(-i) else ShowNat(i)
  }

  /**
   * `int(s)`: surrounding whitespace, an optional sign and at least one
   * decimal digit; leading zeros are allowed. None when Python raises.
   */
  function ParseInt(s: string): (r: Option<int>)
    ensures r.Some? ==> Trim(s) != [] && (exists k :: 0 <= k < |Trim(s)| && IsDigit(Trim(s)[k]))
  {
    var t := Trim(s);
    if t == [] then None
    else
      var sign := if t[0] == '-' then -1 else 1;
      var digits := if t[0] == '-' || t[0] == '+' then t[1..] else t;
      if digits == [] || !AllDigits(digits) then None
      else
        assert IsDigit(t[|t| - 1]);
        Some(sign * DigitsValue(digits))
  }

  /** The digits of `str(i)` form a Python literal. */
  /**
   * The separators 0x1C to 0x1F are not whitespace to `int()`: text that
   * starts with one is not a number, whatever follows.
   */
  lemma SeparatorNotSkipped(ch: char, rest: string)
    requires '\U{001C}' <= ch <= '\U{001F}'
    ensures ParseInt([ch] + rest).None?
  {
    assert TrimLeft([ch] + rest) == [ch] + rest;
    TrimRightMeaning([ch] + rest);
  }

  lemma ShowIntLiteral(i: int)
    ensures IsLiteral(Unsigned(ShowInt(i)))
  {
    if i < 0 {
      assert Unsigned(ShowInt(i)) == ShowNat(-i);
    } else {
      assert Unsigned(ShowInt(i)) == ShowNat(i);
    }
  }

  lemma ParseShowInt(i: int)
    ensures ParseInt(ShowInt(i)) == Some(i)
    ensures ParseInt(" " + ShowInt(i)) == Some(i)
  {
    var r := ShowInt(i);
    assert TrimLeft(" " + r) == TrimLeft(r) by {
      assert (" " + r)[1..] == r;
    }
    TrimUntouched(r);
    if i < 0 {
      assert r[1..] == ShowNat(-i);
    }
  }
}
