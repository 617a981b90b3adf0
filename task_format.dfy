/**
 * The five-field task of `MathBackend/Task.py`: the four list fields of the
 * older format followed by the grouping list, a list of index pairs
 * written as Python prints it, `[(0, 1), (2, 4)]`.
 */
module TaskFormat {
  import opened Wrappers
  import opened Text
  import opened Operators
  import opened Triplets
  import opened Fields
  import MathBackend

  /** The data of a task; `MathTask.Task` adds the cached results. */
  datatype TaskData = TaskData(
    elements: seq<int>,
    triplets: seq<RelationTriplet>,
    tripletModifiers: seq<UnaryRelation>,
    tripletsRel: seq<BinaryRelation>,
    parenthesis: seq<(int, int)>)

  /** `str((a, b))`. */
  function ShowPair(p: (int, int)): string
  {
    "(" + ShowInt(p.0) + ", " + ShowInt(p.1) + ")"
  }

  /** The pairs printed and separated by `, `, as `str(list)` does. */
  function ShowPairs(ps: seq<(int, int)>): string
  {
    if |ps| == 0 then ""
    else if |ps| == 1 then ShowPair(ps[0])
    else ShowPair(ps[0]) + ", " + ShowPairs(ps[1..])
  }

  /** `str(parenthesis)`. */
  function ShowGrouping(ps: seq<(int, int)>): string
  {
    "[" + ShowPairs(ps) + "]"
  }

  /**
   * An integer inside a tuple as `eval` reads it: `int()`'s form, except
   * that the digits must be a Python literal, so `01` is a syntax error.
   */
  function ParseLiteral(s: string): (r: Option<int>)
    ensures r.Some? <==> ParseInt(s).Some? && IsLiteral(Unsigned(Trim(s)))
    ensures r.Some? ==> r == ParseInt(s)
  {
    if IsLiteral(Unsigned(Trim(s))) then ParseInt(s) else None
  }

  /** The first half of a pair once the text is split at commas: `(a`. */
  function ParseOpen(piece: string): Option<int>
  {
    var q := Trim(piece);
    if q != [] && q[0] == '(' then ParseLiteral(q[1..]) else None
  }

  /** The second half of a pair: `b)`. */
  function ParseClose(piece: string): Option<int>
  {
    var q := Trim(piece);
    if q != [] && q[|q| - 1] == ')' then ParseLiteral(q[..|q| - 1]) else None
  }

  /** Pieces taken two at a time, each two making one pair. */
  function ParsePairs(pieces: seq<string>): Option<seq<(int, int)>>
    decreases |pieces|
  {
    if |pieces| == 0 then Some([])
    else if |pieces| == 1 then None
    else
      match (ParseOpen(pieces[0]), ParseClose(pieces[1]), ParsePairs(pieces[2..]))
      case (Some(a), Some(b), Some(rest)) => Some([(a, b)] + rest)
      case _ => None
  }

  /**
   * Free of control characters that Python's tokenizer refuses in source
   * text: the vertical tab and the separators 0x1C to 0x1F. The vertical
   * tab is one that `int()` would otherwise skip as whitespace.
   */
  predicate SourceText(s: string)
  {
    '\U{000B}' !in s && '\U{001C}' !in s && '\U{001D}' !in s && '\U{001E}' !in s && '\U{001F}' !in s
  }

  /** What `eval` strips from the front of its argument: a space or a tab. */
  predicate IsIndent(ch: char)
  {
    ch == ' ' || ch == '\t'
  }

  /** The text without its leading spaces and tabs. */
  function Dedent(s: string): (r: string)
    ensures |r| <= |s| && r == s[|s| - |r|..]
    ensures r != [] ==> !IsIndent(r[0])
  {
    if s != [] && IsIndent(s[0]) then Dedent(s[1..]) else s
  }

  /**
   * The grouping field: a bracketed, possibly blank, list of pairs, after
   * the leading spaces and tabs that `eval` strips and the trailing
   * whitespace that ends the expression. Of all the Python expressions
   * `eval` accepts, this reads the form `str` prints and its variations
   * in spacing.
   */
  function ParseGrouping(field: string): Option<seq<(int, int)>>
  {
    if !SourceText(field) then None else ParseBracketed(TrimRight(Dedent(field)))
  }

  /** The stripped grouping field: brackets around a blank or a list of pairs. */
  function ParseBracketed(f: string): Option<seq<(int, int)>>
  {
    if |f| < 2 || f[0] != '[' || f[|f| - 1] != ']' then None
    else if Trim(Inner(f)) == [] then Some([])
    else ParsePairs(Split(Inner(f), ','))
  }

  /** A field with nothing around it to strip is read as it stands. */
  lemma Unpadded(t: string)
    requires t != [] && !IsIndent(t[0]) && !IsSpace(t[|t| - 1])
    ensures ParseGrouping(t) == if SourceText(t) then ParseBracketed(t) else None
  {
  }

  /** A bracketed field has nothing around it to strip. */
  lemma UnpaddedBracket(s: string)
    ensures ParseGrouping("[" + s + "]") == if SourceText("[" + s + "]") then ParseBracketed("[" + s + "]") else None
  {
    var t := "[" + s + "]";
    assert t[0] == '[' && t[|t| - 1] == ']';
    Unpadded(t);
  }

  /** Padding of spaces, tabs and whitespace other than the vertical tab holds no refused character. */
  lemma SourcePadded(pre: string, g: string, post: string)
    requires forall i :: 0 <= i < |pre| ==> IsIndent(pre[i])
    requires forall i :: 0 <= i < |post| ==> IsSpace(post[i]) && post[i] != '\U{000B}'
    ensures SourceText(pre + g + post) == SourceText(g)
  {
  }

  lemma {:induction false} DedentIndent(pre: string, t: string)
    requires forall i :: 0 <= i < |pre| ==> IsIndent(pre[i])
    requires t != [] && !IsIndent(t[0])
    ensures Dedent(pre + t) == t
  {
    if pre != [] {
      assert (pre + t)[1..] == pre[1..] + t;
      DedentIndent(pre[1..], t);
    } else {
      assert pre + t == t;
    }
  }

  lemma {:induction false} TrimRightSpace(t: string, post: string)
    requires forall i :: 0 <= i < |post| ==> IsSpace(post[i])
    requires t != [] && !IsSpace(t[|t| - 1])
    ensures TrimRight(t + post) == t
  {
    if post != [] {
      var q := post[..|post| - 1];
      assert (t + post)[..|t + post| - 1] == t + q;
      TrimRightSpace(t, q);
    } else {
      assert t + post == t;
    }
  }

  /**
   * Spaces and tabs before a field and whitespace other than the vertical
   * tab after it do not change what the field reads as, as `eval` ignores
   * them.
   */
  lemma PaddedGrouping(pre: string, g: string, post: string)
    requires forall i :: 0 <= i < |pre| ==> IsIndent(pre[i])
    requires forall i :: 0 <= i < |post| ==> IsSpace(post[i]) && post[i] != '\U{000B}'
    requires g != [] && !IsIndent(g[0]) && !IsSpace(g[|g| - 1])
    ensures ParseGrouping(pre + g + post) == ParseGrouping(g)
  {
    assert pre + g + post == pre + (g + post);
    DedentIndent(pre, g + post);
    TrimRightSpace(g, post);
    Unpadded(g);
    SourcePadded(pre, g, post);
  }

  /** A printed grouping list reads back with the padding `eval` ignores, such as the line end of a task read from a file. */
  lemma PaddedGroupingRoundTrip(ps: seq<(int, int)>, pre: string, post: string)
    requires forall i :: 0 <= i < |pre| ==> IsIndent(pre[i])
    requires forall i :: 0 <= i < |post| ==> IsSpace(post[i]) && post[i] != '\U{000B}'
    ensures ParseGrouping(pre + ShowGrouping(ps) + post) == Some(ps)
  {
    GroupingRoundTrip(ps);
    PaddedGrouping(pre, ShowGrouping(ps), post);
  }

  lemma TrimSpaceBefore(x: string)
    ensures TrimLeft(" " + x) == TrimLeft(x)
  {
    assert (" " + x)[1..] == x;
  }

  lemma TrimUnspaced(q: string)
    requires q != [] && !IsSpace(q[0]) && !IsSpace(q[|q| - 1])
    ensures Trim(q) == q && Trim(" " + q) == q
  {
    TrimSpaceBefore(q);
    assert TrimLeft(q) == q;
    assert TrimRight(q) == q;
  }

  lemma OpenTrim(sp: string, w: string)
    requires sp == "" || sp == " "
    requires w != [] && !IsSpace(w[|w| - 1])
    ensures Trim(sp + "(" + w) == "(" + w
  {
    var q := "(" + w;
    TrimUnspaced(q);
    if sp == "" {
      assert sp + "(" + w == q;
    } else {
      assert sp + "(" + w == " " + q;
    }
  }

  lemma OpenRead(sp: string, a: int)
    requires sp == "" || sp == " "
    ensures ParseOpen(sp + "(" + ShowInt(a)) == Some(a)
  {
    var w := ShowInt(a);
    OpenTrim(sp, w);
    assert ("(" + w)[1..] == w;
    ParseShowInt(a);
    TrimUntouched(w);
    ShowIntLiteral(a);
  }

  lemma CloseRead(b: int)
    ensures ParseClose(" " + ShowInt(b) + ")") == Some(b)
  {
    var w := ShowInt(b);
    var q := w + ")";
    assert " " + w + ")" == " " + q;
    TrimUnspaced(q);
    assert q[..|q| - 1] == w;
    ParseShowInt(b);
    TrimUntouched(w);
    ShowIntLiteral(b);
  }

  /** A printed pair split at its comma, on its own or followed by more pairs. */
  lemma PairText(sp: string, a: string, b: string, rest: string)
    ensures sp + ("(" + a + ", " + b + ")") == (sp + "(" + a) + [','] + (" " + b + ")")
    ensures sp + ("(" + a + ", " + b + ")" + ", " + rest) == (sp + "(" + a) + [','] + ((" " + b + ")") + [','] + (" " + rest))
  {
  }

  lemma SplitLast(x: string, y: string)
    requires ',' !in x && ',' !in y
    ensures Split(x + [','] + y, ',') == [x, y]
  {
    SplitAppend(x, y, ',');
    SplitNoSeparator(y, ',');
  }

  lemma SplitTwo(x: string, y: string, t: string)
    requires ',' !in x && ',' !in y
    ensures Split(x + [','] + (y + [','] + t), ',') == [x, y] + Split(t, ',')
  {
    SplitAppend(y, t, ',');
    SplitAppend(x, y + [','] + t, ',');
  }

  lemma ParsePairsCons(x: string, y: string, tail: seq<string>, p: (int, int), rest: seq<(int, int)>)
    requires ParseOpen(x) == Some(p.0) && ParseClose(y) == Some(p.1)
    requires ParsePairs(tail) == Some(rest)
    ensures ParsePairs([x, y] + tail) == Some([p] + rest)
  {
    assert ([x, y] + tail)[2..] == tail;
  }

  /** The printed pairs split at commas: the first pair gives two pieces, the rest follow. */
  lemma SplitPairs(ps: seq<(int, int)>, sp: string)
    requires |ps| >= 1
    requires sp == "" || sp == " "
    ensures Split(sp + ShowPairs(ps), ',') ==
      [sp + "(" + ShowInt(ps[0].0), " " + ShowInt(ps[0].1) + ")"] +
      (if |ps| == 1 then [] else Split(" " + ShowPairs(ps[1..]), ','))
  {
    var p := ps[0];
    var x := sp + "(" + ShowInt(p.0);
    var y := " " + ShowInt(p.1) + ")";
    ShowIntFree(p.0, ',');
    ShowIntFree(p.1, ',');
    assert ',' !in x && ',' !in y;
    PairText(sp, ShowInt(p.0), ShowInt(p.1), ShowPairs(ps[1..]));
    if |ps| == 1 {
      assert sp + ShowPairs(ps) == x + [','] + y;
      SplitLast(x, y);
      assert [x, y] + [] == [x, y];
    } else {
      assert sp + ShowPairs(ps) == x + [','] + (y + [','] + (" " + ShowPairs(ps[1..])));
      SplitTwo(x, y, " " + ShowPairs(ps[1..]));
    }
  }

  /** The printed pairs, with or without a leading space, are read back. */
  lemma {:induction false} PairsRead(ps: seq<(int, int)>, sp: string)
    requires |ps| >= 1
    requires sp == "" || sp == " "
    ensures ParsePairs(Split(sp + ShowPairs(ps), ',')) == Some(ps)
  {
    assert [ps[0]] + ps[1..] == ps;
    var tail := if |ps| == 1 then [] else Split(" " + ShowPairs(ps[1..]), ',');
    SplitPairs(ps, sp);
    OpenRead(sp, ps[0].0);
    CloseRead(ps[0].1);
    if |ps| > 1 {
      PairsRead(ps[1..], " ");
    } else {
      assert ParsePairs([]) == Some([]);
    }
    ParsePairsCons(sp + "(" + ShowInt(ps[0].0), " " + ShowInt(ps[0].1) + ")", tail, ps[0], ps[1..]);
  }

  /** The printed pairs open with `(` and close with `)`. */
  lemma PairsEnds(ps: seq<(int, int)>)
    requires |ps| >= 1
    ensures ShowPairs(ps) != [] && ShowPairs(ps)[0] == '(' && ShowPairs(ps)[|ShowPairs(ps)| - 1] == ')'
  {
    if |ps| > 1 {
      PairsEnds(ps[1..]);
    }
  }

  /** Brackets around source text keep it source text. */
  lemma SourceBracketed(s: string)
    requires SourceText(s)
    ensures SourceText("[" + s + "]")
  {
  }

  lemma GroupingOf(s: string, ps: seq<(int, int)>)
    requires s != [] && s[0] == '(' && s[|s| - 1] == ')'
    requires ParsePairs(Split(s, ',')) == Some(ps)
    requires SourceText(s)
    ensures ParseGrouping("[" + s + "]") == Some(ps)
  {
    SourceBracketed(s);
    BracketedPairs(s);
    UnpaddedBracket(s);
  }

  /** Brackets around pairs: the blank test fails and the pairs are read. */
  lemma BracketedPairs(s: string)
    requires s != [] && s[0] == '(' && s[|s| - 1] == ')'
    ensures ParseBracketed("[" + s + "]") == ParsePairs(Split(s, ','))
  {
    InnerOf(s);
    TrimUntouched(s);
  }

  /** Every grouping list, the empty one included, reads back from its printed form. */
  lemma GroupingRoundTrip(ps: seq<(int, int)>)
    ensures ParseGrouping(ShowGrouping(ps)) == Some(ps)
  {
    if ps == [] {
      assert ShowGrouping(ps) == "[" + "" + "]";
      UnpaddedBracket("");
      assert Inner("[]") == "";
    } else {
      var s := ShowPairs(ps);
      PairsEnds(ps);
      PairsRead(ps, "");
      assert "" + s == s;
      PairsFree(ps, '\U{000B}');
      PairsFree(ps, '\U{001C}');
      PairsFree(ps, '\U{001D}');
      PairsFree(ps, '\U{001E}');
      PairsFree(ps, '\U{001F}');
      GroupingOf(s, ps);
    }
  }

  /** A pair opened by a number with a leading zero is not read: `(01` is a syntax error. */
  lemma LeadingZeroOpen(sp: string, w: string)
    requires sp == "" || sp == " "
    requires AllDigits(w) && w != [] && w[0] == '0' && exists i :: 0 < i < |w| && w[i] != '0'
    ensures ParseOpen(sp + "(" + w).None?
  {
    OpenTrim(sp, w);
    assert ("(" + w)[1..] == w;
    TrimUntouched(w);
    assert Unsigned(w) == w;
  }

  /** A bracketed field whose first pair's opening half is unreadable is rejected, however many pairs follow. */
  lemma FirstOpenRejected(s: string)
    requires s != [] && s[0] == '(' && s[|s| - 1] == ')'
    requires ParseOpen(Split(s, ',')[0]).None?
    ensures ParseGrouping("[" + s + "]").None?
  {
    BracketedPairs(s);
    UnpaddedBracket(s);
  }

  /** A grouping field whose first pair opens with a leading zero, such as `[(01, 1)]`, is rejected, as `eval` raises. */
  lemma LeadingZeroRejected(w: string, b: int)
    requires AllDigits(w) && w != [] && w[0] == '0' && exists i :: 0 < i < |w| && w[i] != '0'
    ensures ParseGrouping("[" + ("(" + w + [','] + (" " + ShowInt(b) + ")")) + "]").None?
  {
    var x, y := "(" + w, " " + ShowInt(b) + ")";
    var s := x + [','] + y;
    assert "(" + w + [','] + (" " + ShowInt(b) + ")") == s;
    ShowIntFree(b, ',');
    SplitLast(x, y);
    LeadingZeroOpen("", w);
    assert "" + "(" + w == x;
    FirstOpenRejected(s);
  }

  lemma {:induction false} PairsFree(ps: seq<(int, int)>, c: char)
    requires c == '$' || c == '@' || c == '|' || c == '\U{000B}' || ('\U{001C}' <= c <= '\U{001F}')
    ensures c !in ShowPairs(ps)
  {
    if |ps| >= 1 {
      ShowIntFree(ps[0].0, c);
      ShowIntFree(ps[0].1, c);
      if |ps| > 1 {
        PairsFree(ps[1..], c);
      }
    }
  }

  /** The four fields of the older format, then the grouping list. */
  function FieldsOf(d: TaskData): seq<string>
  {
    [ShowElements(d.elements), ShowTriplets(d.triplets), ShowUnaries(d.tripletModifiers),
     ShowBinaries(d.tripletsRel), ShowGrouping(d.parenthesis)]
  }

  /** `to_string`: the five fields joined by `$`. */
  function ToString(d: TaskData): string
  {
    Join("$", FieldsOf(d))
  }

  /** The first five fields parsed, in order; None as soon as one does not parse. */
  function FromFields(f: seq<string>): Option<TaskData>
    requires |f| >= 5
  {
    match (ParseElements(f[0]), ParseTriplets(f[1]), ParseUnaries(f[2]), ParseBinaries(f[3]), ParseGrouping(f[4]))
    case (Some(xs), Some(ts), Some(us), Some(ops), Some(ps)) => Some(TaskData(xs, ts, us, ops, ps))
    case _ => None
  }

  /**
   * `from_string`: the text split at `$`, the first five fields parsed and
   * any further field ignored; None where Python raises.
   */
  function FromString(s: string): Option<TaskData>
  {
    var f := Split(s, '$');
    if |f| < 5 then None else FromFields(f)
  }

  /**
   * With modifiers free of `$`, the printed task splits at `$` into exactly
   * five fields: elements, triplets, unary modifiers, connectives, grouping.
   */
  lemma ToStringFields(d: TaskData)
    requires forall i :: 0 <= i < |d.triplets| ==> '$' !in d.triplets[i].mod1 && '$' !in d.triplets[i].mod2
    ensures Split(ToString(d), '$') == FieldsOf(d)
    ensures |Split(ToString(d), '$')| == 5
  {
    FieldsFreeOfDollar(d.elements, d.triplets, d.tripletModifiers, d.tripletsRel);
    PairsFree(d.parenthesis, '$');
    var f := FieldsOf(d);
    assert forall i :: 0 <= i < |f| ==> '$' !in f[i];
    SplitJoin(f, '$');
  }

  /**
   * A printed task reads back as itself exactly when its elements,
   * triplets, modifiers and connectives are all non-empty; the grouping
   * list may be empty.
   */
  lemma RoundTrip(d: TaskData)
    requires ModifiersPrintable(d.triplets)
    ensures FromString(ToString(d)) ==
      if |d.elements| >= 1 && |d.triplets| >= 1 && |d.tripletModifiers| >= 1 && |d.tripletsRel| >= 1 then Some(d) else None
  {
    ToStringFields(d);
    assert FromString(ToString(d)) == FromFields(FieldsOf(d));
    FieldsReadBack(d);
  }

  lemma FieldsReadBack(d: TaskData)
    requires ModifiersPrintable(d.triplets)
    ensures FromFields(FieldsOf(d)) ==
      if |d.elements| >= 1 && |d.triplets| >= 1 && |d.tripletModifiers| >= 1 && |d.tripletsRel| >= 1 then Some(d) else None
  {
    ListsReadBack(d.elements, d.triplets, d.tripletModifiers, d.tripletsRel);
    GroupingRoundTrip(d.parenthesis);
  }


  /**
   * A task with a single triplet has no connectives; its connective field
   * prints as `[]`, which does not parse, so the task does not read back.
   */
  lemma NoConnectivesNotReadBack(d: TaskData)
    requires ModifiersPrintable(d.triplets)
    requires d.tripletsRel == []
    ensures ShowBinaries(d.tripletsRel) == "[]"
    ensures FromString(ToString(d)).None?
  {
    RoundTrip(d);
    EmptyListsRejected();
  }

  /** The older four-field reader reads a five-field text, ignoring the grouping. */
  lemma FourFieldReader(d: TaskData)
    requires ModifiersPrintable(d.triplets)
    ensures MathBackend.FromString(ToString(d)) ==
      MathBackend.FromString(MathBackend.ToString(MathBackend.Task(d.elements, d.triplets, d.tripletModifiers, d.tripletsRel)))
  {
    var t := MathBackend.Task(d.elements, d.triplets, d.tripletModifiers, d.tripletsRel);
    JoinAppend("$", MathBackend.FieldsOf(t), [ShowGrouping(d.parenthesis)]);
    assert FieldsOf(d) == MathBackend.FieldsOf(t) + [ShowGrouping(d.parenthesis)];
    MathBackend.ExtraFieldsIgnored(t, ShowGrouping(d.parenthesis));
  }
}
