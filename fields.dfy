/**
 * The four list fields that both task formats share, each as a printer and
 * a parser: the elements as `str(list)`, the triplets as `[mod1|token|mod2]`
 * pieces joined by `@`, and the unary and binary operators as their tokens
 * joined by `@` inside brackets. A parser that Python would abort with an
 * exception (a bad integer, an unknown token, a missing part) gives None.
 */
module Fields {
  import opened Wrappers
  import opened Text
  import opened Operators
  import opened Triplets

  /**
   * `[parse(p) for p in pieces]`: every piece parsed, or None as soon as
   * one of them cannot be.
   */
  function ParseEach<T>(pieces: seq<string>, parse: string -> Option<T>): Option<seq<T>>
  {
    if pieces == [] then Some([])
    else
      match parse(pieces[0])
      case None => None
      case Some(x) =>
        match ParseEach(pieces[1..], parse)
        case None => None
        case Some(rest) => Some([x] + rest)
  }

  /**
   * The list parses exactly when every piece does, and then each value is
   * its piece's.
   */
  lemma {:induction false} ParseEachMeaning<T>(pieces: seq<string>, parse: string -> Option<T>)
    ensures ParseEach(pieces, parse).Some? <==> forall i :: 0 <= i < |pieces| ==> parse(pieces[i]).Some?
    ensures ParseEach(pieces, parse).Some? ==> |ParseEach(pieces, parse).value| == |pieces|
    ensures ParseEach(pieces, parse).Some? ==>
      forall i :: 0 <= i < |pieces| ==> parse(pieces[i]) == Some(ParseEach(pieces, parse).value[i])
  {
    if pieces != [] {
      ParseEachMeaning(pieces[1..], parse);
      if parse(pieces[0]).Some? && ParseEach(pieces[1..], parse).None? {
        var j :| 0 <= j < |pieces| - 1 && parse(pieces[1..][j]).None?;
        assert parse(pieces[j + 1]).None?;
      }
      if ParseEach(pieces, parse).Some? {
        forall i | 1 <= i < |pieces| ensures parse(pieces[i]) == Some(ParseEach(pieces, parse).value[i]) {
          assert pieces[i] == pieces[1..][i - 1];
        }
      }
    }
  }

  /** When every piece parses, the list parses to the pieces' values. */
  lemma {:induction false} ParseEachAll<T>(pieces: seq<string>, parse: string -> Option<T>, values: seq<T>)
    requires |values| == |pieces|
    requires forall i :: 0 <= i < |pieces| ==> parse(pieces[i]) == Some(values[i])
    ensures ParseEach(pieces, parse) == Some(values)
  {
    if pieces != [] {
      ParseEachAll(pieces[1..], parse, values[1..]);
      assert [values[0]] + values[1..] == values;
    }
  }

  lemma ParseEachCons<T>(p: string, pieces: seq<string>, parse: string -> Option<T>, x: T, values: seq<T>)
    requires parse(p) == Some(x) && ParseEach(pieces, parse) == Some(values)
    ensures ParseEach([p] + pieces, parse) == Some([x] + values)
  {
    assert ([p] + pieces)[0] == p && ([p] + pieces)[1..] == pieces;
  }

  /** `str(x)` for every element. */
  function ShowInts(xs: seq<int>): seq<string>
  {
    seq(|xs|, i requires 0 <= i < |xs| => ShowInt(xs[i]))
  }

  /** `str(elements)`: `[a, b, c]`, with a comma and a space between the elements. */
  function ShowElements(xs: seq<int>): string
  {
    "[" + Join(", ", ShowInts(xs)) + "]"
  }

  /** `[int(p) for p in s[1:-1].split(',')]`. */
  function ParseElements(s: string): Option<seq<int>>
  {
    ParseEach(Split(Inner(s), ','), ParseInt)
  }

  lemma ShowIntFree(x: int, c: char)
    requires c == ',' || c == '$' || c == '@' || c == '|' || c == '\U{000B}' || ('\U{001C}' <= c <= '\U{001F}')
    ensures c !in ShowInt(x)
  {
  }

  lemma ParseEachSingle<T>(p: string, parse: string -> Option<T>, x: T)
    requires parse(p) == Some(x)
    ensures ParseEach([p], parse) == Some([x])
  {
    assert [p][1..] == [];
    assert [x] + [] == [x];
  }

  lemma HeadTail<T>(xs: seq<T>)
    requires |xs| >= 1
    ensures [xs[0]] + xs[1..] == xs
  {
  }

  lemma Regroup(p: string, x: string, sp: string, t: string)
    ensures p + (x + ([','] + sp) + t) == (p + x) + [','] + (sp + t)
  {
  }

  /**
   * Pieces joined by a comma and `sp` (nothing or a space) and split again
   * at the commas are the pieces, each after the first led by `sp`; `p` is
   * the text before the first piece. When `parse` reads a piece with or
   * without a leading space, the list reads back as the pieces' values.
   */
  lemma {:induction false} CommaPieces<T>(ss: seq<string>, p: string, sp: string, parse: string -> Option<T>, values: seq<T>)
    requires |ss| >= 1 && |values| == |ss|
    requires p == "" || p == " "
    requires sp == "" || sp == " "
    requires forall i :: 0 <= i < |ss| ==> ',' !in ss[i]
    requires forall i :: 0 <= i < |ss| ==> parse(ss[i]) == Some(values[i]) && parse(" " + ss[i]) == Some(values[i])
    ensures ParseEach(Split(p + Join([','] + sp, ss), ','), parse) == Some(values)
  {
    var a := p + ss[0];
    assert p == "" ==> a == ss[0];
    if |ss| == 1 {
      SplitNoSeparator(a, ',');
      ParseEachSingle(a, parse, values[0]);
      assert [values[0]] == values;
    } else {
      var tail := Join([','] + sp, ss[1..]);
      Regroup(p, ss[0], sp, tail);
      var rest := sp + tail;
      SplitAppend(a, rest, ',');
      CommaPieces(ss[1..], sp, sp, parse, values[1..]);
      ParseEachCons(a, Split(rest, ','), parse, values[0], values[1..]);
      HeadTail(values);
    }
  }

  lemma InnerOf(a: string)
    ensures Inner("[" + a + "]") == a
  {
    assert ("[" + a + "]")[1..|a| + 1] == a;
  }

  /** The printed elements are read with or without a space after each comma. */
  lemma ElementsRead(xs: seq<int>, sp: string)
    requires |xs| >= 1
    requires sp == "" || sp == " "
    ensures ParseElements("[" + Join([','] + sp, ShowInts(xs)) + "]") == Some(xs)
  {
    var ss := ShowInts(xs);
    forall i | 0 <= i < |xs|
      ensures ',' !in ss[i] && ParseInt(ss[i]) == Some(xs[i]) && ParseInt(" " + ss[i]) == Some(xs[i])
    {
      ShowIntFree(xs[i], ',');
      ParseShowInt(xs[i]);
    }
    InnerOf(Join([','] + sp, ss));
    assert "" + Join([','] + sp, ss) == Join([','] + sp, ss);
    CommaPieces(ss, "", sp, ParseInt, xs);
  }

  /** Printing a non-empty list of elements and reading it back gives the list. */
  lemma ElementsRoundTrip(xs: seq<int>)
    requires |xs| >= 1
    ensures ParseElements(ShowElements(xs)) == Some(xs)
  {
    assert [','] + " " == ", ";
    ElementsRead(xs, " ");
  }

  /**
   * Elements typed without the space after each comma are read as well,
   * but printed back with it: with two elements or more, such text does not
   * survive a read and a print unchanged.
   */
  lemma ElementsSpacing(xs: seq<int>)
    requires |xs| >= 2
    ensures var unspaced := "[" + Join(",", ShowInts(xs)) + "]";
      ParseElements(unspaced) == Some(xs) && ShowElements(xs) != unspaced
  {
    var ss := ShowInts(xs);
    assert [','] + "" == ",";
    ElementsRead(xs, "");
    var k := |ss[0]| + 2;
    assert ss[1..][0] == ss[1];
    assert ss[1] != [] && ss[1][0] != ' ';
    assert ("[" + Join(", ", ss) + "]")[k] == ' ' by {
      assert Join(", ", ss) == ss[0] + ", " + Join(", ", ss[1..]);
    }
    assert ("[" + Join(",", ss) + "]")[k] == ss[1][0] by {
      assert Join(",", ss) == ss[0] + "," + Join(",", ss[1..]);
      assert Join(",", ss[1..]) == ss[1] || Join(",", ss[1..]) == ss[1] + "," + Join(",", ss[2..]);
    }
  }

  /** One triplet: `[mod1|token|mod2]`. */
  function ShowTriplet(t: RelationTriplet): string
  {
    "[" + t.mod1 + "|" + BinaryToken(t.relation) + "|" + t.mod2 + "]"
  }

  /** The triplets, each printed, joined by `@`. */
  function ShowTriplets(ts: seq<RelationTriplet>): string
  {
    Join("@", seq(|ts|, i requires 0 <= i < |ts| => ShowTriplet(ts[i])))
  }

  /**
   * One piece of the triplet field split at `|`: the first part without its
   * first character, the operator named by the second part, the third part
   * without its last character; further parts are ignored.
   */
  function ParseTriplet(piece: string): (r: Option<RelationTriplet>)
    ensures r.None? <==> |Split(piece, '|')| < 3 || forall op: BinaryRelation :: BinaryToken(op) != Split(piece, '|')[1]
    ensures r.Some? ==> BinaryToken(r.value.relation) == Split(piece, '|')[1]
    ensures r.Some? ==> r.value.mod1 == DropFirst(Split(piece, '|')[0]) && r.value.mod2 == DropLast(Split(piece, '|')[2])
  {
    var parts := Split(piece, '|');
    if |parts| < 3 then None
    else
      match ParseBinary(parts[1])
      case None => None
      case Some(rel) =>
        TokensRoundTrip(UnaryNot, rel);
        Some(RelationTriplet(DropFirst(parts[0]), rel, DropLast(parts[2])))
  }

  /** `[... for single_rel in field.split('@')]`. */
  function ParseTriplets(field: string): Option<seq<RelationTriplet>>
  {
    ParseEach(Split(field, '@'), ParseTriplet)
  }

  /** A triplet whose modifiers hold no `|` reads back from its printed form. */
  lemma TripletRoundTrip(t: RelationTriplet)
    requires '|' !in t.mod1 && '|' !in t.mod2
    ensures ParseTriplet(ShowTriplet(t)) == Some(t)
  {
    var token := BinaryToken(t.relation);
    TokensFreeOfDelimiters(UnaryNot, t.relation);
    var parts := ["[" + t.mod1, token, t.mod2 + "]"];
    assert Join("|", parts) == ShowTriplet(t) by {
      assert parts[1..] == [token, t.mod2 + "]"];
      assert parts[1..][1..] == [t.mod2 + "]"];
      assert Join("|", parts[1..]) == token + "|" + (t.mod2 + "]");
      assert Join("|", parts) == ("[" + t.mod1) + "|" + (token + "|" + (t.mod2 + "]"));
    }
    SplitJoin(parts, '|');
    TokensRoundTrip(UnaryNot, t.relation);
    assert DropFirst(parts[0]) == t.mod1;
    assert DropLast(parts[2]) == t.mod2;
  }

  /** Which characters a printed triplet can hold besides its modifiers'. */
  lemma ShowTripletFree(t: RelationTriplet, c: char)
    requires c == '@' || c == '$'
    requires c !in t.mod1 && c !in t.mod2
    ensures c !in ShowTriplet(t)
  {
    TokensFreeOfDelimiters(UnaryNot, t.relation);
  }

  /** Non-empty triplet lists whose modifiers hold no `|` or `@` read back from their printed form. */
  lemma TripletsRoundTrip(ts: seq<RelationTriplet>)
    requires |ts| >= 1
    requires forall i :: 0 <= i < |ts| ==> '|' !in ts[i].mod1 && '|' !in ts[i].mod2
    requires forall i :: 0 <= i < |ts| ==> '@' !in ts[i].mod1 && '@' !in ts[i].mod2
    ensures ParseTriplets(ShowTriplets(ts)) == Some(ts)
  {
    var shown := seq(|ts|, i requires 0 <= i < |ts| => ShowTriplet(ts[i]));
    forall i | 0 <= i < |ts|
      ensures '@' !in shown[i] && ParseTriplet(shown[i]) == Some(ts[i])
    {
      ShowTripletFree(ts[i], '@');
      TripletRoundTrip(ts[i]);
    }
    SplitJoin(shown, '@');
    ParseEachAll(shown, ParseTriplet, ts);
  }

  /** The unary modifiers: their tokens joined by `@` inside brackets. */
  function ShowUnaries(us: seq<UnaryRelation>): string
  {
    "[" + Join("@", seq(|us|, i requires 0 <= i < |us| => UnaryToken(us[i]))) + "]"
  }

  /** `[UnaryRelation(m) for m in field[1:-1].split('@')]`. */
  function ParseUnaries(field: string): Option<seq<UnaryRelation>>
  {
    ParseEach(Split(Inner(field), '@'), ParseUnary)
  }

  /** The connectives: their tokens joined by `@` inside brackets. */
  function ShowBinaries(ops: seq<BinaryRelation>): string
  {
    "[" + Join("@", seq(|ops|, i requires 0 <= i < |ops| => BinaryToken(ops[i]))) + "]"
  }

  /** `[BinaryRelation(m) for m in field[1:-1].split('@')]`. */
  function ParseBinaries(field: string): Option<seq<BinaryRelation>>
  {
    ParseEach(Split(Inner(field), '@'), ParseBinary)
  }

  lemma UnariesRoundTrip(us: seq<UnaryRelation>)
    requires |us| >= 1
    ensures ParseUnaries(ShowUnaries(us)) == Some(us)
  {
    var tokens := seq(|us|, i requires 0 <= i < |us| => UnaryToken(us[i]));
    forall i | 0 <= i < |us|
      ensures '@' !in tokens[i] && ParseUnary(tokens[i]) == Some(us[i])
    {
      TokensFreeOfDelimiters(us[i], Equal);
      TokensRoundTrip(us[i], Equal);
    }
    assert Inner(ShowUnaries(us)) == Join("@", tokens);
    SplitJoin(tokens, '@');
    ParseEachAll(tokens, ParseUnary, us);
  }

  lemma BinariesRoundTrip(ops: seq<BinaryRelation>)
    requires |ops| >= 1
    ensures ParseBinaries(ShowBinaries(ops)) == Some(ops)
  {
    var tokens := seq(|ops|, i requires 0 <= i < |ops| => BinaryToken(ops[i]));
    forall i | 0 <= i < |ops|
      ensures '@' !in tokens[i] && ParseBinary(tokens[i]) == Some(ops[i])
    {
      TokensFreeOfDelimiters(UnaryNot, ops[i]);
      TokensRoundTrip(UnaryNot, ops[i]);
    }
    assert Inner(ShowBinaries(ops)) == Join("@", tokens);
    SplitJoin(tokens, '@');
    ParseEachAll(tokens, ParseBinary, ops);
  }

  /**
   * An empty list prints as `[]` (or as nothing, for the triplets), and
   * that text does not parse: the one piece left is the empty string,
   * which is neither an integer, a triplet nor a token.
   */
  lemma EmptyListsRejected()
    ensures ShowElements([]) == "[]" && ParseElements("[]").None?
    ensures ShowTriplets([]) == "" && ParseTriplets("").None?
    ensures ShowUnaries([]) == "[]" && ParseUnaries("[]").None?
    ensures ShowBinaries([]) == "[]" && ParseBinaries("[]").None?
  {
    assert Inner("[]") == "";
    assert Split("", '|') == [""];
  }

  /** No printed field holds the `$` that separates the fields of a task. */
  lemma FieldsFreeOfDollar(xs: seq<int>, ts: seq<RelationTriplet>, us: seq<UnaryRelation>, ops: seq<BinaryRelation>)
    requires forall i :: 0 <= i < |ts| ==> '$' !in ts[i].mod1 && '$' !in ts[i].mod2
    ensures '$' !in ShowElements(xs) && '$' !in ShowTriplets(ts)
    ensures '$' !in ShowUnaries(us) && '$' !in ShowBinaries(ops)
  {
    var ints := ShowInts(xs);
    forall i | 0 <= i < |xs| ensures '$' !in ints[i] {
      ShowIntFree(xs[i], '$');
    }
    NotInJoin(", ", ints, '$');
    var shown := seq(|ts|, i requires 0 <= i < |ts| => ShowTriplet(ts[i]));
    forall i | 0 <= i < |ts| ensures '$' !in shown[i] {
      ShowTripletFree(ts[i], '$');
    }
    NotInJoin("@", shown, '$');
    var utokens := seq(|us|, i requires 0 <= i < |us| => UnaryToken(us[i]));
    forall i | 0 <= i < |us| ensures '$' !in utokens[i] {
      TokensFreeOfDelimiters(us[i], Equal);
    }
    NotInJoin("@", utokens, '$');
    var btokens := seq(|ops|, i requires 0 <= i < |ops| => BinaryToken(ops[i]));
    forall i | 0 <= i < |ops| ensures '$' !in btokens[i] {
      TokensFreeOfDelimiters(UnaryNot, ops[i]);
    }
    NotInJoin("@", btokens, '$');
  }

  /** Modifiers that the printed form carries unambiguously: no `|`, `@` or `$`. */
  predicate ModifiersPrintable(ts: seq<RelationTriplet>)
  {
    forall i :: 0 <= i < |ts| ==>
      '|' !in ts[i].mod1 && '|' !in ts[i].mod2 &&
      '@' !in ts[i].mod1 && '@' !in ts[i].mod2 &&
      '$' !in ts[i].mod1 && '$' !in ts[i].mod2
  }

  /** Each list field reads back as its list when the list is non-empty, and is rejected when it is empty. */
  lemma ListsReadBack(xs: seq<int>, ts: seq<RelationTriplet>, us: seq<UnaryRelation>, ops: seq<BinaryRelation>)
    requires ModifiersPrintable(ts)
    ensures ParseElements(ShowElements(xs)) == if |xs| >= 1 then Some(xs) else None
    ensures ParseTriplets(ShowTriplets(ts)) == if |ts| >= 1 then Some(ts) else None
    ensures ParseUnaries(ShowUnaries(us)) == if |us| >= 1 then Some(us) else None
    ensures ParseBinaries(ShowBinaries(ops)) == if |ops| >= 1 then Some(ops) else None
  {
    EmptyListsRejected();
    if |xs| >= 1 {
      ElementsRoundTrip(xs);
    }
    if |ts| >= 1 {
      TripletsRoundTrip(ts);
    }
    if |us| >= 1 {
      UnariesRoundTrip(us);
    }
    if |ops| >= 1 {
      BinariesRoundTrip(ops);
    }
  }

  /** Some piece of the triplet field names an operator that is not a token. */
  predicate HasUnknownOperator(field: string)
  {
    exists i :: 0 <= i < |Split(field, '@')| && |Split(Split(field, '@')[i], '|')| >= 3 &&
      forall op: BinaryRelation :: BinaryToken(op) != Split(Split(field, '@')[i], '|')[1]
  }

  /** Some piece of a bracketed list is not the token of a unary modifier. */
  predicate HasUnknownUnary(field: string)
  {
    exists i :: 0 <= i < |Split(Inner(field), '@')| &&
      forall u: UnaryRelation :: UnaryToken(u) != Split(Inner(field), '@')[i]
  }

  /** Some piece of a bracketed list is not the token of a binary relation. */
  predicate HasUnknownBinary(field: string)
  {
    exists i :: 0 <= i < |Split(Inner(field), '@')| &&
      forall op: BinaryRelation :: BinaryToken(op) != Split(Inner(field), '@')[i]
  }

  /** An unrecognised operator in any triplet makes the field fail, as the enum constructor raises. */
  lemma UnknownOperatorRejected(field: string)
    requires HasUnknownOperator(field)
    ensures ParseTriplets(field).None?
  {
    var pieces := Split(field, '@');
    ParseEachMeaning(pieces, ParseTriplet);
    var i :| 0 <= i < |pieces| && |Split(pieces[i], '|')| >= 3 &&
      forall op: BinaryRelation :: BinaryToken(op) != Split(pieces[i], '|')[1];
    assert ParseTriplet(pieces[i]).None?;
  }

  /** An unrecognised unary token makes the field fail. */
  lemma UnknownUnaryRejected(field: string)
    requires HasUnknownUnary(field)
    ensures ParseUnaries(field).None?
  {
    var pieces := Split(Inner(field), '@');
    ParseEachMeaning(pieces, ParseUnary);
    var i :| 0 <= i < |pieces| && forall u: UnaryRelation :: UnaryToken(u) != pieces[i];
    assert ParseUnary(pieces[i]).None?;
  }

  /** An unrecognised binary token makes the field fail. */
  lemma UnknownBinaryRejected(field: string)
    requires HasUnknownBinary(field)
    ensures ParseBinaries(field).None?
  {
    var pieces := Split(Inner(field), '@');
    ParseEachMeaning(pieces, ParseBinary);
    var i :| 0 <= i < |pieces| && forall op: BinaryRelation :: BinaryToken(op) != pieces[i];
    assert ParseBinary(pieces[i]).None?;
  }
}
