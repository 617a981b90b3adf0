/**
 * The four-field task of `math_backend.py`: the elements, the triplets,
 * one unary modifier per triplet and the connectives between triplets,
 * printed as the four list fields joined by `$`.
 */
module MathBackend {
  import opened Wrappers
  import opened Text
  import opened Operators
  import opened Triplets
  import opened Fields

  datatype Task = Task(
    elements: seq<int>,
    triplets: seq<RelationTriplet>,
    tripletModifiers: seq<UnaryRelation>,
    tripletsRel: seq<BinaryRelation>)

  /** The four printed fields, in the order they are written. */
  function FieldsOf(t: Task): seq<string>
  {
    [ShowElements(t.elements), ShowTriplets(t.triplets), ShowUnaries(t.tripletModifiers), ShowBinaries(t.tripletsRel)]
  }

  /** `to_string`: the four fields joined by `$`. */
  function ToString(t: Task): string
  {
    Join("$", FieldsOf(t))
  }

  /** The first four fields parsed, in order; None as soon as one does not parse. */
  function FromFields(f: seq<string>): Option<Task>
    requires |f| >= 4
  {
    match (ParseElements(f[0]), ParseTriplets(f[1]), ParseUnaries(f[2]), ParseBinaries(f[3]))
    case (Some(xs), Some(ts), Some(us), Some(ops)) => Some(Task(xs, ts, us, ops))
    case _ => None
  }

  /**
   * `from_string`: the text split at `$`, the first four fields parsed and
   * any further field ignored. Python raises (None here) when there are
   * fewer than four fields or any of them does not parse.
   */
  function FromString(s: string): Option<Task>
  {
    var f := Split(s, '$');
    if |f| < 4 then None else FromFields(f)
  }

  /** The text is read exactly when it has four fields and each of them parses. */
  lemma FromStringMeaning(s: string)
    ensures var f := Split(s, '$');
      FromString(s).Some? <==>
        |f| >= 4 && ParseElements(f[0]).Some? && ParseTriplets(f[1]).Some? &&
        ParseUnaries(f[2]).Some? && ParseBinaries(f[3]).Some?
    ensures var f := Split(s, '$');
      FromString(s).Some? ==>
        FromString(s).value == Task(ParseElements(f[0]).value, ParseTriplets(f[1]).value,
                                    ParseUnaries(f[2]).value, ParseBinaries(f[3]).value)
  {
  }

  /**
   * With modifiers free of `$`, splitting the printed task at `$` gives
   * back exactly its four fields, in order.
   */
  lemma ToStringFields(t: Task)
    requires forall i :: 0 <= i < |t.triplets| ==> '$' !in t.triplets[i].mod1 && '$' !in t.triplets[i].mod2
    ensures Split(ToString(t), '$') == FieldsOf(t)
  {
    FieldsFreeOfDollar(t.elements, t.triplets, t.tripletModifiers, t.tripletsRel);
    var f := FieldsOf(t);
    assert forall i :: 0 <= i < |f| ==> '$' !in f[i];
    SplitJoin(f, '$');
  }

  /**
   * A printed task reads back as itself exactly when none of its four
   * lists is empty: an empty list prints as a field that does not parse.
   */
  lemma RoundTrip(t: Task)
    requires ModifiersPrintable(t.triplets)
    ensures FromString(ToString(t)) ==
      if |t.elements| >= 1 && |t.triplets| >= 1 && |t.tripletModifiers| >= 1 && |t.tripletsRel| >= 1 then Some(t) else None
  {
    ToStringFields(t);
    assert FromString(ToString(t)) == FromFields(FieldsOf(t));
    FieldsReadBack(t);
  }

  lemma FieldsReadBack(t: Task)
    requires ModifiersPrintable(t.triplets)
    ensures FromFields(FieldsOf(t)) ==
      if |t.elements| >= 1 && |t.triplets| >= 1 && |t.tripletModifiers| >= 1 && |t.tripletsRel| >= 1 then Some(t) else None
  {
    ListsReadBack(t.elements, t.triplets, t.tripletModifiers, t.tripletsRel);
  }


  /**
   * A task whose triplet field names an unknown operator, or whose
   * modifier or connective field holds an unknown token, is rejected.
   */
  lemma UnknownTokensRejected(s: string)
    requires |Split(s, '$')| >= 4
    requires HasUnknownOperator(Split(s, '$')[1]) || HasUnknownUnary(Split(s, '$')[2]) ||
             HasUnknownBinary(Split(s, '$')[3])
    ensures FromString(s).None?
  {
    var f := Split(s, '$');
    if HasUnknownOperator(f[1]) {
      UnknownOperatorRejected(f[1]);
    } else if HasUnknownUnary(f[2]) {
      UnknownUnaryRejected(f[2]);
    } else {
      UnknownBinaryRejected(f[3]);
    }
  }

  /** Text with fewer than four `$`-separated fields is rejected. */
  lemma TooFewFieldsRejected(s: string)
    requires |Split(s, '$')| < 4
    ensures FromString(s).None?
  {
  }

  /**
   * Fields after the fourth are ignored: a printed task followed by `$`
   * and anything reads as the task alone.
   */
  lemma ExtraFieldsIgnored(t: Task, extra: string)
    requires ModifiersPrintable(t.triplets)
    ensures FromString(ToString(t) + "$" + extra) == FromString(ToString(t))
  {
    var f := FieldsOf(t);
    FieldsFreeOfDollar(t.elements, t.triplets, t.tripletModifiers, t.tripletsRel);
    assert forall i :: 0 <= i < |f| ==> '$' !in f[i];
    SplitJoinThen(f, '$', extra);
    ToStringFields(t);
    assert (f + Split(extra, '$'))[..4] == f;
  }
}
