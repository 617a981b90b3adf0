/**
 * What `solve_for_xy`, `solve` and `print_solve` compute, stated against
 * independent reference readings: the marks are the checked triplets with
 * their modifiers applied, a folded range is the connectives read strictly
 * left to right, a single group behaves as a parenthesised sub-expression,
 * the matrix holds `solve_for_xy` of every pair, and the printed matrix is
 * its rows of `+`/`-` separated by single spaces, one row per line.
 */
module SolveFacts {
  import opened Wrappers
  import opened Text
  import opened Operators
  import opened Modifiers
  import opened Triplets
  import opened TaskFormat
  import opened MathTask

  /** Reference reading of `acc r0 m0 r1 m1 ...`, one connective at a time from the left. */
  function Chain(acc: bool, ms: seq<bool>, rs: seq<BinaryRelation>): bool
    requires |ms| == |rs|
    decreases |rs|
  {
    if rs == [] then acc else Chain(Combine(rs[0], acc, ms[0]), ms[1..], rs[1..])
  }

  lemma {:induction false} ChainSnoc(acc: bool, ms: seq<bool>, rs: seq<BinaryRelation>, x: bool, r: BinaryRelation)
    requires |ms| == |rs|
    ensures Chain(acc, ms + [x], rs + [r]) == Combine(r, Chain(acc, ms, rs), x)
    decreases |rs|
  {
    if rs != [] {
      assert (ms + [x])[1..] == ms[1..] + [x];
      assert (rs + [r])[1..] == rs[1..] + [r];
      ChainSnoc(Combine(rs[0], acc, ms[0]), ms[1..], rs[1..], x, r);
    } else {
      assert (ms + [x])[1..] == [] && (rs + [r])[1..] == [];
    }
  }

  /** Reading two stretches one after the other is reading their concatenation. */
  lemma {:induction false} ChainAppend(acc: bool, ms1: seq<bool>, rs1: seq<BinaryRelation>, ms2: seq<bool>, rs2: seq<BinaryRelation>)
    requires |ms1| == |rs1| && |ms2| == |rs2|
    ensures Chain(acc, ms1 + ms2, rs1 + rs2) == Chain(Chain(acc, ms1, rs1), ms2, rs2)
    decreases |rs1|
  {
    if rs1 != [] {
      assert (ms1 + ms2)[1..] == ms1[1..] + ms2;
      assert (rs1 + rs2)[1..] == rs1[1..] + rs2;
      ChainAppend(Combine(rs1[0], acc, ms1[0]), ms1[1..], rs1[1..], ms2, rs2);
    } else {
      assert ms1 + ms2 == ms2 && rs1 + rs2 == rs2;
    }
  }

  /**
   * The inner loop of a group, `res = rel[i](res, m[i+1])` for i in
   * [lo, hi), is the left-to-right reading of marks lo+1..hi with
   * connectives lo..hi-1.
   */
  lemma {:induction false} FoldRangeIsChain(acc: bool, m: seq<bool>, rels: seq<BinaryRelation>, lo: nat, hi: nat)
    requires lo <= hi <= |rels| && hi < |m|
    ensures FoldRange(acc, m, rels, lo, hi) == Chain(acc, m[lo + 1..hi + 1], rels[lo..hi])
    decreases hi
  {
    if hi > lo {
      FoldRangeIsChain(acc, m, rels, lo, hi - 1);
      ChainSnoc(acc, m[lo + 1..hi], rels[lo..hi - 1], m[hi], rels[hi - 1]);
      assert m[lo + 1..hi + 1] == m[lo + 1..hi] + [m[hi]];
      assert rels[lo..hi] == rels[lo..hi - 1] + [rels[hi - 1]];
    } else {
      assert m[lo + 1..hi + 1] == [] && rels[lo..hi] == [];
    }
  }

  /** Before the first group, the final pass is the plain fold from mark 0. */
  lemma {:induction false} FinalBeforeGroup(g: seq<bool>, rels: seq<BinaryRelation>, par: seq<(int, int)>, k: nat)
    requires k <= |rels| < |g|
    requires forall i :: 0 <= i < k ==> !InFirstGroup(par, i)
    ensures Final(g, rels, par, k) == FoldRange(g[0], g, rels, 0, k)
  {
    if k > 0 {
      FinalBeforeGroup(g, rels, par, k - 1);
    }
  }

  /** Inside the first group the final pass stands still. */
  lemma {:induction false} FinalInGroup(g: seq<bool>, rels: seq<BinaryRelation>, par: seq<(int, int)>, k: nat)
    requires par != [] && 0 <= par[0].0 <= k <= par[0].1 && k <= |rels| < |g|
    ensures Final(g, rels, par, k) == Final(g, rels, par, par[0].0)
  {
    if k > par[0].0 {
      FinalInGroup(g, rels, par, k - 1);
    }
  }

  /**
   * The final pass folds up to the first group's start, skips the
   * connectives inside it, and folds on from its end.
   */
  lemma {:induction false} FinalSkipsFirstGroup(g: seq<bool>, rels: seq<BinaryRelation>, par: seq<(int, int)>, k: nat)
    requires par != [] && 0 <= par[0].0 <= par[0].1 <= k <= |rels| < |g|
    ensures Final(g, rels, par, k) == FoldRange(FoldRange(g[0], g, rels, 0, par[0].0), g, rels, par[0].1, k)
  {
    var s, e := par[0].0, par[0].1;
    if k > e {
      FinalSkipsFirstGroup(g, rels, par, k - 1);
    } else {
      FinalInGroup(g, rels, par, k);
      FinalBeforeGroup(g, rels, par, s);
    }
  }

  /** `is_in_parenthesis` looks at the first pair only: later pairs never change the final pass. */
  lemma {:induction false} OnlyFirstPairDecides(g: seq<bool>, rels: seq<BinaryRelation>, par: seq<(int, int)>, k: nat)
    requires par != [] && k <= |rels| < |g|
    ensures Final(g, rels, par, k) == Final(g, rels, par[..1], k)
  {
    if k > 0 {
      OnlyFirstPairDecides(g, rels, par, k - 1);
      assert InFirstGroup(par, k - 1) == InFirstGroup(par[..1], k - 1);
    }
  }

  /** Pairs that all have empty ranges leave the marks as they are. */
  lemma {:induction false} EmptyRangesKeepMarks(m: seq<bool>, rels: seq<BinaryRelation>, par: seq<(int, int)>, k: nat)
    requires k <= |par| && |rels| < |m| && PairsInRange(par, |m|, |rels|)
    requires forall i :: 0 <= i < |par| ==> par[i].1 <= par[i].0
    ensures Grouped(m, rels, par, k) == m
  {
    if k > 0 {
      EmptyRangesKeepMarks(m, rels, par, k - 1);
      assert GroupEnd(par[k - 1]) == par[k - 1].0;
      assert m[par[k - 1].0 := m[par[k - 1].0]] == m;
    }
  }

  /** The marks for a pair are `Ok` exactly when every triplet checks without an error. */
  lemma {:induction false} MarksOk(d: TaskData, e1: int, e2: int, k: nat)
    requires k <= |d.triplets| <= |d.tripletModifiers| && Comparisons(d.triplets)
    ensures Marks(d, e1, e2, k).Ok? <==> forall i :: 0 <= i < k ==> Check(d.triplets[i], e1, e2).Ok?
  {
    if k > 0 {
      MarksOk(d, e1, e2, k - 1);
      MarksStep(d, e1, e2, k);
      if Marks(d, e1, e2, k).Ok? {
        forall i | 0 <= i < k
          ensures Check(d.triplets[i], e1, e2).Ok?
        {
          if i < k - 1 {
            assert Check(d.triplets[i], e1, e2).Ok?;
          }
        }
      } else if Marks(d, e1, e2, k - 1).Err? {
        var i :| 0 <= i < k - 1 && !Check(d.triplets[i], e1, e2).Ok?;
        assert 0 <= i < k;
      }
    }
  }

  /** When the marks exist, mark i is triplet i's comparison with modifier i applied. */
  lemma {:induction false} MarksValues(d: TaskData, e1: int, e2: int, k: nat)
    requires k <= |d.triplets| <= |d.tripletModifiers| && Comparisons(d.triplets)
    requires Marks(d, e1, e2, k).Ok?
    ensures forall i :: 0 <= i < k ==> (Check(d.triplets[i], e1, e2).Ok? &&
      Marks(d, e1, e2, k).value[i] == ApplyUnary(d.tripletModifiers[i], Check(d.triplets[i], e1, e2).value))
  {
    if k > 0 {
      MarksStep(d, e1, e2, k);
      MarksValues(d, e1, e2, k - 1);
      var p := Marks(d, e1, e2, k - 1).value;
      var r := Marks(d, e1, e2, k).value;
      forall i | 0 <= i < k
        ensures Check(d.triplets[i], e1, e2).Ok? &&
          r[i] == ApplyUnary(d.tripletModifiers[i], Check(d.triplets[i], e1, e2).value)
      {
        if i < k - 1 {
          assert r[i] == p[i];
        } else {
          var c := Check(d.triplets[k - 1], e1, e2);
          assert r == p + [ApplyUnary(d.tripletModifiers[k - 1], c.value)];
          assert r[i] == ApplyUnary(d.tripletModifiers[k - 1], c.value);
        }
      }
    }
  }

  lemma MarksStep(d: TaskData, e1: int, e2: int, k: nat)
    requires 0 < k <= |d.triplets| <= |d.tripletModifiers| && Comparisons(d.triplets)
    ensures Marks(d, e1, e2, k).Ok? <==> Marks(d, e1, e2, k - 1).Ok? && Check(d.triplets[k - 1], e1, e2).Ok?
    ensures Marks(d, e1, e2, k).Ok? ==> (Marks(d, e1, e2, k).value ==
      Marks(d, e1, e2, k - 1).value + [ApplyUnary(d.tripletModifiers[k - 1], Check(d.triplets[k - 1], e1, e2).value)])
    ensures Marks(d, e1, e2, k - 1).Err? ==> Marks(d, e1, e2, k) == Marks(d, e1, e2, k - 1)
    ensures Marks(d, e1, e2, k - 1).Ok? && Check(d.triplets[k - 1], e1, e2).Err? ==>
      Marks(d, e1, e2, k) == Err(Check(d.triplets[k - 1], e1, e2).error)
  {
  }

  /** The marks of a pair on which the task evaluates; they exist whenever the result does. */
  lemma SolveNeedsMarks(d: TaskData, e1: int, e2: int)
    requires Solvable(d)
    ensures SolveSpec(d, e1, e2).Ok? <==> Marks(d, e1, e2, |d.triplets|).Ok?
    ensures SolveSpec(d, e1, e2).Err? ==> SolveSpec(d, e1, e2).error == Marks(d, e1, e2, |d.triplets|).error
  {
  }

  /**
   * Without grouping pairs, `solve_for_xy` reads the marks and the
   * connectives strictly left to right; marks after the last connective
   * are checked but do not affect the result.
   */
  lemma NoGroupingIsChain(d: TaskData, e1: int, e2: int)
    requires Solvable(d) && d.parenthesis == []
    ensures SolveSpec(d, e1, e2).Ok? ==>
      var m := Marks(d, e1, e2, |d.triplets|).value;
      SolveSpec(d, e1, e2).value == Chain(m[0], m[1..|d.tripletsRel| + 1], d.tripletsRel)
  {
    if SolveSpec(d, e1, e2).Ok? {
      var m := Marks(d, e1, e2, |d.triplets|).value;
      var rels := d.tripletsRel;
      FinalBeforeGroup(m, rels, [], |rels|);
      FoldRangeIsChain(m[0], m, rels, 0, |rels|);
      assert rels[0..|rels|] == rels;
    }
  }

  /** Without connectives the result is the first mark, whatever the grouping pairs say. */
  lemma NoConnectivesGivesFirstMark(d: TaskData, e1: int, e2: int)
    requires Solvable(d) && d.tripletsRel == []
    ensures SolveSpec(d, e1, e2).Ok? ==> SolveSpec(d, e1, e2).value == Marks(d, e1, e2, |d.triplets|).value[0]
  {
    if SolveSpec(d, e1, e2).Ok? {
      var m := Marks(d, e1, e2, |d.triplets|).value;
      forall i | 0 <= i < |d.parenthesis|
        ensures d.parenthesis[i].1 <= d.parenthesis[i].0
      {
      }
      EmptyRangesKeepMarks(m, [], d.parenthesis, |d.parenthesis|);
    }
  }

  /**
   * The left-to-right reading of marks `m` and connectives `rels` in which
   * marks s..e and connectives s..e-1 are read first, as if parenthesised.
   */
  function Parenthesised(m: seq<bool>, rels: seq<BinaryRelation>, s: nat, e: nat): bool
    requires s < e <= |rels| < |m|
  {
    var v := Chain(m[s], m[s + 1..e + 1], rels[s..e]);
    var c := m[..s] + [v] + m[e + 1..|rels| + 1];
    Chain(c[0], c[1..], rels[..s] + rels[e..])
  }

  /**
   * With one grouping pair (s, e), `solve_for_xy` is the left-to-right
   * reading of the expression in which marks s..e and connectives s..e-1
   * are replaced by their own left-to-right value, as if parenthesised.
   */
  lemma OneGroupIsParenthesised(d: TaskData, e1: int, e2: int)
    requires Solvable(d) && |d.parenthesis| == 1 && d.parenthesis[0].0 < d.parenthesis[0].1
    ensures SolveSpec(d, e1, e2).Ok? ==>
      SolveSpec(d, e1, e2).value == Parenthesised(Marks(d, e1, e2, |d.triplets|).value, d.tripletsRel, d.parenthesis[0].0, d.parenthesis[0].1)
  {
    if SolveSpec(d, e1, e2).Ok? {
      OneGroupValue(Marks(d, e1, e2, |d.triplets|).value, d.tripletsRel, d.parenthesis);
    }
  }

  /** `OneGroupIsParenthesised` on the marks themselves. */
  lemma OneGroupValue(m: seq<bool>, rels: seq<BinaryRelation>, par: seq<(int, int)>)
    requires |rels| < |m| && |par| == 1 && PairsInRange(par, |m|, |rels|) && par[0].0 < par[0].1
    ensures Final(Grouped(m, rels, par, |par|), rels, par, |rels|) == Parenthesised(m, rels, par[0].0, par[0].1)
  {
    var s, e := par[0].0, par[0].1;
    assert GroupEnd(par[0]) == e;
    assert Grouped(m, rels, par, 1) == m[s := FoldRange(m[s], m, rels, s, e)];
    OneGroupTail(m, rels, par, s, e);
  }

  lemma OneGroupTail(m: seq<bool>, rels: seq<BinaryRelation>, par: seq<(int, int)>, s: nat, e: nat)
    requires |rels| < |m| && s < e <= |rels| && |par| == 1 && par[0] == (s, e)
    ensures Final(m[s := FoldRange(m[s], m, rels, s, e)], rels, par, |rels|) == Parenthesised(m, rels, s, e)
  {
    var v := FoldRange(m[s], m, rels, s, e);
    FoldRangeIsChain(m[s], m, rels, s, e);
    ParenthesisedPieces(m, rels, s, e, v);
    FinalAroundGroup(m[s := v], rels, par, s, e);
  }

  /** The parenthesised reading, as the final pass sees it once the group is collapsed into `v`. */
  lemma ParenthesisedPieces(m: seq<bool>, rels: seq<BinaryRelation>, s: nat, e: nat, v: bool)
    requires s < e <= |rels| < |m| && v == Chain(m[s], m[s + 1..e + 1], rels[s..e])
    ensures Parenthesised(m, rels, s, e) ==
      Chain(m[s := v][0], m[s := v][1..s + 1] + m[s := v][e + 1..|rels| + 1], rels[..s] + rels[e..])
  {
    CollapsedMarks(m, v, s, e, |rels|);
  }

  /** The final pass reads the marks before the first group, then those after it. */
  lemma FinalAroundGroup(g: seq<bool>, rels: seq<BinaryRelation>, par: seq<(int, int)>, s: nat, e: nat)
    requires |rels| < |g| && |par| == 1 && par[0] == (s, e) && s < e <= |rels|
    ensures Final(g, rels, par, |rels|) == Chain(g[0], g[1..s + 1] + g[e + 1..|rels| + 1], rels[..s] + rels[e..])
  {
    FinalSkipsFirstGroup(g, rels, par, |rels|);
    FoldAroundGroup(g, rels, s, e);
  }

  lemma FoldAroundGroup(g: seq<bool>, rels: seq<BinaryRelation>, s: nat, e: nat)
    requires |rels| < |g| && s < e <= |rels|
    ensures FoldRange(FoldRange(g[0], g, rels, 0, s), g, rels, e, |rels|) ==
      Chain(g[0], g[1..s + 1] + g[e + 1..|rels| + 1], rels[..s] + rels[e..])
  {
    var n := |rels|;
    var a := FoldRange(g[0], g, rels, 0, s);
    FoldPrefix(g[0], g, rels, s);
    FoldSuffix(a, g, rels, e);
    ChainAppend(g[0], g[1..s + 1], rels[..s], g[e + 1..n + 1], rels[e..]);
  }

  lemma FoldPrefix(acc: bool, m: seq<bool>, rels: seq<BinaryRelation>, hi: nat)
    requires hi <= |rels| < |m|
    ensures FoldRange(acc, m, rels, 0, hi) == Chain(acc, m[1..hi + 1], rels[..hi])
  {
    assert rels[0..hi] == rels[..hi];
    FoldRangeIsChain(acc, m, rels, 0, hi);
  }

  lemma FoldSuffix(acc: bool, m: seq<bool>, rels: seq<BinaryRelation>, lo: nat)
    requires lo <= |rels| < |m|
    ensures FoldRange(acc, m, rels, lo, |rels|) == Chain(acc, m[lo + 1..|rels| + 1], rels[lo..])
  {
    assert rels[lo..|rels|] == rels[lo..];
    FoldRangeIsChain(acc, m, rels, lo, |rels|);
  }

  /** The marks with s..e collapsed into `v`, as the pieces the final pass reads. */
  lemma CollapsedMarks(m: seq<bool>, v: bool, s: nat, e: nat, n: nat)
    requires s < e <= n < |m|
    ensures (m[..s] + [v] + m[e + 1..n + 1])[0] == m[s := v][0]
    ensures (m[..s] + [v] + m[e + 1..n + 1])[1..] == m[s := v][1..s + 1] + m[s := v][e + 1..n + 1]
  {
    var g := m[s := v];
    var c := m[..s] + [v] + m[e + 1..n + 1];
    assert g[e + 1..n + 1] == m[e + 1..n + 1];
    if s > 0 {
      assert g[1..s + 1] == m[1..s] + [v];
      assert c[1..] == m[1..s] + [v] + m[e + 1..n + 1];
    }
  }

  /**
   * Reference reading of a loop that stops at the first error: the values
   * of the results in order, or the first error among them.
   */
  function Collect<T>(rs: seq<Result<T, ModifierError>>): Result<seq<T>, ModifierError>
  {
    if rs == [] then Ok([])
    else
      match Collect(rs[..|rs| - 1])
      case Err(e) => Err(e)
      case Ok(vs) =>
        match rs[|rs| - 1]
        case Err(e) => Err(e)
        case Ok(v) => Ok(vs + [v])
  }

  /** Collecting succeeds exactly when every result is `Ok`. */
  lemma {:induction false} CollectOk<T>(rs: seq<Result<T, ModifierError>>)
    ensures Collect(rs).Ok? <==> forall k :: 0 <= k < |rs| ==> rs[k].Ok?
  {
    if rs != [] {
      var p := rs[..|rs| - 1];
      CollectOk(p);
      if Collect(rs).Ok? {
        forall k | 0 <= k < |rs|
          ensures rs[k].Ok?
        {
          if k < |rs| - 1 {
            assert rs[k] == p[k];
          }
        }
      } else if Collect(p).Ok? {
        assert !rs[|rs| - 1].Ok?;
      } else {
        var k :| 0 <= k < |p| && !p[k].Ok?;
        assert rs[k] == p[k];
      }
    }
  }

  /** What collecting gives: one value per result, in order. */
  lemma {:induction false} CollectValues<T>(rs: seq<Result<T, ModifierError>>)
    requires Collect(rs).Ok?
    ensures |Collect(rs).value| == |rs|
    ensures forall k :: 0 <= k < |rs| ==> rs[k] == Ok(Collect(rs).value[k])
  {
    if rs != [] {
      var p := rs[..|rs| - 1];
      CollectValues(p);
      var vs := Collect(rs).value;
      assert vs == Collect(p).value + [rs[|rs| - 1].value];
      forall k | 0 <= k < |rs|
        ensures rs[k] == Ok(vs[k])
      {
        if k < |rs| - 1 {
          assert rs[k] == p[k];
        }
      }
    }
  }

  /** The results `solve_for_xy(e1, elements[k])` for k < j. */
  function Entries(d: TaskData, e1: int, j: nat): (r: seq<Result<bool, ModifierError>>)
    requires Solvable(d) && j <= |d.elements|
    ensures |r| == j
  {
    if j == 0 then [] else Entries(d, e1, j - 1) + [SolveSpec(d, e1, d.elements[j - 1])]
  }

  lemma {:induction false} EntriesAt(d: TaskData, e1: int, j: nat)
    requires Solvable(d) && j <= |d.elements|
    ensures forall k :: 0 <= k < j ==> Entries(d, e1, j)[k] == SolveSpec(d, e1, d.elements[k])
  {
    if j > 0 {
      EntriesAt(d, e1, j - 1);
    }
  }

  /** The row of `e1` is the entries collected: their values, or the first error. */
  lemma {:induction false} RowIsCollect(d: TaskData, e1: int, j: nat)
    requires Solvable(d) && j <= |d.elements|
    ensures RowSpec(d, e1, j) == Collect(Entries(d, e1, j))
  {
    if j > 0 {
      RowIsCollect(d, e1, j - 1);
      assert Entries(d, e1, j)[..j - 1] == Entries(d, e1, j - 1);
    }
  }

  /** The row of `e1` is `Ok` exactly when every entry evaluates. */
  lemma RowOk(d: TaskData, e1: int, j: nat)
    requires Solvable(d) && j <= |d.elements|
    ensures RowSpec(d, e1, j).Ok? <==> forall k :: 0 <= k < j ==> SolveSpec(d, e1, d.elements[k]).Ok?
  {
    RowIsCollect(d, e1, j);
    CollectOk(Entries(d, e1, j));
    EntriesAt(d, e1, j);
  }

  /** When the row of `e1` evaluates, entry k is `solve_for_xy(e1, elements[k])`. */
  lemma RowValues(d: TaskData, e1: int, j: nat)
    requires Solvable(d) && j <= |d.elements| && RowSpec(d, e1, j).Ok?
    ensures |RowSpec(d, e1, j).value| == j
    ensures forall k :: 0 <= k < j ==> SolveSpec(d, e1, d.elements[k]) == Ok(RowSpec(d, e1, j).value[k])
  {
    RowIsCollect(d, e1, j);
    CollectValues(Entries(d, e1, j));
    EntriesAt(d, e1, j);
  }

  /** The rows of the first `i` elements, each a value or an error. */
  function Rows(d: TaskData, i: nat): (r: seq<Result<seq<bool>, ModifierError>>)
    requires Solvable(d) && i <= |d.elements|
    ensures |r| == i
  {
    if i == 0 then [] else Rows(d, i - 1) + [RowSpec(d, d.elements[i - 1], |d.elements|)]
  }

  lemma {:induction false} RowsAt(d: TaskData, i: nat)
    requires Solvable(d) && i <= |d.elements|
    ensures forall a :: 0 <= a < i ==> Rows(d, i)[a] == RowSpec(d, d.elements[a], |d.elements|)
  {
    if i > 0 {
      RowsAt(d, i - 1);
    }
  }

  /** The first `i` rows of the matrix are the rows collected: their values, or the first error. */
  lemma {:induction false} TableIsCollect(d: TaskData, i: nat)
    requires Solvable(d) && i <= |d.elements|
    ensures Table(d, i) == Collect(Rows(d, i))
  {
    if i > 0 {
      TableIsCollect(d, i - 1);
      assert Rows(d, i)[..i - 1] == Rows(d, i - 1);
    }
  }

  /** The first `i` rows are `Ok` exactly when each of them is. */
  lemma TableOk(d: TaskData, i: nat)
    requires Solvable(d) && i <= |d.elements|
    ensures Table(d, i).Ok? <==> forall a :: 0 <= a < i ==> RowSpec(d, d.elements[a], |d.elements|).Ok?
  {
    TableIsCollect(d, i);
    CollectOk(Rows(d, i));
    RowsAt(d, i);
  }

  /** When the first `i` rows evaluate, row a is the row of `elements[a]`. */
  lemma TableValues(d: TaskData, i: nat)
    requires Solvable(d) && i <= |d.elements| && Table(d, i).Ok?
    ensures |Table(d, i).value| == i
    ensures forall a :: 0 <= a < i ==> RowSpec(d, d.elements[a], |d.elements|) == Ok(Table(d, i).value[a])
  {
    TableIsCollect(d, i);
    CollectValues(Rows(d, i));
    RowsAt(d, i);
  }

  /**
   * `solve` succeeds exactly when every pair of elements evaluates, and
   * then returns the square matrix whose entry (a, b) is
   * `solve_for_xy(elements[a], elements[b])`.
   */
  lemma SolveAllMeaning(d: TaskData)
    requires CanSolve(d)
    ensures SolveAll(d).Ok? <==> forall a, b :: 0 <= a < |d.elements| && 0 <= b < |d.elements| ==>
      SolveSpec(d, d.elements[a], d.elements[b]).Ok?
    ensures SolveAll(d).Ok? ==> (|SolveAll(d).value| == |d.elements| &&
      forall a :: 0 <= a < |d.elements| ==> (|SolveAll(d).value[a]| == |d.elements| &&
        forall b :: 0 <= b < |d.elements| ==> SolveSpec(d, d.elements[a], d.elements[b]) == Ok(SolveAll(d).value[a][b])))
  {
    if |d.elements| > 0 {
      var n := |d.elements|;
      TableOk(d, n);
      if SolveAll(d).Ok? {
        TableValues(d, n);
      }
      forall a | 0 <= a < n
        ensures RowSpec(d, d.elements[a], n).Ok? <==> forall b :: 0 <= b < n ==> SolveSpec(d, d.elements[a], d.elements[b]).Ok?
        ensures RowSpec(d, d.elements[a], n).Ok? ==> (|RowSpec(d, d.elements[a], n).value| == n &&
          forall b :: 0 <= b < n ==> SolveSpec(d, d.elements[a], d.elements[b]) == Ok(RowSpec(d, d.elements[a], n).value[b]))
      {
        RowOk(d, d.elements[a], n);
        if RowSpec(d, d.elements[a], n).Ok? {
          RowValues(d, d.elements[a], n);
        }
      }
    }
  }

  /** With no elements `solve` returns the empty matrix, whatever the rest of the task holds. */
  lemma NoElementsEmptyMatrix(d: TaskData)
    requires d.elements == []
    ensures SolveAll(d) == Ok([])
  {
  }

  /**
   * The task documented with the five-field format: elements 12, 14, 15
   * and 26, the triplets `%10%3 <= /10%3` and `/10%3 >= %10%3`, `not`
   * before the first, `and` between them and the group (0, 1).
   */
  function ExampleTask(): TaskData
  {
    TaskData([12, 14, 15, 26],
             [RelationTriplet("%10%3", LessThanOrEqual, "/10%3"), RelationTriplet("/10%3", GreaterThanOrEqual, "%10%3")],
             [UnaryNot, UnaryNeutral], [LogicAnd], [(0, 1)])
  }

  /** The marks of two checked triplets are their results, each with its modifier applied. */
  lemma TwoMarks(d: TaskData, e1: int, e2: int, b0: bool, b1: bool)
    requires |d.triplets| == 2 <= |d.tripletModifiers| && Comparisons(d.triplets)
    requires Check(d.triplets[0], e1, e2) == Ok(b0) && Check(d.triplets[1], e1, e2) == Ok(b1)
    ensures Marks(d, e1, e2, 2) == Ok([ApplyUnary(d.tripletModifiers[0], b0), ApplyUnary(d.tripletModifiers[1], b1)])
  {
    var x0 := ApplyUnary(d.tripletModifiers[0], b0);
    var x1 := ApplyUnary(d.tripletModifiers[1], b1);
    assert Marks(d, e1, e2, 0) == Ok([]);
    assert [] + [x0] == [x0];
    assert Marks(d, e1, e2, 1) == Ok([x0]);
    assert [x0] + [x1] == [x0, x1];
  }

  /**
   * Two triplets joined by `and` and grouped as (0, 1): the result is the
   * first mark and the second mark.
   */
  lemma GroupedConjunction(d: TaskData, e1: int, e2: int, b0: bool, b1: bool)
    requires Solvable(d) && |d.triplets| == 2 && d.tripletsRel == [LogicAnd] && d.parenthesis == [(0, 1)]
    requires Check(d.triplets[0], e1, e2) == Ok(b0) && Check(d.triplets[1], e1, e2) == Ok(b1)
    ensures SolveSpec(d, e1, e2) == Ok(ApplyUnary(d.tripletModifiers[0], b0) && ApplyUnary(d.tripletModifiers[1], b1))
  {
    TwoMarks(d, e1, e2, b0, b1);
    var m := [ApplyUnary(d.tripletModifiers[0], b0), ApplyUnary(d.tripletModifiers[1], b1)];
    var g := Grouped(m, d.tripletsRel, d.parenthesis, 1);
    ConnectivesOnBools(m[0], m[1]);
    assert Grouped(m, d.tripletsRel, d.parenthesis, 0) == m;
    assert GroupEnd(d.parenthesis[0]) == 1;
    assert FoldRange(m[0], m, d.tripletsRel, 0, 0) == m[0];
    assert FoldRange(m[0], m, d.tripletsRel, 0, 1) == (m[0] && m[1]);
    assert g == [m[0] && m[1], m[1]];
    assert Final(g, d.tripletsRel, d.parenthesis, 1) == g[0];
  }

  /**
   * The example evaluated on the pair (12, 14): the first triplet fails
   * and is negated, the second holds, so the group `not T1 and T2` holds.
   */
  lemma ExampleSolve()
    ensures Solvable(ExampleTask())
    ensures SolveSpec(ExampleTask(), 12, 14) == Ok(true)
  {
    ExampleChecks();
    GroupedConjunction(ExampleTask(), 12, 14, false, true);
  }

  /** The example is well formed, and its triplets on the pair (12, 14) give false and true. */
  lemma ExampleChecks()
    ensures Solvable(ExampleTask())
    ensures Check(ExampleTask().triplets[0], 12, 14) == Ok(false)
    ensures Check(ExampleTask().triplets[1], 12, 14) == Ok(true)
  {
    var ts := ExampleTask().triplets;
    assert Comparisons(ts) by {
      assert ts[0].relation == LessThanOrEqual && ts[1].relation == GreaterThanOrEqual;
    }
    ExampleFirstTriplet();
    ExampleSecondTriplet();
  }

  /** The printed symbol of an entry. */
  function Symbol(b: bool): string
  {
    if b then "+" else "-"
  }

  /** The symbols of a row, entry by entry. */
  function Symbols(row: seq<bool>): (r: seq<string>)
    ensures |r| == |row| && forall i :: 0 <= i < |row| ==> r[i] == Symbol(row[i])
  {
    if row == [] then [] else Symbols(row[..|row| - 1]) + [Symbol(row[|row| - 1])]
  }

  /** A printed row: its symbols separated by single spaces. */
  function Line(row: seq<bool>): string
  {
    Join(" ", Symbols(row))
  }

  /** The intended printout: each row's line followed by a line separator. */
  function Grid(rows: seq<seq<bool>>): string
  {
    if rows == [] then "" else Grid(rows[..|rows| - 1]) + Line(rows[|rows| - 1]) + "\n"
  }

  /** The text a non-empty row adds is its line plus one trailing space. */
  lemma {:induction false} CellsLine(row: seq<bool>)
    requires row != []
    ensures Cells(row) == Line(row) + " "
    decreases |row|
  {
    var p, x := row[..|row| - 1], row[|row| - 1];
    assert Symbols(row) == Symbols(p) + [Symbol(x)];
    if p == [] {
      assert Symbols(row) == [Symbol(x)];
    } else {
      CellsLine(p);
      JoinAppend(" ", Symbols(p), [Symbol(x)]);
    }
  }

  lemma DropSpace(a: string, b: string)
    ensures DropLast(a + (b + " ")) == a + b
  {
    assert a + (b + " ") == (a + b) + " ";
  }

  /**
   * When no row is empty, `print_solve`'s text is the intended printout:
   * the trailing space of each row is what the slice `res[:-1]` drops.
   */
  lemma {:induction false} RenderIsGrid(rows: seq<seq<bool>>)
    requires forall i :: 0 <= i < |rows| ==> rows[i] != []
    ensures Render(rows) == Grid(rows)
    decreases |rows|
  {
    if rows != [] {
      var p, last := rows[..|rows| - 1], rows[|rows| - 1];
      assert Render(rows) == DropLast(Render(p) + Cells(last)) + "\n";
      assert Grid(rows) == Grid(p) + Line(last) + "\n";
      RenderIsGrid(p);
      CellsLine(last);
      DropSpace(Grid(p), Line(last));
    }
  }

  /** The matrix `solve` keeps always prints as the intended grid: every row has one entry per element. */
  lemma SolvedGrid(d: TaskData)
    requires CanSolve(d) && SolveAll(d).Ok?
    ensures Render(SolveAll(d).value) == Grid(SolveAll(d).value)
  {
    SolveAllMeaning(d);
    RenderIsGrid(SolveAll(d).value);
  }

  /** An empty row makes `res[:-1]` eat the previous row's line separator instead of a space. */
  lemma EmptyRowSwallowsSeparator()
    ensures Render([[true], []]) == "+\n"
  {
    assert Render([[true]]) == "+\n";
    assert [[true], []][..1] == [[true]];
  }
}
