/**
 * Evaluating a task of `MathBackend/Task.py` on pairs of elements. For a
 * pair (e1, e2) every triplet is checked and its unary modifier applied
 * (the marks); each grouping range (s, e) then folds marks s..e with
 * connectives s..e-1 into slot s; a final pass folds the marks left to
 * right with the connectives, skipping those inside the first group.
 * `solve` fills the adjacency matrix over all pairs of elements and keeps
 * it in the task; `print_solve` renders the kept matrix as `+`/`-` rows.
 */
module MathTask {
  import opened Wrappers
  import opened Text
  import opened Operators
  import opened Modifiers
  import opened Triplets
  import opened TaskFormat

  /** Every triplet relation is a comparison, so each check gives a bool. */
  predicate Comparisons(ts: seq<RelationTriplet>)
  {
    forall i :: 0 <= i < |ts| ==> ts[i].relation.IsComparison()
  }

  /**
   * Each grouping pair starts at a mark, and a non-empty range ends at a
   * connective: Python would otherwise wrap a negative index or raise.
   */
  predicate PairsInRange(par: seq<(int, int)>, marks: nat, rels: nat)
  {
    forall k :: 0 <= k < |par| ==> 0 <= par[k].0 < marks && (par[k].0 < par[k].1 ==> par[k].1 <= rels)
  }

  /**
   * What `solve_for_xy` needs of a task to run without an index error or a
   * rejected operand: a triplet to start from, a modifier per triplet, a
   * mark after every connective, comparisons in the triplets and grouping
   * pairs in range.
   */
  predicate Solvable(d: TaskData)
  {
    1 <= |d.triplets| <= |d.tripletModifiers| &&
    |d.tripletsRel| < |d.triplets| &&
    Comparisons(d.triplets) &&
    PairsInRange(d.parenthesis, |d.triplets|, |d.tripletsRel|)
  }

  /**
   * What `solve` needs: with no elements it never calls `solve_for_xy`
   * and returns the empty matrix whatever the rest of the task holds.
   */
  predicate CanSolve(d: TaskData)
  {
    |d.elements| > 0 ==> Solvable(d)
  }

  /**
   * The first `k` marks: triplet i checked on (e1, e2), then modifier i
   * applied. The first triplet whose check fails decides the error.
   */
  function Marks(d: TaskData, e1: int, e2: int, k: nat): (r: Result<seq<bool>, ModifierError>)
    requires k <= |d.triplets| <= |d.tripletModifiers| && Comparisons(d.triplets)
    ensures r.Ok? ==> |r.value| == k
  {
    if k == 0 then Ok([])
    else
      match Marks(d, e1, e2, k - 1)
      case Err(e) => Err(e)
      case Ok(m) =>
        match Check(d.triplets[k - 1], e1, e2)
        case Err(e) => Err(e)
        case Ok(b) => Ok(m + [ApplyUnary(d.tripletModifiers[k - 1], b)])
  }

  /** A connective applied to two marks. */
  function Combine(op: BinaryRelation, p: bool, q: bool): bool
  {
    ApplyBinary(op, Bool(p), Bool(q))
  }

  /**
   * `res` after `for i in range(lo, hi): res = rel[i](res, m[i+1])`,
   * starting from `acc`.
   */
  function FoldRange(acc: bool, m: seq<bool>, rels: seq<BinaryRelation>, lo: nat, hi: nat): bool
    requires lo <= hi < |m| && (lo < hi ==> hi <= |rels|)
    decreases hi
  {
    if hi == lo then acc
    else Combine(rels[hi - 1], FoldRange(acc, m, rels, lo, hi - 1), m[hi])
  }

  /** Where the inner loop of a group stops: an empty range stops where it starts. */
  function GroupEnd(p: (int, int)): int
  {
    if p.0 < p.1 then p.1 else p.0
  }

  /** The marks after the first `k` grouping pairs have been collapsed, in list order. */
  function Grouped(m: seq<bool>, rels: seq<BinaryRelation>, par: seq<(int, int)>, k: nat): (g: seq<bool>)
    requires k <= |par| && |rels| < |m| && PairsInRange(par, |m|, |rels|)
    ensures |g| == |m|
  {
    if k == 0 then m
    else
      var g := Grouped(m, rels, par, k - 1);
      var s := par[k - 1].0;
      g[s := FoldRange(g[s], g, rels, s, GroupEnd(par[k - 1]))]
  }

  /**
   * `is_in_parenthesis`: its loop returns on the first pair either way,
   * so only the first grouping pair is ever looked at.
   */
  predicate InFirstGroup(par: seq<(int, int)>, i: int)
  {
    |par| > 0 && par[0].0 <= i < par[0].1
  }

  /** The final pass over the first `k` connectives, skipping those in the first group. */
  function Final(g: seq<bool>, rels: seq<BinaryRelation>, par: seq<(int, int)>, k: nat): bool
    requires k <= |rels| < |g|
  {
    if k == 0 then g[0]
    else if InFirstGroup(par, k - 1) then Final(g, rels, par, k - 1)
    else Combine(rels[k - 1], Final(g, rels, par, k - 1), g[k])
  }

  /** `solve_for_xy(e1, e2)`: the marks, grouped, then folded. */
  function SolveSpec(d: TaskData, e1: int, e2: int): Result<bool, ModifierError>
    requires Solvable(d)
  {
    match Marks(d, e1, e2, |d.triplets|)
    case Err(e) => Err(e)
    case Ok(m) =>
      Ok(Final(Grouped(m, d.tripletsRel, d.parenthesis, |d.parenthesis|), d.tripletsRel, d.parenthesis, |d.tripletsRel|))
  }

  /** The first `j` entries of the matrix row of `e1`. */
  function RowSpec(d: TaskData, e1: int, j: nat): Result<seq<bool>, ModifierError>
    requires Solvable(d) && j <= |d.elements|
  {
    if j == 0 then Ok([])
    else
      match RowSpec(d, e1, j - 1)
      case Err(e) => Err(e)
      case Ok(row) =>
        match SolveSpec(d, e1, d.elements[j - 1])
        case Err(e) => Err(e)
        case Ok(b) => Ok(row + [b])
  }

  /** The first `i` rows of the matrix. */
  function Table(d: TaskData, i: nat): Result<seq<seq<bool>>, ModifierError>
    requires CanSolve(d) && i <= |d.elements|
  {
    if i == 0 then Ok([])
    else
      match Table(d, i - 1)
      case Err(e) => Err(e)
      case Ok(rows) =>
        match RowSpec(d, d.elements[i - 1], |d.elements|)
        case Err(e) => Err(e)
        case Ok(row) => Ok(rows + [row])
  }

  /** `solve()`: the whole matrix, or the first error in row-major order. */
  function SolveAll(d: TaskData): Result<seq<seq<bool>>, ModifierError>
    requires CanSolve(d)
  {
    Table(d, |d.elements|)
  }

  /** What one matrix entry adds to the printed text. */
  function Cell(b: bool): string
  {
    if b then "+ " else "- "
  }

  /** A row's entries, each followed by a space. */
  function Cells(row: seq<bool>): string
  {
    if row == [] then "" else Cells(row[..|row| - 1]) + Cell(row[|row| - 1])
  }

  /**
   * `print_solve`'s text for the rows: after each row the last character
   * is dropped and a line separator added.
   */
  function Render(rows: seq<seq<bool>>): string
  {
    if rows == [] then ""
    else DropLast(Render(rows[..|rows| - 1]) + Cells(rows[|rows| - 1])) + "\n"
  }

  lemma {:induction false} RowErrorStays(d: TaskData, e1: int, k: nat, n: nat)
    requires Solvable(d) && k <= n <= |d.elements| && RowSpec(d, e1, k).Err?
    ensures RowSpec(d, e1, n) == RowSpec(d, e1, k)
    decreases n
  {
    if n > k {
      RowErrorStays(d, e1, k, n - 1);
    }
  }

  lemma {:induction false} TableErrorStays(d: TaskData, k: nat, n: nat)
    requires Solvable(d) && k <= n <= |d.elements| && Table(d, k).Err?
    ensures Table(d, n) == Table(d, k)
    decreases n
  {
    if n > k {
      TableErrorStays(d, k, n - 1);
    }
  }

  /** One more entry of a row: the next `solve_for_xy` result appended, or its error. */
  lemma RowStep(d: TaskData, e1: int, j: nat, row: seq<bool>, x: Result<bool, ModifierError>)
    requires Solvable(d) && j < |d.elements| && RowSpec(d, e1, j) == Ok(row)
    requires x == SolveSpec(d, e1, d.elements[j])
    ensures x.Ok? ==> RowSpec(d, e1, j + 1) == Ok(row + [x.value])
    ensures x.Err? ==> RowSpec(d, e1, |d.elements|) == Err(x.error)
  {
    if x.Err? {
      RowErrorStays(d, e1, j + 1, |d.elements|);
    }
  }

  /** One more row of the table: the next row appended, or its error. */
  lemma TableStep(d: TaskData, i: nat, rows: seq<seq<bool>>, row: Result<seq<bool>, ModifierError>)
    requires Solvable(d) && i < |d.elements| && Table(d, i) == Ok(rows)
    requires row == RowSpec(d, d.elements[i], |d.elements|)
    ensures row.Ok? ==> Table(d, i + 1) == Ok(rows + [row.value])
    ensures row.Err? ==> Table(d, |d.elements|) == Err(row.error)
  {
    if row.Err? {
      TableErrorStays(d, i + 1, |d.elements|);
    }
  }

  /**
   * The grouping loop of `solve_for_xy`: for each pair (s, e) in turn,
   * slot s of the marks becomes the fold of marks s..e.
   */
  method CollapseGroups(marks: array<bool>, rels: seq<BinaryRelation>, par: seq<(int, int)>)
    requires |rels| < marks.Length && PairsInRange(par, marks.Length, |rels|)
    modifies marks
    ensures marks[..] == Grouped(old(marks[..]), rels, par, |par|)
  {
    ghost var m := marks[..];
    var k := 0;
    while k < |par|
      invariant 0 <= k <= |par|
      invariant marks[..] == Grouped(m, rels, par, k)
    {
      var s, e := par[k].0, par[k].1;
      ghost var before := marks[..];
      var res := marks[s];
      var j := s;
      while j < e
        invariant s <= j <= GroupEnd(par[k])
        invariant marks[..] == before
        invariant res == FoldRange(before[s], before, rels, s, j)
      {
        res := Combine(rels[j], res, marks[j + 1]);
        j := j + 1;
      }
      assert j == GroupEnd(par[k]);
      marks[s] := res;
      assert marks[..] == before[s := res];
      k := k + 1;
    }
  }

  /** A task and the matrix its last successful `solve` produced. */
  class Task {
    const data: TaskData
    var results: Option<seq<seq<bool>>>

    /** A new task has no results yet. */
    constructor (data: TaskData)
      ensures this.data == data && results == None
    {
      this.data := data;
      results := None;
    }

    /** `solve_for_xy`: the marks in an array, collapsed in place, then folded. */
    method SolveForXY(e1: int, e2: int) returns (r: Result<bool, ModifierError>)
      requires Solvable(data)
      ensures r == SolveSpec(data, e1, e2)
    {
      var n := |data.triplets|;
      var rels := data.tripletsRel;
      var par := data.parenthesis;
      var checked := Marks(data, e1, e2, n);
      if checked.Err? {
        return Err(checked.error);
      }
      ghost var m := checked.value;
      var marks := new bool[n];
      forall i | 0 <= i < n {
        marks[i] := checked.value[i];
      }
      assert marks[..] == m;
      CollapseGroups(marks, rels, par);
      var res := marks[0];
      var i := 0;
      while i < |rels|
        invariant 0 <= i <= |rels|
        invariant res == Final(marks[..], rels, par, i)
      {
        if !InFirstGroup(par, i) {
          res := Combine(rels[i], res, marks[i + 1]);
        }
        i := i + 1;
      }
      return Ok(res);
    }

    /** The inner loop of `solve`: the row of `e1`, one `solve_for_xy` per element. */
    method SolveRow(e1: int) returns (r: Result<seq<bool>, ModifierError>)
      requires Solvable(data)
      ensures r == RowSpec(data, e1, |data.elements|)
    {
      var n := |data.elements|;
      var row: seq<bool> := [];
      var j := 0;
      while j < n
        invariant j <= n && RowSpec(data, e1, j) == Ok(row)
      {
        var x := SolveForXY(e1, data.elements[j]);
        RowStep(data, e1, j, row, x);
        if x.Err? {
          return Err(x.error);
        }
        row := row + [x.value];
        j := j + 1;
      }
      return Ok(row);
    }

    /** The outer loop of `solve`: one row per element, stopping at the first error. */
    method SolveRows() returns (r: Result<seq<seq<bool>>, ModifierError>)
      requires CanSolve(data)
      ensures r == SolveAll(data)
    {
      var n := |data.elements|;
      var rows: seq<seq<bool>> := [];
      var i := 0;
      while i < n
        invariant i <= n && Table(data, i) == Ok(rows)
        invariant i < n ==> Solvable(data)
      {
        var row := SolveRow(data.elements[i]);
        TableStep(data, i, rows, row);
        if row.Err? {
          return Err(row.error);
        }
        rows := rows + [row.value];
        i := i + 1;
      }
      return Ok(rows);
    }

    /**
     * `solve`: every pair of elements, row by row; on success the matrix
     * is kept in `results`, and on an error `results` is left as it was.
     */
    method Solve() returns (r: Result<seq<seq<bool>>, ModifierError>)
      requires CanSolve(data)
      modifies this`results
      ensures r == SolveAll(data)
      ensures results == if r.Ok? then Some(r.value) else old(results)
    {
      r := SolveRows();
      if r.Ok? {
        results := Some(r.value);
      }
    }

    /** The inner loop of `print_solve`: a symbol and a space per entry of the row. */
    static method AppendCells(text: string, row: seq<bool>) returns (res: string)
      ensures res == text + Cells(row)
    {
      res := text;
      var j := 0;
      while j < |row|
        invariant 0 <= j <= |row|
        invariant res == text + Cells(row[..j])
      {
        res := res + Cell(row[j]);
        assert row[..j + 1][..j] == row[..j];
        j := j + 1;
      }
      assert row[..j] == row;
    }

    /** `print_solve`: None before a successful `solve`, else the rendered matrix. */
    method PrintSolve() returns (r: Option<string>)
      ensures r == if results.None? then None else Some(Render(results.value))
    {
      if results.None? {
        return None;
      }
      var rows := results.value;
      var res := "";
      var i := 0;
      while i < |rows|
        invariant 0 <= i <= |rows|
        invariant res == Render(rows[..i])
      {
        res := AppendCells(res, rows[i]);
        res := DropLast(res) + "\n";
        assert rows[..i + 1][..i] == rows[..i];
        i := i + 1;
      }
      assert rows[..i] == rows;
      return Some(res);
    }
  }
}
