# Binary relation tasks

BinaryRelations is a teaching site. A student is given a *task* that
defines a binary relation on a small set of integers, and must build the
relation's adjacency matrix.

A task consists of:

- **elements**: a list of integers;
- **triplets**: each triplet is `mod1 R mod2`. It compares the first
  element of a pair, rewritten by the modifier chain `mod1` (such as
  `%10%3`), with the second element, rewritten by `mod2`. `R` is one of
  six comparisons;
- **unary modifiers**: `not` or nothing, one per triplet;
- **connectives**: `or`, `and` or `^`, placed between consecutive triplets;
- **grouping pairs** (five-field format only): the evaluator folds the
  triplets `s..e` of every pair `(s, e)` into triplet `s`. The final pass
  then skips the connectives of the first pair only. A single pair
  therefore reads its triplets as a parenthesised sub-expression. With
  several pairs, the connectives of the later groups are applied a second
  time.

The project models two files:

- `StudentSite/math_backend.py` holds the operator enumerations, the
  modifier evaluation (`get_modified`), triplet checking and printing, and
  the older four-field task text format.
- `StudentSite/MathBackend/Task.py` holds the five-field task, which adds
  the grouping list. It also holds the evaluator for one pair
  (`solve_for_xy`), the matrix computation that stores its result in the
  task (`solve`), and the `+`/`-` printout of the stored matrix
  (`print_solve`).

Module layout:

| file | module | content |
|---|---|---|
| `wrappers.dfy` | `Wrappers` | `Option` and `Result` |
| `text.dfy` | `Text` | Python's `split`, `join`, slices, `str(int)` and `int(str)` |
| `operators.dfy` | `Operators` | `UnaryRelation` and `BinaryRelation`, their tokens and how they apply |
| `modifiers.dfy` | `Modifiers` | modifier chains, their parser and `get_modified` |
| `triplets.dfy` | `Triplets` | `RelationTriplet.check` and `__str__` |
| `fields.dfy` | `Fields` | the four list fields that both formats share |
| `math_backend.dfy` | `MathBackend` | the four-field task and its text format |
| `task_format.dfy` | `TaskFormat` | the five-field task data and its text format |
| `task.dfy` | `MathTask` | the class `Task` with `results`, `solve_for_xy`, `solve`, `print_solve` |
| `solve_facts.dfy` | `SolveFacts` | what evaluation computes, stated against reference definitions |

Parsers return `None`, and evaluation returns `Err`, wherever Python
raises an exception, except for the cases listed under "Left out". Those
are the index errors of `solve_for_xy`, which are preconditions here, the
float overflow of true division, and Python's limit on the number of
digits converted between integers and text.

Two parts of the evaluation are imperative in the source and are methods
here:

- The grouping loop of `solve_for_xy` works on an array of marks that it
  updates in place.
- `solve` and `print_solve` run their loops on a `Task` object whose
  `results` field they set or read.

Each method is proved equal to a specification function: `Grouped`,
`SolveSpec`, `RowSpec`, `SolveAll` or `Render`. The lemmas in `SolveFacts`
then relate those functions to independent readings of the relation:

- `Chain` reads marks and connectives strictly from left to right.
- `Parenthesised` reads a group first.
- `Collect` describes a loop that stops at its first error.
- `Grid` is the intended printout.

## Model

| member | source | states |
|---|---|---|
| Text.Split | StudentSite/math_backend.py:121 | `str.split(c)` gives at least one piece, no piece holds `c`, and joining the pieces with `c` gives back the text |
| Text.SplitJoin | StudentSite/math_backend.py:142 | splitting a `c`-join of pieces free of `c` gives the pieces back |
| Text.SplitJoinThen | StudentSite/math_backend.py:121 | splitting a join followed by `c` and more text gives the pieces, then the pieces of the rest |
| Text.Inner | StudentSite/math_backend.py:122 | `s[1:-1]` is `s` without its first and last character, and is empty when `s` has fewer than two characters |
| Text.DropFirst | StudentSite/math_backend.py:124 | `s[1:]` is `s` without its first character, and is empty when `s` is |
| Text.DropLast | StudentSite/math_backend.py:124 | `s[:-1]` is `s` without its last character, and is empty when `s` is |
| Text.TrimLeftMeaning | StudentSite/math_backend.py:122 | the whitespace that `int()` skips: the left-trimmed text is a suffix, it starts with a non-space, and everything dropped is whitespace |
| Text.TrimRightMeaning | StudentSite/math_backend.py:122 | the same, mirrored for trailing whitespace |
| Text.ShowNat | StudentSite/math_backend.py:137 | `str(n)` is non-empty decimal digits without a leading zero, whose value is `n` |
| Text.ShowInt | StudentSite/math_backend.py:137 | `str(i)` is digits with an optional leading `-`; it ends in a digit and has no surrounding space |
| Text.ParseInt | StudentSite/math_backend.py:122 | `int()` succeeds only on text with a digit once trimmed |
| Text.ParseShowInt | StudentSite/math_backend.py:122 | `int(str(i)) == i`, also with the space that `str(list)` puts before an element |
| Text.Join | StudentSite/math_backend.py:138-142 | `sep.join(parts)`: the parts in order with `sep` between neighbours, nothing for no parts |
| Text.IsSpace | StudentSite/math_backend.py:122 | the characters `int()` skips around a number: space, tab, line feed, vertical tab, form feed and carriage return |
| Text.SeparatorNotSkipped | StudentSite/math_backend.py:122 | `int()` does not skip the separators 0x1C to 0x1F: text starting with one is rejected |
| Text.Trim | StudentSite/math_backend.py:122 | the text without the leading and trailing whitespace that `int()` skips |
| Text.IsLiteral | StudentSite/math_backend.py:70 | a Python decimal integer literal: digits, with no leading zero unless every digit is zero |
| Text.Unsigned | StudentSite/MathBackend/Task.py:53 | the text after one optional `-` or `+` sign, as Python reads a unary sign before a literal |
| Text.ShowIntLiteral | StudentSite/MathBackend/Task.py:53-67 | `str(i)` without its sign is always a Python literal, so printed grouping pairs are valid source |
| Operators.ParseUnary | StudentSite/math_backend.py:18-20 | `UnaryRelation(s)` gives the member whose value is `s`, and fails exactly when neither value is `s` |
| Operators.ParseBinary | StudentSite/math_backend.py:41-50 | `BinaryRelation(s)` gives the member whose value is `s`, and fails exactly when no value is `s` |
| Operators.UnaryToken | StudentSite/math_backend.py:18-20 | the `value` of each unary member: ` not ` for `not` and a single space for the neutral member |
| Operators.BinaryToken | StudentSite/math_backend.py:41-50 | the `value` of each binary member: the six comparisons and the three connectives, each between spaces |
| Operators.ApplyBinary | StudentSite/math_backend.py:52-55 | `apply_binary_relation`: the Python operator named by the member, on ints for comparisons and on bools for connectives |
| Operators.TokensRoundTrip | StudentSite/math_backend.py:34-35 | each member's token (`__str__` or `value`) reads back as that member |
| Operators.TokensInjective | StudentSite/math_backend.py:42-50 | different members have different tokens |
| Operators.TokenSpaced | StudentSite/math_backend.py:42-50 | every binary token begins and ends with a space |
| Operators.TokensFreeOfDelimiters | StudentSite/math_backend.py:12-13 | no token holds `$`, `@`, `\|` or `,` |
| Operators.ApplyUnary | StudentSite/math_backend.py:22-32 | `not` negates its argument and the neutral member returns it |
| Operators.NotIsInvolution | StudentSite/math_backend.py:29-30 | applying `not` twice gives the argument back |
| Operators.ComparisonsOnInts | StudentSite/math_backend.py:52-55 | on two ints, each comparison token evaluates as the integer comparison |
| Operators.ConnectivesOnBools | StudentSite/math_backend.py:52-55 | on two bools, `or`, `and` and `^` are disjunction, conjunction and exclusive or |
| Operators.ComparisonsOnBools | StudentSite/math_backend.py:52-55 | comparisons between bools order `False < True`, and `!=` coincides with `^` |
| Modifiers.DigitPrefix | StudentSite/math_backend.py:70 | the literal in a modifier ends at the first non-digit |
| Modifiers.ParseStep | StudentSite/math_backend.py:70 | one `%n` or `/n` step takes at least two characters and is not followed by a digit |
| Modifiers.ParseShowStep | StudentSite/math_backend.py:70 | a printed step reads back as itself |
| Modifiers.ParseShowChain | StudentSite/math_backend.py:70 | every chain reads back from its canonical text |
| Modifiers.ParseChainAppend | StudentSite/math_backend.py:70 | the text of two chains written one after the other reads as the first chain followed by the second |
| Modifiers.ParseChain | StudentSite/math_backend.py:69-71 | the modifiers that `eval` reads after an element here: any number of `%n` and `/n` steps with literal `n`, and nothing else |
| Modifiers.ModStepMeaning | StudentSite/math_backend.py:71 | `x % n` is Python's floored modulo: it lies in `[0, n)` and differs from `x` by a whole multiple of `n` |
| Modifiers.DivStepMeaning | StudentSite/math_backend.py:71 | `x / n` is true division: multiplying by `n` gives `x` back |
| Modifiers.ApplyStep | StudentSite/math_backend.py:71 | one step of the evaluated expression: Python's floored `%` or true division `/` on the value so far |
| Modifiers.EvalChain | StudentSite/math_backend.py:71 | the chain applied to the element left to right, as Python's left-associative `%` and `/` evaluate it |
| Modifiers.EvalChainAppend | StudentSite/math_backend.py:71 | a chain evaluates left to right: two chains in a row are the first applied, then the second |
| Modifiers.Trunc | StudentSite/math_backend.py:71 | `math.trunc` rounds toward zero, from below for non-negatives and from above for negatives |
| Modifiers.GetModified | StudentSite/math_backend.py:69-71 | `get_modified` fails as malformed exactly when the modifier is not a chain, and as a zero division exactly when a chain step has divisor 0 |
| Modifiers.EmptyModifier | StudentSite/math_backend.py:69-71 | an empty modifier leaves the element unchanged |
| Modifiers.ModifierLeftToRight | StudentSite/math_backend.py:69-71 | the modifier `a + b` is `a` applied, then `b`, truncated once at the end |
| Modifiers.ExampleChainsParse | StudentSite/math_backend.py:5-8 | the chains `%10%3` and `/10%3` of the example task parse as written |
| Modifiers.ModTenModThree | StudentSite/math_backend.py:5-8 | `%10%3` takes 12 to 2 and 14 to 1 |
| Modifiers.DivTenModThree | StudentSite/math_backend.py:5-8 | `/10%3` takes 14 to 1.4 and 12 to 1.2, before truncation |
| Modifiers.ExampleChains | StudentSite/math_backend.py:5-8 | `get_modified` on the example's chains and first two elements gives 2, 1, 1 and 1 |
| Modifiers.NegativeElementRounding | StudentSite/math_backend.py:69-71 | `-12 % 10` is 8 (floored), and `-7 / 2` truncates to -3 |
| Modifiers.ModifierErrors | StudentSite/math_backend.py:69-71 | `%0` is a zero division, and `%010` is not a valid Python literal |
| Triplets.Check | StudentSite/math_backend.py:80-83 | `check` succeeds exactly when both modifiers apply. It reports the first modifier's error when that fails, and otherwise the second's. Its value is the comparison of the two modified elements |
| Triplets.CheckUnmodified | StudentSite/math_backend.py:80-83 | with empty modifiers a triplet compares the elements themselves |
| Triplets.ExampleFirstTriplet | StudentSite/math_backend.py:5-7 | the example's first triplet is false on the pair (12, 14) |
| Triplets.ExampleSecondTriplet | StudentSite/math_backend.py:5-8 | the example's second triplet is true on the pair (12, 14) |
| Triplets.ChainHasNoSpace | StudentSite/math_backend.py:85-87 | a modifier chain holds no space |
| Triplets.Decompose | StudentSite/math_backend.py:85-87 | in `mod1 + token + mod2`, the first and last spaces locate the three parts |
| Triplets.PartsInjective | StudentSite/math_backend.py:85-87 | two space-free outer parts around space-delimited tokens are determined by their concatenation |
| Triplets.TripletStringInjective | StudentSite/math_backend.py:85-87 | when both modifiers are chains, the `__str__` text of a triplet determines the triplet |
| Triplets.TripletString | StudentSite/math_backend.py:85-87 | `__str__`: the first modifier, the relation's token and the second modifier, written together |
| Fields.ParseEachMeaning | StudentSite/math_backend.py:122-128 | a list comprehension of parses succeeds exactly when every piece parses, and then gives each piece's value in order |
| Fields.ParseEachAll | StudentSite/math_backend.py:122-128 | when every piece parses, the list is the pieces' values |
| Fields.CommaPieces | StudentSite/math_backend.py:122 | pieces joined by commas, with or without spaces, and split again read back as the pieces' values |
| Fields.ElementsRead | StudentSite/math_backend.py:122 | a bracketed comma list of `str(x)` reads back as the elements, with or without a space after each comma |
| Fields.ElementsRoundTrip | StudentSite/math_backend.py:122-137 | `str(elements)` reads back as a non-empty list of elements |
| Fields.ElementsSpacing | StudentSite/math_backend.py:122-137 | elements typed without spaces are read, but are printed back with spaces |
| Fields.ParseTriplet | StudentSite/math_backend.py:123-126 | a triplet piece fails exactly when it has fewer than three `\|` parts or its middle part is no token. Otherwise the relation is the one named by the middle part, and the modifiers are the first part without its first character and the third part without its last. Parts after the third are ignored |
| Fields.TripletRoundTrip | StudentSite/math_backend.py:123-139 | a printed triplet whose modifiers hold no `\|` reads back as itself |
| Fields.ShowTripletFree | StudentSite/math_backend.py:138 | a printed triplet holds `@` or `$` only where its modifiers do |
| Fields.TripletsRoundTrip | StudentSite/math_backend.py:123-139 | a non-empty triplet list whose modifiers hold no `\|` or `@` reads back from its field |
| Fields.UnariesRoundTrip | StudentSite/math_backend.py:127-140 | a non-empty list of unary modifiers reads back from its field |
| Fields.BinariesRoundTrip | StudentSite/math_backend.py:128-141 | a non-empty list of connectives reads back from its field |
| Fields.EmptyListsRejected | StudentSite/math_backend.py:122-141 | an empty list prints as `[]` (or as nothing, for the triplets), and that field does not parse |
| Fields.FieldsFreeOfDollar | StudentSite/math_backend.py:137-142 | no printed field holds `$` unless a modifier does |
| Fields.ListsReadBack | StudentSite/math_backend.py:122-141 | each list field reads back as its list exactly when the list is non-empty, and is rejected otherwise |
| Fields.UnknownOperatorRejected | StudentSite/math_backend.py:124 | an unknown operator in any triplet makes the triplet field fail |
| Fields.UnknownUnaryRejected | StudentSite/math_backend.py:127 | an unknown unary token makes the modifier field fail |
| Fields.UnknownBinaryRejected | StudentSite/math_backend.py:128 | an unknown connective token makes the connective field fail |
| Fields.ParseEach | StudentSite/math_backend.py:122-128 | a list comprehension of a parse over the pieces: fails when any piece fails |
| Fields.ShowInts | StudentSite/math_backend.py:137 | the elements as `str(x)` each |
| Fields.ShowElements | StudentSite/math_backend.py:137 | `str(elements)`: the elements between brackets, separated by a comma and a space |
| Fields.ParseElements | StudentSite/math_backend.py:122 | the elements field: drop the brackets, split at commas, `int()` each piece |
| Fields.ShowTriplet | StudentSite/math_backend.py:138 | one printed triplet: `[mod1\|token\|mod2]` |
| Fields.ShowTriplets | StudentSite/math_backend.py:138-139 | the triplet field: the printed triplets joined by `@` |
| Fields.ParseTriplets | StudentSite/math_backend.py:123-126 | the triplet field: split at `@`, split each piece at `\|`, and read modifiers and relation from the first three parts |
| Fields.ShowUnaries | StudentSite/math_backend.py:140 | the unary field: the tokens joined by `@`, between brackets |
| Fields.ParseUnaries | StudentSite/math_backend.py:127 | the unary field: drop the brackets, split at `@`, read each piece as a unary member |
| Fields.ShowBinaries | StudentSite/math_backend.py:141 | the connective field: the tokens joined by `@`, between brackets |
| Fields.ParseBinaries | StudentSite/math_backend.py:128 | the connective field: drop the brackets, split at `@`, read each piece as a binary member |
| Fields.ModifiersPrintable | StudentSite/math_backend.py:138 | triplets whose printed form reads back: no modifier holds `\|`, `@` or `$` |
| MathBackend.FromStringMeaning | StudentSite/math_backend.py:114-129 | `from_string` succeeds exactly when there are at least four `$` fields and each of the first four parses, and then gives their values |
| MathBackend.ToStringFields | StudentSite/math_backend.py:131-142 | the text printed by `to_string` splits at `$` into exactly its four fields |
| MathBackend.RoundTrip | StudentSite/math_backend.py:114-142 | `from_string(to_string(t))` is `t` exactly when all four lists are non-empty, and fails otherwise |
| MathBackend.FieldsReadBack | StudentSite/math_backend.py:122-142 | the four printed fields parse back to the task exactly when no list is empty |
| MathBackend.UnknownTokensRejected | StudentSite/math_backend.py:124-128 | an unknown operator or token in the triplet, modifier or connective field rejects the text |
| MathBackend.TooFewFieldsRejected | StudentSite/math_backend.py:121-128 | text with fewer than four `$` fields is rejected |
| MathBackend.ExtraFieldsIgnored | StudentSite/math_backend.py:121-128 | fields after the fourth are ignored |
| MathBackend.FieldsOf | StudentSite/math_backend.py:137-141 | the four printed fields of a task, in order |
| MathBackend.ToString | StudentSite/math_backend.py:131-142 | `to_string`: the four fields joined by `$` |
| MathBackend.FromFields | StudentSite/math_backend.py:122-128 | a task read from the first four fields, failing when any of them fails to parse |
| MathBackend.FromString | StudentSite/math_backend.py:114-129 | `from_string`: split at `$`, then read the first four fields; too few fields is an error, as Python's index error |
| TaskFormat.OpenRead | StudentSite/MathBackend/Task.py:53 | the piece `(a` of a printed pair reads as `a` |
| TaskFormat.CloseRead | StudentSite/MathBackend/Task.py:53 | the piece ` b)` of a printed pair reads as `b` |
| TaskFormat.SplitPairs | StudentSite/MathBackend/Task.py:53-67 | printed pairs split at commas give two pieces per pair |
| TaskFormat.PairsRead | StudentSite/MathBackend/Task.py:53-67 | printed pairs, with or without a leading space, read back as the pairs |
| TaskFormat.GroupingRoundTrip | StudentSite/MathBackend/Task.py:53-67 | every grouping list, the empty one included, reads back from `str(parenthesis)` |
| TaskFormat.PairsFree | StudentSite/MathBackend/Task.py:67 | printed pairs hold no `$`, `@` or `\|` |
| TaskFormat.ToStringFields | StudentSite/MathBackend/Task.py:56-68 | the text printed by `to_string` splits at `$` into exactly its five fields |
| TaskFormat.RoundTrip | StudentSite/MathBackend/Task.py:37-68 | `from_string(to_string(d))` is `d` exactly when the four operator and element lists are non-empty; the grouping list may be empty |
| TaskFormat.FieldsReadBack | StudentSite/MathBackend/Task.py:46-67 | the five printed fields parse back to the task exactly when the first four lists are non-empty |
| TaskFormat.NoConnectivesNotReadBack | StudentSite/MathBackend/Task.py:52-66 | a task with no connectives prints its connective field as `[]` and does not read back |
| TaskFormat.FourFieldReader | StudentSite/math_backend.py:114-129 | the four-field reader reads a five-field text as the task without its grouping |
| TaskFormat.ShowPair | StudentSite/MathBackend/Task.py:67 | `str((a, b))`: `(a, b)` |
| TaskFormat.ShowPairs | StudentSite/MathBackend/Task.py:67 | the printed pairs separated by a comma and a space |
| TaskFormat.ShowGrouping | StudentSite/MathBackend/Task.py:67 | `str(parenthesis)`: the printed pairs between brackets |
| TaskFormat.ParseLiteral | StudentSite/MathBackend/Task.py:53 | a number as `eval` reads it: an optional sign and a literal without a leading zero, with surrounding whitespace |
| TaskFormat.ParseOpen | StudentSite/MathBackend/Task.py:53 | the first half of a pair, `(a`, read as `a` |
| TaskFormat.ParseClose | StudentSite/MathBackend/Task.py:53 | the second half of a pair, ` b)`, read as `b` |
| TaskFormat.ParsePairs | StudentSite/MathBackend/Task.py:53 | comma-separated halves read two at a time as pairs; an odd count fails |
| TaskFormat.SourceText | StudentSite/MathBackend/Task.py:53 | a necessary condition for `eval` to accept the text as source: it holds no vertical tab and none of 0x1C to 0x1F, control characters that Python's tokenizer refuses |
| TaskFormat.ParseGrouping | StudentSite/MathBackend/Task.py:53 | `eval` of the grouping field in the form `str()` prints, after the leading spaces and tabs and the trailing whitespace that `eval` ignores; `[]` is the empty list |
| TaskFormat.ParseBracketed | StudentSite/MathBackend/Task.py:53 | the stripped field: brackets around nothing but whitespace read as no pairs, and brackets around pairs read as those pairs |
| TaskFormat.IsIndent | StudentSite/MathBackend/Task.py:53 | the characters `eval` strips from the front of its argument: space and tab |
| TaskFormat.Dedent | StudentSite/MathBackend/Task.py:53 | the text after its leading spaces and tabs: a suffix of the text that does not start with one |
| TaskFormat.PaddedGrouping | StudentSite/MathBackend/Task.py:53 | spaces and tabs before the field and whitespace other than the vertical tab after it do not change what the field reads as |
| TaskFormat.PaddedGroupingRoundTrip | StudentSite/MathBackend/Task.py:53-67 | a printed grouping list reads back with such padding, for example followed by the line end of a task read from a file |
| TaskFormat.LeadingZeroOpen | StudentSite/MathBackend/Task.py:53 | a pair half `(w` is rejected when `w` is digits with a leading zero and not all zeros, such as `01` or `010` |
| TaskFormat.FirstOpenRejected | StudentSite/MathBackend/Task.py:53 | a grouping field whose first pair cannot be opened is rejected, however many pairs follow |
| TaskFormat.LeadingZeroRejected | StudentSite/MathBackend/Task.py:53 | a grouping field such as `[(01, 1)]` or `[(010, 1)]` is rejected, as `eval` raises on a leading zero |
| TaskFormat.FieldsOf | StudentSite/MathBackend/Task.py:62-67 | the five printed fields of a task, in order |
| TaskFormat.ToString | StudentSite/MathBackend/Task.py:56-68 | `to_string`: the five fields joined by `$` |
| TaskFormat.FromFields | StudentSite/MathBackend/Task.py:46-53 | a task read from the first five fields, failing when any of them fails to parse |
| TaskFormat.FromString | StudentSite/MathBackend/Task.py:37-54 | `from_string`: split at `$`, then read the first five fields; too few fields is an error |
| MathTask.Marks | StudentSite/MathBackend/Task.py:78-79 | when the marks exist there is one per triplet |
| MathTask.Grouped | StudentSite/MathBackend/Task.py:87-91 | collapsing groups keeps the number of marks |
| MathTask.RowErrorStays | StudentSite/MathBackend/Task.py:106-109 | once a row hits an error, the rest of the row keeps that error |
| MathTask.TableErrorStays | StudentSite/MathBackend/Task.py:105-110 | once a row fails, the matrix keeps that error |
| MathTask.RowStep | StudentSite/MathBackend/Task.py:108-109 | one more entry appends the next `solve_for_xy` result, or ends the row with its error |
| MathTask.TableStep | StudentSite/MathBackend/Task.py:106-110 | one more row appends the next row, or ends the matrix with its error |
| MathTask.CollapseGroups | StudentSite/MathBackend/Task.py:87-91 | the in-place grouping loop leaves the array as the marks collapsed pair by pair, in list order |
| MathTask.Comparisons | StudentSite/MathBackend/Task.py:78 | every triplet relation is a comparison, so each check yields a bool |
| MathTask.PairsInRange | StudentSite/MathBackend/Task.py:87-91 | every grouping pair starts at a mark, and a non-empty range ends at a connective |
| MathTask.Solvable | StudentSite/MathBackend/Task.py:78-96 | what `solve_for_xy` needs to run without an index error: at least one triplet, a modifier per triplet, a mark after each connective, comparisons in the triplets and grouping pairs in range |
| MathTask.CanSolve | StudentSite/MathBackend/Task.py:105-110 | what `solve` needs: nothing when there are no elements, otherwise what `solve_for_xy` needs |
| MathTask.Combine | StudentSite/MathBackend/Task.py:90 | a connective applied to two marks |
| MathTask.FoldRange | StudentSite/MathBackend/Task.py:88-90 | the inner loop of one group: marks folded with connectives from `lo` up to `hi` |
| MathTask.GroupEnd | StudentSite/MathBackend/Task.py:89 | where a pair's inner loop stops: its second number, or its start for an empty range |
| MathTask.InFirstGroup | StudentSite/MathBackend/Task.py:81-85 | `is_in_parenthesis`: whether a connective index lies inside the first pair, the only pair the loop looks at |
| MathTask.Final | StudentSite/MathBackend/Task.py:93-96 | the final pass: fold from mark 0, skipping the connectives that `is_in_parenthesis` accepts |
| MathTask.SolveSpec | StudentSite/MathBackend/Task.py:70-98 | `solve_for_xy` as a function: the marks, collapsed by group, then the final pass, or the first check's error |
| MathTask.RowSpec | StudentSite/MathBackend/Task.py:107-109 | the first `j` entries of the row of `e1`, or the first error among them |
| MathTask.Table | StudentSite/MathBackend/Task.py:105-110 | the first `i` rows of the matrix, or the first error among them |
| MathTask.SolveAll | StudentSite/MathBackend/Task.py:100-112 | the matrix that `solve` returns: all rows, or the first error |
| MathTask.Cell | StudentSite/MathBackend/Task.py:124-127 | the symbol of one entry: `+ ` for true, `- ` for false |
| MathTask.Cells | StudentSite/MathBackend/Task.py:123-127 | the symbols of a row, one after the other |
| MathTask.Render | StudentSite/MathBackend/Task.py:119-129 | the printout: after each row's symbols, the last character of the text so far is dropped and a line separator added |
| MathTask.Task.constructor | StudentSite/MathBackend/Task.py:8-28 | a new task holds its data and has no results |
| MathTask.Task.SolveForXY | StudentSite/MathBackend/Task.py:70-98 | `solve_for_xy` gives the specified value: the marks, collapsed by group, then folded with the first group's connectives skipped |
| MathTask.Task.SolveRow | StudentSite/MathBackend/Task.py:107-110 | the inner loop of `solve` gives the row of `e1`, or the first error in it |
| MathTask.Task.SolveRows | StudentSite/MathBackend/Task.py:105-110 | the outer loop of `solve` gives the whole matrix, or the first error in row-major order. With no elements it gives `[]` whatever the rest of the task holds |
| MathTask.Task.Solve | StudentSite/MathBackend/Task.py:100-112 | `solve` returns the matrix and stores it in `results`; on an error `results` is unchanged. With no elements it stores `[]` whatever the rest of the task holds |
| MathTask.Task.AppendCells | StudentSite/MathBackend/Task.py:123-127 | the inner loop of `print_solve` appends a `+ ` or `- ` per entry |
| MathTask.Task.PrintSolve | StudentSite/MathBackend/Task.py:114-129 | `print_solve` returns nothing before a successful `solve`, and otherwise the rendered stored matrix |
| SolveFacts.ChainSnoc | StudentSite/MathBackend/Task.py:93-96 | the left-to-right reading extended by one connective and mark is that connective applied to the reading so far |
| SolveFacts.ChainAppend | StudentSite/MathBackend/Task.py:93-96 | reading two stretches in turn is reading their concatenation |
| SolveFacts.FoldRangeIsChain | StudentSite/MathBackend/Task.py:88-90 | the inner loop of a group is the left-to-right reading of marks `s+1..e` with connectives `s..e-1` |
| SolveFacts.FinalBeforeGroup | StudentSite/MathBackend/Task.py:93-96 | before the first group, the final pass is the plain fold from mark 0 |
| SolveFacts.FinalInGroup | StudentSite/MathBackend/Task.py:93-96 | inside the first group the final pass does not change its value |
| SolveFacts.FinalSkipsFirstGroup | StudentSite/MathBackend/Task.py:81-96 | the final pass folds up to the first group, skips its connectives, and folds on from its end |
| SolveFacts.OnlyFirstPairDecides | StudentSite/MathBackend/Task.py:81-85 | `is_in_parenthesis` looks only at the first pair: dropping later pairs leaves the final pass unchanged |
| SolveFacts.EmptyRangesKeepMarks | StudentSite/MathBackend/Task.py:87-91 | pairs whose ranges are all empty leave the marks as they were |
| SolveFacts.MarksOk | StudentSite/MathBackend/Task.py:78-79 | the marks exist exactly when every triplet checks without an error |
| SolveFacts.MarksValues | StudentSite/MathBackend/Task.py:78-79 | mark `i` is triplet `i`'s check on `(e1, e2)` with modifier `i` applied |
| SolveFacts.MarksStep | StudentSite/MathBackend/Task.py:78-79 | one more mark is the next triplet's result; the first failing triplet decides the error |
| SolveFacts.SolveNeedsMarks | StudentSite/MathBackend/Task.py:70-98 | `solve_for_xy` succeeds exactly when the marks do, and fails with their error |
| SolveFacts.NoGroupingIsChain | StudentSite/MathBackend/Task.py:70-98 | without grouping pairs the result is the strict left-to-right reading of the marks and connectives |
| SolveFacts.NoConnectivesGivesFirstMark | StudentSite/MathBackend/Task.py:87-98 | without connectives the result is the first mark, whatever the grouping says |
| SolveFacts.OneGroupIsParenthesised | StudentSite/MathBackend/Task.py:70-98 | with one non-empty group `(s, e)` the result is the reading in which marks `s..e` are evaluated first, as if parenthesised |
| SolveFacts.OneGroupValue | StudentSite/MathBackend/Task.py:87-96 | on the marks themselves: grouping, then the final pass, equals the parenthesised reading |
| SolveFacts.FinalAroundGroup | StudentSite/MathBackend/Task.py:93-96 | with one group, the final pass reads the marks before the group, then those after it |
| SolveFacts.CollectOk | StudentSite/MathBackend/Task.py:105-110 | a loop that stops at its first error succeeds exactly when every step does |
| SolveFacts.CollectValues | StudentSite/MathBackend/Task.py:105-110 | when it succeeds, it gives one value per step, in order |
| SolveFacts.RowIsCollect | StudentSite/MathBackend/Task.py:107-109 | the row of `e1` is the `solve_for_xy` results collected |
| SolveFacts.RowOk | StudentSite/MathBackend/Task.py:107-109 | the row of `e1` exists exactly when every entry evaluates |
| SolveFacts.RowValues | StudentSite/MathBackend/Task.py:107-109 | entry `k` of the row of `e1` is `solve_for_xy(e1, elements[k])` |
| SolveFacts.TableIsCollect | StudentSite/MathBackend/Task.py:105-110 | the matrix is its rows collected |
| SolveFacts.TableOk | StudentSite/MathBackend/Task.py:105-110 | the matrix exists exactly when every row does |
| SolveFacts.TableValues | StudentSite/MathBackend/Task.py:105-110 | row `a` of the matrix is the row of `elements[a]` |
| SolveFacts.SolveAllMeaning | StudentSite/MathBackend/Task.py:100-112 | `solve` on a task that `CanSolve` succeeds exactly when every pair of elements evaluates. It then returns the square matrix whose entry `(a, b)` is `solve_for_xy(elements[a], elements[b])` |
| SolveFacts.CellsLine | StudentSite/MathBackend/Task.py:122-127 | the text added for a non-empty row is its symbols separated by single spaces, plus one trailing space |
| SolveFacts.RenderIsGrid | StudentSite/MathBackend/Task.py:119-129 | when no row is empty, the printout is one line per row, each holding the row's symbols separated by single spaces |
| SolveFacts.SolvedGrid | StudentSite/MathBackend/Task.py:100-129 | a matrix that `solve` returns, the empty one included, always prints as that grid |
| SolveFacts.EmptyRowSwallowsSeparator | StudentSite/MathBackend/Task.py:128 | an empty row makes `res[:-1]` drop the previous line separator instead of a space |
| SolveFacts.Chain | StudentSite/MathBackend/Task.py:93-96 | reference reading: marks and connectives folded strictly left to right |
| SolveFacts.Parenthesised | StudentSite/MathBackend/Task.py:87-96 | reference reading in which marks `s..e` are evaluated first, as if parenthesised |
| SolveFacts.Collect | StudentSite/MathBackend/Task.py:105-110 | reference loop that collects results and stops at the first error |
| SolveFacts.Symbol | StudentSite/MathBackend/Task.py:124-127 | reference symbol of an entry: `+` or `-` |
| SolveFacts.Line | StudentSite/MathBackend/Task.py:119-129 | reference line: the row's symbols separated by single spaces |
| SolveFacts.Grid | StudentSite/MathBackend/Task.py:119-129 | reference printout: one line per row, each ended by a line separator |
| SolveFacts.NoElementsEmptyMatrix | StudentSite/MathBackend/Task.py:100-112 | with no elements `solve` gives the empty matrix, whatever the triplets, modifiers, connectives and grouping |
| SolveFacts.ExampleTask | StudentSite/MathBackend/Task.py:42 | the task given as the format example: elements 12, 14, 15, 26, two triplets, `not` on the first, `and`, and the group `(0, 1)` |
| SolveFacts.ExampleChecks | StudentSite/MathBackend/Task.py:42-79 | the example task is solvable, and on (12, 14) its first triplet is false and its second true |
| SolveFacts.TwoMarks | StudentSite/MathBackend/Task.py:78-79 | with two triplets the marks are the two checks with their unary modifiers applied |
| SolveFacts.GroupedConjunction | StudentSite/MathBackend/Task.py:70-98 | two triplets joined by `and` in the group `(0, 1)` give the conjunction of the two marks |
| SolveFacts.ExampleSolve | StudentSite/MathBackend/Task.py:42-98 | `solve_for_xy(12, 14)` on the example task is true: not false, and true |

## Left out

- Python `eval` on general text is not modelled. A modifier is read by a parser for chains of `%n` and `/n` steps, where `n` is a Python decimal literal. Any other modifier is rejected as malformed, even one that Python's `eval` would accept.
- The grouping field (`Task.py:53`) is read only in the form `str()` prints, `[(a, b), ...]`. Spacing inside the brackets may vary, and each number may carry one sign. Before the field, spaces and tabs are skipped, as `eval` skips them. After it, whitespace other than the vertical tab is skipped. Other leading whitespace, such as a line feed, is not read. Each number must be a Python literal, so `[(01, 1)]` is rejected as `eval` rejects it. Other Python expressions that `eval` accepts, such as `[(- 1, 2)]` or `[[0, 1]]`, are not read.
- Floating point is replaced by exact reals. For large elements or long chains, IEEE rounding can differ from the exact value before `math.trunc`.
- Modifiers.GetModified: a quotient beyond the float range gets its exact value. Python's true division raises `OverflowError` there, for example on the element `10**400` with the modifier `/3`. The exact-real model has no float range to exceed.
- `int()` is modelled for ASCII digits, one optional sign and the ASCII whitespace it skips: space, tab, line feed, vertical tab, form feed and carriage return. Underscores, non-ASCII digits and non-ASCII whitespace are not modelled.
- Python limits conversion between integers and text to 4300 digits, and raises `ValueError` beyond it. This affects `int()` in `from_string`, `str(elements)` in `to_string`, `str(element)` in `get_modified` (`math_backend.py:70`), and `eval` of a literal that long. `Text.ParseInt`, `Text.ShowInt`, `Fields.ShowElements`, `TaskFormat.ParseLiteral` and `Modifiers.GetModified` have no such limit, and succeed on integers of any length.
- The `requires_bool` and `requires_int_or_bool` decorators are modelled as preconditions: `ApplyBinary` requires bool operands for connectives, and `Solvable` requires comparison operators in triplets. `StudentSite/decorators.py` is not part of this model.
- Triplets.Check: requires a comparison relation. A connective inside a triplet, which Python applies to the modified integers as `or`, `and` or bitwise `^`, is not modelled.
- Index errors in `solve_for_xy` are excluded by the `Solvable` precondition rather than modelled as errors. These are:
  - an empty triplet list (`triplets[0]`, `Task.py:93`);
  - too few modifiers;
  - a connective with no mark after it;
  - a grouping pair outside the marks.

  Python's wrap-around of negative indices is excluded the same way. `solve` with no elements never calls `solve_for_xy`. It is modelled without these conditions (`CanSolve`, `NoElementsEmptyMatrix`).
- `os.linesep` is fixed to `"\n"`.
- The `solve_for_xy`, `solve` and `print_solve` of `StudentSite/math_backend.py:144-183` are not modelled. They are an older copy that `StudentSite/MathBackend/Task.py` supersedes.
- The modules `RelationTriplet`, `UnaryRelation` and `BinaryRelation` that `Task.py` imports are not part of this model. Their namesakes in `StudentSite/math_backend.py` are used instead.
- `is_in_parenthesis` (`Task.py:81-85`) returns on the first pair either way, so only the first grouping pair decides which connectives the final pass skips. This is modelled as written (`InFirstGroup`, `OnlyFirstPairDecides`).
- An exception in `solve` leaves `results` unchanged. `Solve` models this as an `Err` result with `results` as it was. The kind of exception is reduced to `MalformedModifier` or `ZeroDivision`, and parse failures to `None`.
- `__repr__` and `__str__` of the tasks only forward to `to_string`, and are not modelled separately.
- Text.ParseInt: states only a necessary condition for success. Its exact values are pinned down on printed integers by `ParseShowInt`.
