# A verified model of the desk-calculator engine

This project is a Dafny model of the Rust calculator engine, with proofs about it. The engine has four parts:

- **Two parsers.** Each reads infix text and turns it into postfix with the shunting-yard algorithm:
  - `src/parsing.rs` writes a postfix string;
  - `src/ops/parsing.rs` writes a list of postfix elements.
- **Two postfix evaluators.** Each reduces postfix with a value stack.
- **The operator table** (`src/ops/operators.rs`) and the generic `Stack` (`src/stack.rs`) they share.
- **The values.** Operands form a closed tagged union of Scalar, Vector, Matrix and None (`src/variables/variable_types.rs`). Under it sit the scalar, vector and matrix kernels and the `SCA`/`VEC`/`MAT`/`NAN` text codec (`src/math_types.rs`).

Modules follow the source components:

| module | file | models |
|---|---|---|
| `Wrappers` | wrappers.dfy | `Option`, `Result` and the error values the source reports as strings |
| `Text` | text.dfy | the Rust string facilities the core relies on: the character classes, `split(' ')`, `trim`, `to_lowercase`, `usize` parsing and printing, decimal literal parsing |
| `Stacks` | stack.dfy | `Stack<T>`, a class whose `data` field is a `seq` |
| `Operators` | operators.dfy | the operator table, operator equality and ordering, and lookup |
| `Scalars`, `Vectors`, `Matrices` | scalar.dfy, vector.dfy, matrix.dfy | value operations as functions; loop kernels as methods proved against those functions |
| `MatrixKernels` | matrix_kernels.dfy | the in-place row operations in the class `MatrixCell`: `set_val`, `row_swap`, `row_add`, row echelon form, reduced row echelon form |
| `Determinants` | determinant.dfy | the determinant |
| `Inverses` | inverse.dfy | the corrected invert and its correctness proof |
| `MathCodec` | codec.dfy | `sterilize` / `from_sterilize` of each value type |
| `VariableTypes` | variable_types.dfy | the tagged union and its dispatch |
| `Lexical` | lexical.dfy | `is_balanced_string` and `is_numeric_string` |
| `StringParsing` | string_parsing.dfy | `src/parsing.rs` |
| `ExprParsing` | expr_parsing.dfy | `src/ops/parsing.rs` |

How the model is built:

- Each loop of the source is a method. Its `ensures` ties the result or the new state to a specification function. Lemmas about that function state what the source promises.
- Where the source has a defect, a `Version` parameter (`AsWritten` / `Corrected`) selects the code as written or the evidently intended code. Another way is a pair of members. Each defect is listed under Findings. Elsewhere the model uses the corrected form.
- `f64` is modelled as `real`.
- Calls the model cannot see are parameters:
  - `f64::powf` is `pow: (real, real) -> real`;
  - f64 `Display` and `parse` are a `NumberFormat` (`show`, `read`);
  - variable storage and environment variables are maps.

## Model

| member | source | states |
|---|---|---|
| Stacks.Stack.constructor | src/stack.rs:41-43 | a new stack holds no elements |
| Stacks.Stack.Len | src/stack.rs:45 | the number of stored elements |
| Stacks.Stack.IsEmpty | src/stack.rs:46 | true exactly when no element is stored |
| Stacks.Stack.Peek | src/stack.rs:48-50 | None on an empty stack, otherwise the most recently pushed element; nothing changes |
| Stacks.Stack.Push | src/stack.rs:52-54 | the contents grow by x on top, so Peek then gives Some(x) and Len is one larger |
| Stacks.Stack.Pop | src/stack.rs:55-61 | on an empty stack: Err, contents unchanged; otherwise Ok, with exactly the top element removed |
| Stacks.Stack.Clear | src/stack.rs:62-64 | the stack is empty afterwards |
| Operators.Ne | src/ops/operators.rs:10-17 | `ne` holds exactly when `eq` (same symbol and same precedence) does not |
| Operators.PartialCmp | src/ops/operators.rs:23-42 | Equal iff the operators are equal; Less / Greater iff the precedences are ordered; None exactly for two symbols of one precedence, between which both `<=` and `>=` hold |
| Operators.GetOperator | src/ops/operators.rs:83-89 | a found operator is a table entry with the requested symbol |
| Operators.FindFirst | src/ops/operators.rs:83-89 | the find-first scan finds an entry iff one has the symbol, and then the first such entry |
| Operators.GetOperatorTable | src/ops/operators.rs:65-89 | scanning the nine-entry table built by `new`, in order, gives GetOperator's answer for every character |
| Operators.SearchTable | src/ops/operators.rs:83-89 | the `for` loop of get_operator returns exactly GetOperator(c) |
| Operators.GetOperatorInTable | src/ops/operators.rs:83-89 | a found operator is in the table and carries the symbol |
| Operators.GetOperatorOfBrace | src/ops/operators.rs:74-76 | `(`, `{` and `[` are found with precedence 4 |
| Operators.GetOperatorOfArith | src/ops/operators.rs:68-73 | the six arithmetic symbols are found with precedences between 1 and 3 |
| Operators.IsOperatorSymbols | src/ops/operators.rs:90-96 | is_operator(c) holds iff c is one of the nine table symbols |
| Operators.GetBracePrecedence | src/ops/operators.rs:98-103 | the brace precedence is the precedence of `(`, which is 4 |
| Operators.Evaluate | src/ops/operators.rs:68-76 | a result exists unless `/` or `%` has a zero divisor; a quotient times the divisor is the dividend; the braces evaluate to 0 |
| Scalars.Div | src/math_types.rs:100-104 | defined iff the divisor is non-zero, and then the quotient times the divisor is the dividend |
| Scalars.Rem | src/ops/operators.rs:72 | defined iff the divisor is non-zero |
| Scalars.RemBounds | src/ops/operators.rs:72 | the remainder is smaller than the divisor in magnitude, has the dividend's sign, and differs from the dividend by a whole multiple of the divisor (truncating division, as f64 `%`) |
| Scalars.RemExamples | src/ops/operators.rs:72 | 7 % 3 = 1, -7 % 3 = -1 and 7.5 % -2 = 1.5 |
| Vectors.Zero | src/math_types.rs:240-245 | `new(d)` is a well-formed vector of dimension d holding zeros |
| Vectors.FromList | src/math_types.rs:246-251 | the vector holds the list; it is usable iff the list is non-empty |
| Vectors.FromNum | src/math_types.rs:268-273 | the usable 1-vector holding the number |
| Vectors.ErrorVector | src/math_types.rs:275-280 | a well-formed vector that `is_valid` rejects |
| Vectors.SetVal | src/math_types.rs:130-152 | the length stays d: the new data is kept up to d, and the rest is zero-padded |
| Vectors.CrossProduct | src/math_types.rs:320-343 | defined iff both dimensions are equal and between 1 and 3; unequal dimensions give the mismatch error; the result has dimension 1 for 1-vectors and 3 otherwise; for 1-vectors it is [a0 * b0]; for 2-vectors its x and y are 0 |
| Vectors.CrossSwapped | src/math_types.rs:320-343 | swapping the operands keeps the 1-dimensional product and negates the 2- and 3-dimensional one |
| Vectors.CrossOrthogonal | src/math_types.rs:334-340 | the 3-dimensional cross product is orthogonal to both operands |
| Vectors.CrossPlanarIsSpatial | src/math_types.rs:327-333 | the product of two 2-vectors is the 3-dimensional product of the operands extended with z = 0 |
| Vectors.CrossOfUnits | src/math_types.rs:334-340 | the unit vectors multiply cyclically: e1 × e2 = e3, e2 × e3 = e1, e3 × e1 = e2 |
| Vectors.CrossLinearLeft | src/math_types.rs:334-340 | the 3-dimensional product is linear in its first operand; with CrossSwapped and CrossOfUnits this fixes every value to the standard formula |
| Vectors.DotProduct | src/math_types.rs:344-359 | an error vector on either side or unequal dimensions give their errors; otherwise the sum of the element products |
| Vectors.DotSumSymmetric | src/math_types.rs:344-359 | the dot sum is symmetric |
| Vectors.DotSumSelfNonNegative | src/math_types.rs:344-359 | a vector's dot product with itself is non-negative |
| Vectors.Add | src/math_types.rs:361-372 | unequal dimensions fail; otherwise a well-formed vector of the same dimension holding the element-wise sums |
| Vectors.Sub | src/math_types.rs:373-384 | unequal dimensions fail; otherwise a well-formed vector of the same dimension holding the element-wise differences |
| Vectors.SumCommutes | src/math_types.rs:361-372 | vector addition commutes, errors included |
| Vectors.DifferenceUndoesSum | src/math_types.rs:361-384 | subtracting b after adding b gives back a |
| Matrices.FromRows | src/math_types.rs:560-574 | the m by n matrix with the given rows: well formed, with entry (i, j) taken from row i |
| Matrices.NewMatrix | src/math_types.rs:560-574 | `new(m, n)` is a well-formed m by n matrix of zeros |
| Matrices.ErrorMatrix | src/math_types.rs:575-581 | the 0 by 0 matrix |
| Matrices.Identity | src/math_types.rs:582-590 | the d by d matrix with ones on the diagonal and zeros elsewhere |
| Matrices.IdentityMatrix | src/math_types.rs:582-590 | the loop that sets the diagonal of `new(d, d)` builds Identity(d) |
| Matrices.Add | src/math_types.rs:903-918 | the loops compute the entry-wise sum, which is defined iff the shapes agree |
| Matrices.Sub | src/math_types.rs:919-934 | the loops compute the entry-wise difference, which is defined iff the shapes agree |
| Matrices.SumCommutes | src/math_types.rs:903-918 | matrix addition commutes, errors included |
| Matrices.DifferenceUndoesSum | src/math_types.rs:903-934 | subtracting B after adding B gives back A |
| Matrices.Mul | src/math_types.rs:935-955 | the triple loop computes the product: defined iff the inner dimensions agree and no dimension is 0; the result is m by rhs.n, each entry a row-column sum |
| Matrices.IdentityIsUnit | src/math_types.rs:935-955 | the identity is a two-sided unit of mul |
| Matrices.Transposed | src/math_types.rs:708-717 | an n by m matrix whose entry (i, j) is entry (j, i) of the operand |
| Matrices.Transpose | src/math_types.rs:708-717 | the transpose loop computes Transposed |
| Matrices.TransposeInvolution | src/math_types.rs:708-717 | transposing twice gives the matrix back |
| Matrices.TransposeOfProduct | src/math_types.rs:708-717 | the transpose of a product is the product of the transposes in reverse order |
| Matrices.Augmented | src/math_types.rs:718-737 | the augmented matrix exists iff the row counts agree |
| Matrices.Augment | src/math_types.rs:718-737 | the corrected loops, with the second block written to columns n1 .. n1 + n2, compute Augmented |
| Matrices.AugmentAsWritten | src/math_types.rs:718-737 | the loops as written, with the second block over `cols1..cols2`, compute AugmentedAsWritten |
| Matrices.AugmentAsWrittenDropsColumns | src/math_types.rs:731-733 | as written, [[1]] augmented with [[2]] is [[1, 0]]; corrected, it is [[1, 2]] |
| Matrices.Extracted | src/math_types.rs:616-632 | the block exists iff it lies inside the matrix, and then has the range lengths as its shape |
| Matrices.Extract | src/math_types.rs:616-632 | the corrected loops, which write entry (i, j) at (i - r0, j - c0), compute Extracted |
| Matrices.ExtractAsWritten | src/math_types.rs:616-632 | as written (the write index moves down the diagonal, and the error matrix is discarded), only empty or single-entry blocks come out, and then they are Extracted; every larger block panics |
| Matrices.ExtractUndoesAugment | src/math_types.rs:616-737 | extracting the two blocks of an augmented matrix gives back both parts |
| Matrices.Invert | src/math_types.rs:687-707 | invert's own steps, on the corrected augment and extract: a non-square matrix gets None, and a result is a square matrix of the operand's size |
| Matrices.InvertAcceptsOnlyIdentity | src/math_types.rs:687-707 | invert's own steps, on the corrected augment and extract, return Some exactly for an identity matrix, and what they return is then a left inverse |
| Matrices.InvertMissesInverse | src/math_types.rs:687-707 | invert's own steps, on the corrected augment and extract, reject [[2]], although [[0.5]] is its inverse |
| Matrices.InvertAsWritten | src/math_types.rs:687-707 | on the as-written augment and extract: None if the matrix is not square, the 0 by 0 matrix is its own inverse, a 1 by 1 matrix has none, larger ones panic |
| Inverses.InvertCorrected | src/math_types.rs:687-707 | corrected invert: a result exists only for a square matrix, and is square of the same size |
| Inverses.InvertCorrectedIsInverse | src/math_types.rs:687-707 | for a non-empty A, what the corrected invert returns, R, satisfies R times A = I (the 0 by 0 product is refused by mul) |
| Inverses.InvertCorrectedFindsInverse | src/math_types.rs:687-707 | the corrected invert finds [[0.5]] for [[2]] |
| Inverses.ZeroColumnHasNoInverse | src/math_types.rs:687-707 | a matrix with a zero column has no inverse: the corrected invert gives None |
| Inverses.InvertCorrectedRejectsZero | src/math_types.rs:687-707 | the corrected invert gives None for [[0]] |
| Inverses.AugmentedRel | src/math_types.rs:718-737 | every row of [A &#124; I] is a row combination whose left part is that combination of A's rows |
| Inverses.RrefRel | src/math_types.rs:774-819 | the corrected reduced row echelon form keeps that relation on every row |
| MatrixKernels.RowSwapped | src/math_types.rs:634-640 | equal or out-of-range rows change nothing; otherwise exactly the two rows are exchanged; a matrix with rows but no stored columns panics |
| MatrixKernels.RowSwapTwice | src/math_types.rs:634-640 | swapping the same two rows again restores the matrix |
| MatrixKernels.MatrixCell.RowSwap | src/math_types.rs:634-640 | the in-place swap leaves RowSwapped's matrix, or reports the panic and changes nothing |
| MatrixKernels.RowAdded | src/math_types.rs:641-649 | fac = 0 or an out-of-range row changes nothing; otherwise only the target row changes, gaining fac times the origin row |
| MatrixKernels.RowAddUndone | src/math_types.rs:641-649 | adding -fac times the same other row undoes a row addition |
| MatrixKernels.MatrixCell.RowAdd | src/math_types.rs:641-649 | the in-place loop leaves RowAdded's matrix |
| MatrixKernels.MatrixCell.SetVal | src/math_types.rs:463-478 | empty data panics after resizing to 0 by 0; a first row of dimension 0 is taken without checks; otherwise rows that clash with the old column count are refused with nothing changed, and accepted data is taken over with its shape |
| MatrixKernels.MatrixCell.RowEchelonForm | src/math_types.rs:739-773 | the in-place elimination leaves the row echelon form RefFrom of the old entries, with the shape unchanged |
| MatrixKernels.RowEchelonIsEchelon | src/math_types.rs:739-773 | the result is in row echelon form: each non-zero row starts with a 1, strictly right of the rows above, and zero rows come last |
| MatrixKernels.MatrixCell.ReducedRowEchelonForm | src/math_types.rs:774-819 | the in-place reduction leaves Rref of the old entries, as written or corrected |
| MatrixKernels.Rref | src/math_types.rs:774-819 | the row echelon form followed by the row loop keeps the shape |
| MatrixKernels.RrefIsReduced | src/math_types.rs:774-819 | corrected, the result is in reduced row echelon form |
| MatrixKernels.RrefOfReduced | src/math_types.rs:774-819 | corrected, a grid already in reduced row echelon form is left exactly as it is |
| MatrixKernels.RrefIdempotent | src/math_types.rs:774-819 | corrected, reducing a reduced grid again changes nothing |
| MatrixKernels.RrefAsWrittenKeepsOneRow | src/math_types.rs:808-814 | as written, the first row of the row echelon form is kept and every other row becomes zero |
| MatrixKernels.RrefOfIdentity2 | src/math_types.rs:774-819 | corrected, the 2 by 2 identity is its own reduced form |
| MatrixKernels.RrefAsWrittenOnIdentity2 | src/math_types.rs:808-814 | as written, the 2 by 2 identity becomes [[1, 0], [0, 0]] |
| Determinants.Determinant | src/math_types.rs:651-686 | the loops compute Det, the source's own algorithm with pivoting and elimination |
| Determinants.PivotScanMaximal | src/math_types.rs:657-662 | the chosen pivot has the largest magnitude in its column from the current row down |
| Determinants.PivotStep | src/math_types.rs:657-668 | the pivot row is swapped up, and every swap negates the running determinant |
| Determinants.DetFromStops | src/math_types.rs:671-673 | a pivot below the 1e-10 tolerance makes the determinant 0 |
| Determinants.EliminateBelow | src/math_types.rs:677-682 | the elimination loops, the factor computed before the row is changed, compute Eliminated |
| Determinants.DeterminantOfTriangular | src/math_types.rs:651-686 | an upper-triangular matrix with diagonal entries above the tolerance has the product of its diagonal as its determinant |
| Determinants.DeterminantOfIdentity | src/math_types.rs:651-686 | the identity has determinant 1 |
| Determinants.DeterminantOfZeroRow | src/math_types.rs:651-686 | a matrix with a zero row has determinant 0 |
| Determinants.DeterminantOfSingle | src/math_types.rs:651-686 | a 1 by 1 matrix is its own determinant unless it falls below the tolerance |
| MathCodec.DecodeScalar | src/math_types.rs:41-71 | too short or wrong tag give their errors; a bare "SCA" is 0; otherwise the result exists iff the trimmed rest parses |
| MathCodec.ScalarRoundTrip | src/math_types.rs:38-71 | a sterilized scalar decodes back to itself |
| MathCodec.DecodeVector | src/math_types.rs:162-204 | a decoded vector is well formed, its text begins with VEC, and its dimension is the second space-separated piece |
| MathCodec.VectorRoundTrip | src/math_types.rs:154-204 | a sterilized vector decodes back to itself |
| MathCodec.MatrixHeader | src/math_types.rs:491-517 | the tag is MAT, and the second and third pieces parse as the dimensions |
| MathCodec.DecodeMatrix | src/math_types.rs:491-545 | corrected decoding gives a well-formed matrix of the header's dimensions; an m by 0 or 0 by n header gives the `Matrix::new` shape with no rows, where the source pushes m empty rows |
| MathCodec.MatrixRoundTrip | src/math_types.rs:480-545 | a sterilized matrix decodes back to itself under the corrected decoder |
| MathCodec.DecodeMatrixAsWritten | src/math_types.rs:491-545 | as written, every decoded row has the column count as its dimension |
| MathCodec.EmptyRowsAsWritten | src/math_types.rs:519-522 | as written, an m by 0 matrix comes back with m empty rows, a shape `Matrix::new` never builds; corrected, it comes back with no rows, as `Matrix::new(m, 0)` |
| MathCodec.MatrixAsWrittenShiftsEntries | src/math_types.rs:521-533 | as written, [x] comes back as [1]: the first number read is the column count |
| MathCodec.MatrixAsWrittenRejectsWide | src/math_types.rs:521-530 | as written, a 1 by 2 matrix cannot be decoded (the second entry is aimed at row 1), while the corrected decoder returns it |
| VariableTypes.Add | src/variables/variable_types.rs:33-57 | defined iff both are scalars, vectors of one dimension or matrices of one shape; the result keeps the tag; None on either side gives the None error; other mixed tags give the mismatch error |
| VariableTypes.Sub | src/variables/variable_types.rs:58-82 | as Add, for differences |
| VariableTypes.Mul | src/variables/variable_types.rs:83-98 | defined only for two scalars, or two non-empty matrices whose inner dimensions agree; the product's shape; the errors for None and for vectors |
| VariableTypes.Div | src/variables/variable_types.rs:99-105 | defined only for two scalars with a non-zero divisor, and the quotient times the divisor is the dividend; the errors for None and the other tags |
| VariableTypes.AddCommutes | src/variables/variable_types.rs:33-57 | add commutes, errors included |
| VariableTypes.SubUndoesAdd | src/variables/variable_types.rs:33-82 | for every pair add accepts, subtracting b undoes adding b |
| VariableTypes.MulByIdentity | src/variables/variable_types.rs:83-98 | a matrix times the identity, on either side, is itself |
| VariableTypes.DivUndoesMul | src/variables/variable_types.rs:83-105 | dividing by a non-zero scalar undoes multiplying by it |
| VariableTypes.FromSterilize | src/variables/variable_types.rs:115-127 | fewer than 3 characters and an unknown tag give their errors; NAN is None; decoded values are well formed |
| VariableTypes.SterilizeRoundTrip | src/variables/variable_types.rs:107-127 | every printable value, None included, survives `sterilize` then `from_sterilize` |
| Lexical.IsBalancedString | src/parsing.rs:5-39 | the stack loop answers exactly Balanced: every closer matches the kind of the innermost open bracket, and none stays open |
| Lexical.BalancedConcat | src/parsing.rs:5-39 | two balanced strings make a balanced string |
| Lexical.BalancedWrap | src/parsing.rs:5-39 | a balanced string inside a matching pair of brackets is balanced |
| Lexical.UnbalancedCloser | src/ops/parsing.rs:399-430 | a closer with nothing open, or that closes another kind, makes the string unbalanced |
| Lexical.IsNumericString | src/parsing.rs:40-70 | the flag loop answers exactly NumericShape: only digits, white space and periods, at most one period, and no digit after white space that follows a digit |
| Lexical.NumericShapeSnoc | src/parsing.rs:40-70 | what one more character does to NumericShape |
| Lexical.FlagsSnoc | src/parsing.rs:40-70 | how the loop's three flags grow with one more character |
| Lexical.NumericShapePrefix | src/parsing.rs:40-70 | every prefix of a numeric string is numeric |
| StringParsing.FlushPrevNum | src/parsing.rs:71-82 | the buffer is accepted iff it is empty or numeric, and then written out with a trailing space |
| StringParsing.BraceOf | src/parsing.rs:168-188 | a closer pops down to its opener's table entry, which has the brace precedence |
| StringParsing.PopWhileBinds | src/parsing.rs:237-250 | the popping loop writes out the operators that bind tighter, as PopWhile says |
| StringParsing.PopToBrace | src/parsing.rs:190-205 | the closing loop writes out the operators above the target brace and takes the brace off |
| StringParsing.DrainOperators | src/parsing.rs:276-283 | the final loop writes out the whole stack, top first, and empties it |
| StringParsing.PushOperatorStep | src/parsing.rs:207-263 | the operator arm does what PushOperator says, on the output and on the stack |
| StringParsing.CloseBraceStep | src/parsing.rs:157-206 | the closing-brace arm does what CloseBrace says |
| StringParsing.ToPostfix | src/parsing.rs:85-286 | to_postfix, with the constant written as a token of its own, computes Postfix |
| StringParsing.PostfixOfInfix | src/parsing.rs:85-286 | for every fully parenthesised expression, to_postfix gives its postfix tokens separated by single spaces, in both versions |
| StringParsing.PrecedenceGroups | src/parsing.rs:228-258 | without brackets, a op1 b op2 c groups by precedence, equal precedences to the left except `^`, which groups to the right; its value follows that grouping (every longer chain: Precedence.StringChainsFollowPrecedence) |
| StringParsing.LeadingOperatorRejected | src/parsing.rs:209-211 | an operator may not come first |
| StringParsing.TrailingOperatorRejected | src/parsing.rs:269-272 | an operator may not come last |
| StringParsing.ConsecutiveOperatorsRejected | src/parsing.rs:212-214 | an operator may not follow another operator |
| StringParsing.AdjacentOperandRejected | src/parsing.rs:103-107 | a number may not follow a closing bracket without an operator between them |
| StringParsing.SpaceSeparatedRejected | src/parsing.rs:103-107 | two numbers separated only by white space are refused |
| StringParsing.UnknownLetterRejected | src/parsing.rs:120-125 | a letter other than `c` is refused |
| StringParsing.InvalidCharacterRejected | src/parsing.rs:264 | a character that is no digit, letter, white space, brace or operator is refused |
| StringParsing.ConstantSeparated | src/parsing.rs:123-134 | with the constant (3e8) as a token of its own, "c" op e evaluates as 3e8 op e |
| StringParsing.ConstantFusesAsWritten | src/parsing.rs:129 | as written, "c" op n gives the constant's digits fused with n's as one token |
| StringParsing.FusedFailsToEvaluate | src/parsing.rs:129 | the operator then finds one number on the stack |
| StringParsing.PostfixAgreesWithoutConstant | src/parsing.rs:114-135 | without `c` in the input, both versions agree |
| StringParsing.ApplyOperator | src/parsing.rs:308-331 | fewer than two operands give the underflow error; otherwise the top two are replaced by their combination, or the operator's error is reported |
| StringParsing.EvaluateToken | src/parsing.rs:304-345 | one token does what TokenStep says |
| StringParsing.EvaluatePostfix | src/parsing.rs:287-353 | the loop computes Evaluation |
| StringParsing.EvaluationOfNumber | src/parsing.rs:289-302 | the empty string is 0, and a number alone is its value |
| StringParsing.TwoNumbersLeftOver | src/parsing.rs:348-351 | two numbers without an operator leave two values, which is refused |
| StringParsing.OneOperandUnderflows | src/parsing.rs:321-323 | an operator that finds a single number is an underflow |
| StringParsing.EvaluationOfTokens | src/parsing.rs:287-353 | evaluating the postfix tokens of an expression gives its value, errors included |
| StringParsing.PipelineComputesValue | src/parsing.rs:85-353 | to_postfix followed by evaluate_postfix computes the value of every fully parenthesised expression |
| ExprParsing.NumericLiteral | src/ops/parsing.rs:59-96 | corrected, is_numeric_expression never aborts |
| ExprParsing.IsNumericExpression | src/ops/parsing.rs:59-96 | the loop of is_numeric_expression, then the parse, computes NumericLiteral |
| ExprParsing.ParseExpression | src/ops/parsing.rs:26-57 | corrected, parse_expression always answers; it never yields the stub variable and declaration kinds; a number it yields is the literal's parse |
| ExprParsing.ParseInput | src/ops/parsing.rs:26-57 | the two scanning loops compute the corrected ParseExpression |
| ExprParsing.ParseAns | src/ops/parsing.rs:34-36 | "ans", in any case and with white space around it, is the last answer |
| ExprParsing.PeriodPanics | src/ops/parsing.rs:95 | as written, the lone period passes the shape check and aborts the parse; corrected, it is an invalid operand |
| ExprParsing.OnlyPeriodRefused | src/ops/parsing.rs:59-96 | a non-empty numeric shape without white space that f64 parsing refuses is the lone period |
| ExprParsing.LiteralVersionsAgree | src/ops/parsing.rs:59-96 | apart from the lone period, both versions parse a literal alike |
| ExprParsing.PanicOnlyOnPeriod | src/ops/parsing.rs:26-96 | on a literal without white space, the as-written parser aborts iff the literal is the period, and agrees with the corrected one otherwise (ASCII digits) |
| ExprParsing.Expression.constructor | src/ops/parsing.rs:139-143 | a new expression has no elements |
| ExprParsing.Expression.FlushPrevExpr | src/ops/parsing.rs:295-308 | the pending literal is parsed and appended, or its error is reported with nothing appended |
| ExprParsing.Expression.PopBinding | src/ops/parsing.rs:238-257 | the corrected popping loop does what PopWhile says |
| ExprParsing.PopWhileSpec | src/ops/parsing.rs:246-254 | the corrected loop writes out, top first, exactly the operators above the first one that does not bind, and only operators that bind |
| ExprParsing.Expression.PopToParen | src/ops/parsing.rs:196-216 | the closing loop writes out the operators above `(` and takes the `(` off |
| ExprParsing.Expression.DrainOperators | src/ops/parsing.rs:288-290 | the final loop appends the stack, top first, and empties it |
| ExprParsing.InfixToPostfix | src/ops/parsing.rs:152-293 | the corrected infix_to_postfix gives a fresh Expression holding Postfix(infix), or Postfix's error |
| ExprParsing.PostfixOfInfix | src/ops/parsing.rs:152-293 | for every fully parenthesised expression, the corrected parser gives its postfix elements |
| ExprParsing.PrecedenceGroups | src/ops/parsing.rs:238-257 | corrected, a op1 b op2 c groups by precedence, equal precedences to the left except `^`, and evaluates to the value of that grouping (every longer chain: Precedence.ExprChainsFollowPrecedence) |
| ExprParsing.LeadingOperatorRejected | src/ops/parsing.rs:219-220 | an operator may not come first, in either version |
| ExprParsing.LeadingCloserRejected | src/ops/parsing.rs:153-155 | a closer with nothing open is refused as unbalanced |
| ExprParsing.TrailingOperatorRejected | src/ops/parsing.rs:282-284 | an operator may not come last |
| ExprParsing.ConsecutiveOperatorsRejected | src/ops/parsing.rs:221-225 | an operator may not follow another operator |
| ExprParsing.AdjacentOperandRejected | src/ops/parsing.rs:266-271 | an operand may not follow a closing parenthesis without an operator between them |
| ExprParsing.SpaceSeparatedRejected | src/ops/parsing.rs:266-271 | two numbers separated only by white space are refused, in either version |
| ExprParsing.ApplyOperator | src/ops/parsing.rs:322-333 | `+ - * /` dispatch to VariableType add, sub, mul and div, which keep values well formed; every other symbol is unsupported |
| ExprParsing.ApplyOperatorOnScalars | src/ops/operators.rs:68-71 | on two scalars, the four symbols compute what the operator's own f64 function computes |
| ExprParsing.ApplyTop | src/ops/parsing.rs:318-339 | the operator arm replaces the top two values by their combination, or fails with fewer than two values or a failed combination |
| ExprParsing.EvaluateElement | src/ops/parsing.rs:315-389 | one element does what EvalStep says |
| ExprParsing.Expression.Evaluate | src/ops/parsing.rs:310-396 | the value-stack loop computes Evaluation |
| ExprParsing.EvaluationEdges | src/ops/parsing.rs:311-337 | no elements give the scalar 0, and an operator before any value gives None |
| ExprParsing.TwoValuesGiveNone | src/ops/parsing.rs:391-393 | a final stack of two values gives None |
| ExprParsing.PipelineComputesValue | src/ops/parsing.rs:152-396 | the corrected parser, then evaluate, compute the value of every fully parenthesised expression, or None where it has none |
| ExprParsing.UnsupportedOperatorFails | src/ops/parsing.rs:325 | an expression using `%` or `^` has no value |
| ExprParsing.UnsupportedGivesNone | src/ops/parsing.rs:325 | such an expression evaluates to None |
| ExprParsing.PipelinesAgree | src/ops/parsing.rs:152-396 | on `+ - * /`, this pipeline and the one of src/parsing.rs give the same number, or None where the other reports a zero divisor |
| ExprParsing.OperatorLostAsWritten | src/ops/parsing.rs:239-254 | as written, a op1 b op2 c keeps three numbers and one operator, and evaluates to None |
| ExprParsing.PopLosingDropsOne | src/ops/parsing.rs:239-254 | as written, the popping loop loses exactly one operator |
| ExprParsing.OperatorOverParenAsWritten | src/ops/parsing.rs:239 | as written, an operator read over `(` takes the `(` off and writes it nowhere |
| ExprParsing.NestedAsWritten | src/ops/parsing.rs:239-255 | as written, "(a op1 (b op2 c))" is refused at its second `)` |
| ExprParsing.DoubleParenAsWritten | src/ops/parsing.rs:214-216 | as written, "((a))" is refused: the first `)` drops both `(` |
| ExprParsing.DoubleParenCorrected | src/ops/parsing.rs:189-217 | corrected, redundant parentheses change nothing |
| ExprParsing.PeriodAbortsAsWritten | src/ops/parsing.rs:95 | as written, the input "." aborts infix_to_postfix |
| ExprParsing.PeriodRefusedCorrected | src/ops/parsing.rs:295-302 | corrected, "." is reported as an invalid operand |
| Precedence.Grouped | src/parsing.rs:237 | the standard grouping of an unbracketed chain keeps the chain's operands and operators, in order |
| Precedence.InsertReads | src/parsing.rs:237 | one more operator and operand add one operand and one operator at the end of the grouping |
| Precedence.InsertCorrect | src/parsing.rs:237 | adding an operator and operand to a grouping that respects precedence and associativity keeps it so |
| Precedence.GroupedCorrect | src/parsing.rs:237 | at every node of the standard grouping, a higher precedence binds tighter, and equal precedences group to the left except `^`, which groups to the right |
| Precedence.TopBounds | src/ops/operators.rs:68-73 | in such a grouping the top operator has the lowest precedence: the left operators have at least its precedence (and it is not `^` over a left node), the right ones a higher one, or are `^` under `^` |
| Precedence.CorrectIsUnique | src/parsing.rs:237 | two groupings that respect precedence and associativity, with the same operands and operators in the same order, are equal |
| Precedence.GroupedIsStandard | src/parsing.rs:237 | the standard grouping is the only grouping of a chain that respects precedence and associativity |
| Precedence.GroupingExample | src/ops/operators.rs:68-73 | 2+3-5+2^2 groups as ((2+3)-5)+(2^2) |
| Precedence.PowerGroupsRight | src/parsing.rs:237 | 2^3^2 groups as 2^(3^2) |
| Precedence.PopAll | src/parsing.rs:237-250 | an operator that the whole right edge binds before writes the edge out, leaving all of the grouping in postfix and the stack empty |
| Precedence.PopInsert | src/parsing.rs:237-251 | the popping loop, then the push, leave exactly the output and the stack of the grouping with the new operator inserted |
| Precedence.OperatorIntoChain | src/parsing.rs:207-263 | the operator arm takes to_postfix from the state of a chain to the state of its extended grouping |
| Precedence.RunChain | src/parsing.rs:85-266 | reading a chain from the start leaves to_postfix in the state of the chain's standard grouping |
| Precedence.FinishChain | src/parsing.rs:269-286 | the end of the input then writes the postfix tokens of that grouping, joined by single spaces |
| Precedence.PostfixWithOfChain | src/parsing.rs:85-286 | to_postfix of a chain writes the postfix tokens of its standard grouping, however the constant is written |
| Precedence.StringChainsFollowPrecedence | src/parsing.rs:85-353 | on every unbracketed chain of numbers and bracketed operands, both versions of to_postfix write the postfix of the standard grouping, and evaluate_postfix computes its value |
| Precedence.PopAllElements | src/ops/parsing.rs:238-257 | corrected, an operator that the whole right edge binds before writes the edge out as elements, leaving the stack empty |
| Precedence.PopElementsInsert | src/ops/parsing.rs:238-257 | corrected, the popping loop, then the push, leave exactly the elements and the stack of the extended grouping |
| Precedence.OperatorIntoChainElements | src/ops/parsing.rs:218-257 | corrected, the operator arm takes infix_to_postfix from the state of a chain to that of its extended grouping |
| Precedence.RunChainElements | src/ops/parsing.rs:152-280 | corrected, reading a chain leaves infix_to_postfix in the state of its standard grouping |
| Precedence.DrainSpine | src/ops/parsing.rs:288-290 | emptying the stack appends the right edge's operators, top first, completing the postfix elements of the grouping |
| Precedence.FinishChainElements | src/ops/parsing.rs:282-293 | the end of the input gives the postfix elements of the grouping |
| Precedence.ExprChainsFollowPrecedence | src/ops/parsing.rs:152-396 | corrected, on every unbracketed chain infix_to_postfix gives the postfix elements of the standard grouping, and evaluate computes its value, or None where it has none |

## Left out

- `Scalars.Div`, `Scalars.Rem`, `Operators.Evaluate`, `VariableTypes.Div`: a zero divisor is reported as `NonFinite`. IEEE 754 gives ±inf or NaN there, and reals have no such values. The model does not capture the infinities and NaNs the source goes on computing with.
- `Text.IsDigit`, `Text.IsAlphabetic`: they are ASCII-only. Rust's `char::is_numeric` and `char::is_alphabetic` are Unicode. So a digit such as U+0663, which the source accepts as numeric, is an invalid character in the model. `ExprParsing.PanicOnlyOnPeriod` holds for ASCII digits only: in the source, such a numeral also reaches the panicking `parse().unwrap()`. `Text.IsWhitespace` covers the full Unicode White_Space list.
- Panics: `unwrap` on a failed parse, out-of-range indexing and `assert!` abort the Rust program. The model returns them as the value `Err(Panic(..))`, and the corrected members avoid them.
- f64 as real: rounding is lost. `VariableTypes.DivUndoesMul`, `x / x == 1` in the pivot normalisation, `Scalars.RemBounds` and the reduced-echelon proofs are exact statements; in f64 they hold only approximately.
- usize as nat: `usize` is unbounded in the model, except where the codec parses a dimension (`USIZE_MAX`).
- Number text: f64 `Display` and `str::parse::<f64>` are the parameters `show` and `read` of `MathCodec.NumberFormat`. `MathCodec.ScalarRoundTrip`, `MathCodec.VectorRoundTrip`, `MathCodec.MatrixRoundTrip` and `VariableTypes.SterilizeRoundTrip` require `Prints`, meaning each number prints as one blank-free token that reads back. This is assumed, not proved, for f64.
- `ExprParsing.ApplyOperator`: ops/parsing.rs:325 calls `Operator::evaluate(a, b)` on `VariableType` operands, but operators.rs:53 takes two `f64` and returns `f64`. The model dispatches `+ - * /` to `VariableType` add, sub, mul and div. `%` and `^`, although in the table, give `UnsupportedOperator`, so an expression using them evaluates to None.
- `ExprParsing.ApplyTop`, `ExprParsing.Expression.Evaluate`, `ExprParsing.Expression.PopToParen`, `ExprParsing.InfixToPostfix`: ops/parsing.rs uses `Stack::pop` as if it returned `Option<T>` (lines 201, 214, 239, 251, 289, 319-320, 395). stack.rs:55 returns `Result<(), String>`. The model reads the top with `peek`, then pops, as src/parsing.rs does.
- `ExprParsing.InfixToPostfix`: the ops parser has arms for `(` and `)` only. `{` and `[` are looked up as operators, and `}` and `]` go into the pending literal. This model follows that. That `ClosingWithoutOperators` cannot occur in the corrected parser is not proved.
- `Inverses.InvertCorrected`: only R times A = I is proved (a left inverse), not A times R = I. That an invertible matrix always yields a result is shown for [[2]] only. That a singular matrix yields None is proved for matrices with a zero column (`Inverses.ZeroColumnHasNoInverse`), not for every singular matrix.
- `MatrixKernels.RrefIdempotent`: the fixed point and idempotence are proved for the corrected row loop only, not for the row loop as written.
- `MathCodec.DecodeScalar`: strings are sequences of chars, so `len()`, `get(0..3)` and `get(4..len)` count chars here where the source counts UTF-8 bytes. On non-ASCII input the source's byte offsets, its panics at a char boundary and its `None` from `get` are lost: "SCAé" gives 0 in the source (byte 4 is inside `é`, so `get` is `None`) but `BadNumber("")` here unless the number format reads the empty string, and "SCé" panics at `get(0..3).unwrap()` in the source but is `WrongTag` here.
- `MathCodec.DecodeVector`: `input.len() < 3` and `&input[0..3]` count chars here, not bytes; on non-ASCII input the source's byte length and its panic when byte 3 is inside a char are lost.
- `MathCodec.MatrixHeader`: `input.len() < 3` and `&input[0..3]` count chars here, not bytes; on non-ASCII input the source's byte length and its panic when byte 3 is inside a char are lost.
- `MathCodec.DecodeMatrix`: decodes through `MatrixHeader`, so the same char-for-byte difference applies.
- `VariableTypes.FromSterilize`: `input.len() < 3` and `&input[0..3]` count chars here, not bytes; a 1- or 2-char non-ASCII input such as "é" is `TooShort` here, and an input whose byte 3 is inside a char panics in the source but is an unknown tag here.
- `from_infix` (ops/parsing.rs:145-147) is `infix_to_postfix` under another name and is not modelled separately. `from_postfix` (148-150), the ops `evaluate_postfix` (432-433) and `Display` for the expression types (105-106) are `todo!()`.
- `is_decloration_expression` and `is_variable_expression` (ops/parsing.rs:97-103) always fail. In the model they are the absent Declaration and Variable cases of `ParseExpression`.
- `Matrix::is_error` (math_types.rs:606-608) is unused by the core and not modelled.
- `magnitude`, `angle`, `Scalar::pow`, `Vector::from_val`/`zero_vector`, `random_matrix`: square roots, arctangents and powf are library float calls (`pow` is a parameter), and randomness is not modelled.
- The `Display` impls and the column-width formatting (`get_column_width_schematic`, `get_row_string`, src/num_resolver.rs): text layout for the console, not modelled.
- Logging (`info!`, `error!`), variable storage files, the REPL and stdin: I/O. Storage and environment lookups are maps.

## Findings

| source | as written | input that shows it | evidently intended | confidence | as-written member | corrected member |
|---|---|---|---|---|---|---|
| src/ops/parsing.rs:239-254 | the top operator is popped before the loop; when the loop does not write it out, it is lost | "1+2*3" keeps three numbers and one operator, and evaluates to None | peek, and pop only what is written out | not executed | ExprParsing.OperatorLostAsWritten | ExprParsing.PrecedenceGroups |
| src/ops/parsing.rs:239 | an operator read over `(` pops the `(` and writes it nowhere | "(1+(2*3))" is refused at its second `)` | the `(` stays on the stack | not executed | ExprParsing.NestedAsWritten | ExprParsing.PipelineComputesValue |
| src/ops/parsing.rs:214-216 | after the loop has taken `(` off, a second `(` below it is popped too | "((1))" is refused | pop exactly one `(` | not executed | ExprParsing.DoubleParenAsWritten | ExprParsing.DoubleParenCorrected |
| src/ops/parsing.rs:95 | the shape check accepts ".", and `parse::<f64>().unwrap()` then panics | "." | report an invalid operand | not executed | ExprParsing.PeriodAbortsAsWritten | ExprParsing.PeriodRefusedCorrected |
| src/parsing.rs:129 | the constant for `c` is written without a trailing space | "c*2" gives the token "3000000002" and then an underflow | the constant as a token of its own | not executed | StringParsing.ConstantFusesAsWritten | StringParsing.ConstantSeparated |
| src/math_types.rs:731-733 | the second block is copied over `cols1..cols2` | [[1]] augmented with [[2]] gives [[1, 0]] | columns `cols1..cols1 + cols2` | not executed | Matrices.AugmentAsWrittenDropsColumns | Matrices.ExtractUndoesAugment |
| src/math_types.rs:617-628 | `error_matrix()` is discarded, and `ip`, `jp` both advance per entry | extracting a 2 by 2 block panics | return the error matrix; write entry (i, j) at (i - r0, j - c0) | not executed | Matrices.ExtractAsWritten | Matrices.ExtractUndoesAugment |
| src/math_types.rs:687-707 | invert never row-reduces [I &#124; A] | [[2]] gets None | build [A &#124; I] in place of the source's [I &#124; A], reduce it, then return the right block when the left one is I | not executed | Matrices.InvertMissesInverse | Inverses.InvertCorrectedIsInverse |
| src/math_types.rs:808-814 | `val[k][j] = factor * val[r][j]` replaces the row | the 2 by 2 identity becomes [[1, 0], [0, 0]] | `val[k][j] -= factor * val[r][j]` | not executed | MatrixKernels.RrefAsWrittenOnIdentity2 | MatrixKernels.RrefIsReduced |
| src/math_types.rs:521-534 | number k is read from `splits[k+2]` and placed at `(k / m, k % m)` | "MAT 1 1 5 " decodes as [[1]], and a 1 by 2 matrix fails | read `splits[k+3]` into `(k / n, k % n)`; and, for an m by 0 or 0 by n header, store no rows, as `Matrix::new` does, where lines 519-522 push m empty rows | not executed | MathCodec.MatrixAsWrittenShiftsEntries, MathCodec.EmptyRowsAsWritten | MathCodec.MatrixRoundTrip |
