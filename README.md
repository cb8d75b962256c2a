# newton-roots in Dafny

A model of the computational core of newton-roots. The program solves systems
of equations with Newton's method. It has three parts.

- **The expression engine** (expr.h, expr.cpp):
  - the tokenizer and the precedence-climbing parser of `Expr::parse`;
  - the set of variables and the fully parenthesised rendering;
  - `Expr::eval`, which evaluates a tree over plain numbers;
  - `Expr::diff`, which evaluates it over dual numbers for forward-mode
    differentiation.
- **The dense matrix** (matrix.h, matrix.cpp):
  - a height x width matrix of doubles, stored row after row in one buffer;
  - its constructors, indexing, cell-wise operations and product;
  - the Gauss-Jordan inverse with partial pivoting.
- **The solver** (solve.h, solve.cpp): Newton's iteration
  `x1 = x0 - J(x0)^-1 f(x0)`. It stops once two consecutive points are equal
  within absolute and relative tolerances.

Modules:

| module | contents |
|---|---|
| `Common` | Result and Option values, and the error kinds |
| `Chars` | the `<cctype>` classes |
| `Expression` | trees, variables, rendering |
| `Numbers` | trapping arithmetic, dual numbers |
| `Evaluation` | `eval_rec` over either number type, `eval`, `diff` |
| `Lexer` | the reads of the tokenizer, and the `Tokenizer` class |
| `Parser` | the operator tables, `parse_atom`, `parse_expr`, `Expr::parse` |
| `Grouping` | what the parser builds for each shape of input |
| `Examples` | concrete inputs |
| `Grids` | matrices as values |
| `GaussJordan` | the inverse as a function |
| `Matrices` | the `Matrix` class over an `array<real>` |
| `Solver` | the iteration and the `solve` loop |

How the model represents the program:

- **Numbers.** A `double` is modelled as a `real`.
- **Floating-point traps.** The library traps FE_DIVBYZERO and FE_INVALID.
  These become explicit domain conditions:
  - division by zero;
  - the logarithm of a non-positive number;
  - the square root of a negative number;
  - `pow` outside the domain where it is defined.
- **Math library.** `sin`, `cos`, `exp`, `log`, `sqrt` and `pow` are
  parameters of the model (`MathLib`).
- **Errors.** Each exception becomes a `Failure` value that propagates the way
  an uncaught exception does:
  - `ParseError`, told apart by the unexpected symbol or token and what was
    expected instead;
  - `MathError`: undefined variable, domain error, a Jacobian without inverse
    at iteration k, or no solution;
  - `std::invalid_argument` for mismatched dimensions.
- **Imperative code stays imperative.** The following are methods with loops,
  proved against the value-level functions beside them:
  - the tokenizer class;
  - the recursive-descent parser, over that class;
  - the `Matrix` class;
  - the elimination loops of the inverse;
  - the loop of `solve`.

## Model

| member | source | states |
|---|---|---|
| Expression.VariablesRec | expr.cpp:86-100 | the result holds exactly the names already collected plus every variable name occurring in the tree |
| Expression.Variables | expr.cpp:102-106 | the set holds exactly the variable names that occur in the tree |
| Expression.ShowRec | expr.cpp:325-372 | the buffer keeps its contents and gains exactly the rendering of the tree: binaries as `(l op r)`, named functions as `name(arg)`, negation as `-arg` |
| Expression.Show | expr.cpp:374-378 | the text is exactly the rendering of the tree, starting from an empty buffer |
| Expression.ShownBalanced | expr.cpp:325-372 | when no variable name or rendered constant contains a parenthesis, the rendering of every tree has balanced parentheses |
| Expression.ShownBinaryBalanced | expr.cpp:333-349 | a binary node renders balanced when both operands do |
| Expression.ShownUnaryBalanced | expr.cpp:350-370 | a unary node renders balanced when its argument does, with or without the call parentheses |
| Numbers.EDiv | expr.cpp:120-122 | fails, with a domain error, exactly when the divisor is zero; otherwise the quotient, whose product with the divisor is the dividend |
| Numbers.EPow | expr.cpp:124-126 | fails, with a domain error, exactly when pow is undefined at (x, y); otherwise the library's pow |
| Numbers.ELog | expr.cpp:128-130 | fails, with a domain error, exactly for x <= 0; otherwise the library's log |
| Numbers.ESqrt | expr.cpp:132-134 | fails, with a domain error, exactly for x < 0; otherwise the library's sqrt |
| Numbers.DualDiv | expr.cpp:206-210 | fails exactly when the divisor's value is zero; the value is the quotient, the derivative follows the quotient rule (zero for two constants), and the result is constant when both operands are |
| Numbers.PowDeriv | expr.cpp:214-229 | a derivative is found only where pow(x, y) is defined; a failure is a domain error |
| Numbers.DualPow | expr.cpp:212-231 | succeeds exactly when: the exponent is the constant 1; or the exponent is another constant and pow(x, y - 1) is defined; or the exponent varies, pow(x, y) is defined and x > 0. The value is the library's pow, and the result is constant when both operands are |
| Numbers.DualLn | expr.cpp:245-247 | fails exactly for x <= 0; the value is log x, the derivative times x is the argument's derivative, and the constant flag is kept |
| Numbers.DualSqrt | expr.cpp:253-255 | fails exactly for x < 0 or a zero root; the value is sqrt x, the derivative times 2 sqrt x is the argument's derivative, and the constant flag is kept |
| Numbers.QuotientOfConstants | expr.cpp:206-210 | the quotient rule gives derivative zero when neither operand varies |
| Evaluation.Eval | expr.cpp:297-306 | `eval` fails only with a domain error or an undefined variable |
| Evaluation.Diff | expr.cpp:308-323 | `diff` fails only with a domain error or an undefined variable |
| Evaluation.FirstMissing | expr.cpp:257-293 | none exactly when every listed name is bound; otherwise an unbound name all of whose predecessors are bound |
| Evaluation.FloatFailsOnlyInDomain | expr.cpp:136-165 | the fallible Float operations fail only with a domain error |
| Evaluation.DualFailsOnlyInDomain | expr.cpp:192-255 | the fallible Dual operations fail only with a domain error |
| Evaluation.EnvSeedBinds | expr.cpp:297-306 | eval's variable lookup succeeds exactly on the environment's names and otherwise reports that name as undefined |
| Evaluation.DualSeedBinds | expr.cpp:308-323 | diff's variable lookup succeeds exactly on the environment's names and otherwise reports that name as undefined |
| Evaluation.EvalRecFailures | expr.cpp:257-293 | for either number type, the walk succeeds only when every variable is bound; a failure is a domain error or names the leftmost unbound occurrence, operands being visited left before right |
| Evaluation.EvalNeedsAllVariables | expr.cpp:297-306 | a successful `eval` had every variable of the tree bound |
| Evaluation.EvalReportsFirstMissing | expr.cpp:297-306 | an undefined-variable failure of `eval` names the leftmost unbound occurrence |
| Evaluation.DiffReportsFirstMissing | expr.cpp:308-323 | the same two facts for `diff` |
| Evaluation.BinaryRefines | expr.cpp:192-231 | for each binary operator: where the dual operation succeeds, the plain one succeeds with the dual's value; where the plain one fails, the dual one fails too, with a domain error for a domain error; an undefined variable of the dual one is one of the plain one |
| Evaluation.UnaryRefines | expr.cpp:233-255 | the same for each unary operator |
| Evaluation.DualRefinesFloat | expr.cpp:257-293 | the same for whole trees: the walk over dual numbers refines the walk over plain numbers |
| Evaluation.DiffAgreesWithEval | expr.cpp:297-323 | the value part computed by `diff` is the result of `eval`; `diff` succeeds only where `eval` does; a domain error of `eval` is one of `diff`; an undefined variable reported by `diff` is the one `eval` reports |
| Evaluation.ConstantFlagTracksVariable | expr.cpp:308-323 | the computed dual number is flagged constant exactly when the variable of differentiation does not occur in the tree |
| Evaluation.DiffSqrtAtZero | expr.cpp:253-255 | where the argument of sqrt is zero, `eval` gives 0 but `diff` fails with a domain error |
| Evaluation.DerivVanishes | expr.cpp:192-255 | with a power rule that keeps derivative zero, or without a power node, the derivative by an absent variable is zero |
| Evaluation.IntendedPowKeepsZeroDeriv | expr.cpp:212-231 | the power rule with the base's derivative for exponent 1 maps derivative-zero operands to derivative zero |
| Evaluation.DiffIntendedVanishes | expr.cpp:212-231 | with that corrected rule, `diff` by a variable that does not occur is zero |
| Evaluation.DiffVanishesWithoutPow | expr.cpp:308-323 | with the rule as written, `diff` by a variable that does not occur is zero for every tree without a power node |
| Evaluation.UnitExponentAsWritten | expr.cpp:218-220 | the rule as written differentiates y ^ 1 by x, which does not occur in it, to 1; the corrected rule gives 0 |
| Lexer.SkipSpace | expr.cpp:488-490 | the position after the white space from pos: only spaces are skipped, and what follows is no space |
| Lexer.IdentEnd | expr.cpp:468-470 | the end of the run of letters, digits, '_' and '.' from pos |
| Lexer.DigitsEnd | expr.cpp:476-478 | the end of the run of digits from pos |
| Lexer.NumberEndNumeral | expr.cpp:473-484 | a number token is digits with at most one '.'; no digit follows it, and a '.' follows only if the number already has one |
| Lexer.NextToken | expr.cpp:486-517 | a read moves forward, and past at least one character unless it is the end of input; its token has the shape of its kind; a failure is an unrecognized symbol |
| Lexer.NextTokenSpec | expr.cpp:486-517 | the token text is the input after the white space up to the new position; the first character decides the kind (letter, operator, parenthesis, digit); the end of input is read exactly when only white space is left; any other character fails with that symbol; identifiers and numbers extend as far as they can |
| Lexer.SpaceSkipped | expr.cpp:488-490 | a read from pos is the read from the first character after the white space |
| Lexer.LexFrom | expr.cpp:486-517 | the sequence of reads from pos is well formed: no end-of-input token inside, every token of its kind's shape, and a lexical failure only as its tail |
| Lexer.Lex | expr.cpp:448-450 | the reads of the whole input are well formed |
| Lexer.Advance | expr.cpp:486-517 | the read after read i succeeds exactly when the stream allows it, and otherwise fails with the stream's lexical error |
| Lexer.ReadStep | expr.cpp:486-517 | a read at a position whose remaining reads are the stream after k reads yields read k: its token, or the end of input, or the lexical error |
| Lexer.Tokenizer.constructor | expr.cpp:448-450 | the tokenizer starts at position 0 before its first read, with an empty token |
| Lexer.Tokenizer.Get | expr.cpp:452-454 | the character at the reading position |
| Lexer.Tokenizer.Consume | expr.cpp:456-459 | the current character is appended to the token text and the position moves past it |
| Lexer.Tokenizer.Skip | expr.cpp:461-463 | the position moves past the current character; the token is unchanged |
| Lexer.Tokenizer.ReadIdent | expr.cpp:465-471 | the token is the identifier from the old position up to the end of its run of identifier characters |
| Lexer.Tokenizer.ConsumeDigits | expr.cpp:476-478 | the digits from the position are appended to the token text |
| Lexer.Tokenizer.ReadNumber | expr.cpp:473-484 | the token is the number from the old position to where the number ends |
| Lexer.Tokenizer.Scan | expr.cpp:486-517 | one read as the source performs it gives exactly the token, position and error of NextToken |
| Lexer.Tokenizer.ScanToken | expr.cpp:491-516 | the same, once the white space is skipped |
| Lexer.Tokenizer.Read | expr.cpp:486-517 | each call gives the next read of the stream: the next token, the end of input again once it is reached, or the lexical error |
| Parser.TrailingDotIgnored | expr.cpp:473-484 | "d." has the value of "d" and of its digits |
| Parser.ParseAtomF | expr.cpp:558-603 | an atom consumes at least one read, stops at a readable position and builds a tree of the grammar's operators |
| Parser.ParseUnaryF | expr.cpp:559-574 | the same for a prefix operator and its operand |
| Parser.ParseOperandF | expr.cpp:565-573 | the same for the operand of a prefix operator: an atom after a function name followed by '(', otherwise an expression at one above the operator's precedence |
| Parser.ParseGroupF | expr.cpp:575-586 | the same for a parenthesized expression |
| Parser.ParseExprF | expr.cpp:605-617 | the same, and the expression stops at a token that is no binary operator binding at least as tightly as the minimum precedence |
| Parser.ClimbF | expr.cpp:607-615 | the loop of parse_expr stops at a token that is no binary operator binding at least as tightly as the minimum precedence |
| Parser.ParseStream | expr.cpp:621-632 | a parse succeeds only when the lexer met no error and one expression takes every token |
| Parser.ParseAtom | expr.cpp:558-603 | over the tokenizer, parse_atom gives the result of ParseAtomF and leaves the tokenizer at the read after the atom |
| Parser.ParseUnary | expr.cpp:559-574 | the prefix branch of parse_atom gives the result of ParseUnaryF |
| Parser.ParseOperand | expr.cpp:565-573 | the operand of a prefix operator gives the result of ParseOperandF |
| Parser.ParseGroup | expr.cpp:575-586 | the parenthesis branch of parse_atom gives the result of ParseGroupF |
| Parser.ParseExpr | expr.cpp:605-617 | parse_expr gives the result of ParseExprF and leaves the tokenizer after it |
| Parser.ParseOperation | expr.cpp:611-614 | one turn of the loop of parse_expr gives the result of that turn of ClimbF |
| Parser.Parse | expr.cpp:621-632 | Expr::parse gives the result of the grammar on the reads of the input |
| Grouping.LeafParsed | expr.cpp:587-596 | a name or number token is a tree of the grammar |
| Grouping.OperandAtom | expr.cpp:587-596 | a number, or a name that is no prefix operator, is an atom of one read |
| Grouping.OperandExpr | expr.cpp:605-617 | such a token followed by no binding operator is the whole expression |
| Grouping.ClimbStep | expr.cpp:607-615 | a binding operator and its right operand, parsed at the operator's right precedence, extend the left operand |
| Grouping.ClimbOperand | expr.cpp:607-615 | the same when the right operand is one token |
| Grouping.AtomThenClimb | expr.cpp:605-606 | parse_expr is its atom followed by its loop |
| Grouping.ClimbStops | expr.cpp:607-609 | the loop ends at a token that does not bind |
| Grouping.AtomAlone | expr.cpp:605-617 | an atom followed by nothing that binds is the whole expression |
| Grouping.ClimbOnce | expr.cpp:607-615 | one turn of the loop and nothing after it gives the binary node |
| Grouping.AtomThenBinary | expr.cpp:605-617 | an atom, a binding operator and a right operand after which nothing binds give their binary node |
| Grouping.WholeStream | expr.cpp:621-632 | an expression that takes every token of a complete stream is the parse |
| Grouping.GroupStep | expr.cpp:575-586 | '(' expression ')' is an atom whose tree is the inner expression |
| Grouping.LeftLink | expr.cpp:607-615 | one turn over a left-associative chain links the next operand on the left |
| Grouping.LeftChainFrom | expr.cpp:605-617 | the loop over the rest of a left-associative chain folds it from the left |
| Grouping.LeftChain | expr.cpp:605-617 | a chain of left-associative operators of one precedence groups to the left |
| Grouping.RightChainFrom | expr.cpp:605-617 | a right-associative chain from j parses as its right fold |
| Grouping.RightChain | expr.cpp:605-617 | a chain of right-associative operators of one precedence groups to the right |
| Grouping.GroupsRight | expr.cpp:605-617 | a o1 b o2 c is a o1 (b o2 c) when o2 binds more tightly, or ties with a right-associative o1 |
| Grouping.GroupsLeft | expr.cpp:605-617 | otherwise it is (a o1 b) o2 c |
| Grouping.TwoOperators | expr.cpp:605-617 | both cases in one: which way a o1 b o2 c groups is decided by precedence and associativity alone |
| Grouping.PrefixStep | expr.cpp:559-574 | a prefix operator not followed by a call parenthesis takes an expression at one above its precedence |
| Grouping.CallStep | expr.cpp:565-569 | a function name followed by '(' takes the atom that starts there |
| Grouping.PrefixTakesBinary | expr.cpp:559-574 | u a o b is u (a o b) when o binds more tightly than u |
| Grouping.PrefixTakesOperand | expr.cpp:559-574 | u a o b is (u a) o b otherwise |
| Grouping.PrefixThenBinary | expr.cpp:559-574 | both cases in one |
| Grouping.NestedPrefix | expr.cpp:559-574 | u1 u2 a is u1 (u2 a) |
| Grouping.CallThenBinary | expr.cpp:565-569 | f ( a ) o b is (f a) o b: the parentheses are the whole argument |
| Grouping.EmptyInput | expr.cpp:597-602 | empty input fails: the end of input is met where an operand is expected |
| Grouping.FirstReadFails | expr.cpp:621-624 | a lexical error in the first read is the error of the parse |
| Grouping.AtomFails | expr.cpp:605-606 | a failing atom fails its expression with the same error |
| Grouping.RightOperandFails | expr.cpp:611-614 | a failing right operand fails the loop with the same error |
| Grouping.StreamFails | expr.cpp:621-632 | a failing expression fails Expr::parse with the same error |
| Grouping.MissingOperand | expr.cpp:597-602 | any expression followed by a binary operator as the last token fails: the end of input is met where the operator's right operand is expected |
| Grouping.CutExpr | expr.cpp:558-617 | dropping the last token: a parse that succeeds without it either is also the parse with it, or the parse with it fails on an operand missing at the end of input |
| Grouping.Juxtaposed | expr.cpp:625-630 | two operands in a row fail: the second is met where a binary operator or the end was expected |
| Grouping.UnclosedGroup | expr.cpp:578-583 | a '(' whose expression runs to the end of input fails as an atom: the end of input is met where ')' is expected |
| Grouping.Unclosed | expr.cpp:578-583 | an input that opens with '(' and whose expression after it runs to the end fails: the end of input is met where ')' is expected |
| Examples.DigitNumber | expr.cpp:592-596 | a one-digit number has that digit's value |
| Examples.Equation | expr.cpp:529-538 | the tokens of y = x - 3 parse as y - (x - 3) |
| Examples.PowerGroupsRight | expr.cpp:605-617 | the tokens of 2 ^ 3 ^ 2 parse as 2 ^ (3 ^ 2) |
| Examples.QuotientGroupsLeft | expr.cpp:605-617 | the tokens of 8 / 4 / 2 parse as (8 / 4) / 2 |
| Examples.NegatedPower | expr.cpp:547-554 | the tokens of - 2 ^ 2 parse as -(2 ^ 2) |
| Examples.NegatedProduct | expr.cpp:547-554 | the tokens of - a * b parse as (-a) * b |
| Examples.SineOfNegation | expr.cpp:558-574 | the tokens of sin - 1 parse as sin(-1) |
| Examples.SineOfPower | expr.cpp:558-574 | the tokens of sin x ^ 2 parse as sin(x ^ 2) |
| Examples.PowerOfSine | expr.cpp:565-569 | the tokens of sin ( x ) ^ 2 parse as (sin x) ^ 2 |
| Examples.LexName | expr.cpp:465-471 | a letter and the identifier characters after it are read as one name |
| Examples.LexInteger | expr.cpp:473-484 | digits followed by neither a digit nor '.' are read as one number |
| Examples.LexEnd | expr.cpp:491-494 | at the end of the input there are no more tokens |
| Examples.LexDigitLetter | expr.cpp:486-517 | "2x" is read as the number 2 and then the name x |
| Examples.ImplicitProduct | expr.cpp:621-632 | "2x" fails to parse: x is met where an operator or the end was expected |
| Grids.IdentityLeft | matrix.cpp:55-72 | I a = a |
| Grids.IdentityRight | matrix.cpp:55-72 | a I = a |
| Grids.ProductCombine | matrix.cpp:116-125 | subtracting c times row k from row i of a product is the same row operation on its left factor |
| Grids.ProductSwap | matrix.cpp:111-115 | swapping two rows of a product swaps them in its left factor |
| Grids.ProductAssociative | matrix.cpp:55-72 | (a b) c = a (b c) |
| GaussJordan.Abs | matrix.cpp:102-107 | the magnitude of x: not negative, and x or -x |
| GaussJordan.Augment | matrix.cpp:91-99 | the n x 2n matrix [a \| I] |
| GaussJordan.LeftHalf | matrix.cpp:91-99 | the left n x n half of an augmented matrix |
| GaussJordan.RightHalf | matrix.cpp:133-139 | the right n x n half of an augmented matrix |
| GaussJordan.PivotFrom | matrix.cpp:102-107 | a row at or below k with the largest magnitude in column k, the earliest one on a tie |
| GaussJordan.Pivot | matrix.cpp:102-107 | the pivot row of column k is at or below k, has the largest magnitude in column k, and is the earliest such row |
| GaussJordan.SwapFrom | matrix.cpp:111-115 | rows k and p exchange their cells from column k on; earlier columns and other rows are unchanged |
| GaussJordan.EliminateRow | matrix.cpp:120-124 | row i minus ratio times row k, with the cell in column k set to exactly zero |
| GaussJordan.EliminateAll | matrix.cpp:116-125 | column k becomes zero except in row k; row k and the earlier columns are unchanged |
| GaussJordan.Step | matrix.cpp:101-126 | no step exactly when the pivot is within epsilon of zero; otherwise the pivot is moved to row k and column k is cleared |
| GaussJordan.Eliminate | matrix.cpp:101-126 | steps k to n - 1, stopping at the first pivot within epsilon of zero. From a matrix already reduced up to column k, a result is reduced in every column: the left half is diagonal with every pivot beyond epsilon. Each step keeps the right half times a equal to the left half |
| GaussJordan.NormalizeRow | matrix.cpp:128-131 | the row divided by its pivot has a one at the pivot |
| GaussJordan.Inverse | matrix.cpp:85-140 | none for a matrix that is not square; a result b is a left inverse, b a = I |
| GaussJordan.SwapFromIsSwap | matrix.cpp:111-115 | when columns before k are already zero below the diagonal, swapping from column k on swaps the whole rows |
| GaussJordan.EliminateIsCombine | matrix.cpp:116-125 | the elimination of a row is the row operation "subtract ratio times row k" |
| GaussJordan.StepInverts | matrix.cpp:101-126 | a step keeps the right half times a equal to the left half, which holds of [a \| I] at the start |
| GaussJordan.NormalizeLeavesIdentity | matrix.cpp:127-132 | normalizing a diagonal left half leaves the identity there |
| GaussJordan.AugmentHalves | matrix.cpp:91-99 | the left half of [a \| I] is a and its right half is I |
| GaussJordan.InverseFound | matrix.cpp:85-140 | a successful elimination and normalization leave the inverse in the right half |
| GaussJordan.InverseOfScalar | matrix.cpp:85-140 | a 1 x 1 matrix [v] with v beyond epsilon in magnitude has the inverse [1 / v] |
| GaussJordan.FirstColumnNearZero | matrix.cpp:101-110 | a matrix whose first column is within epsilon of zero has no inverse |
| Matrices.Offset | matrix.cpp:39-45 | cell (i, j) of an h x w matrix is stored below h w |
| Matrices.OffsetsDiffer | matrix.cpp:39-45 | distinct cells are stored at distinct offsets |
| Matrices.Matrix.Zero | matrix.cpp:7-10 | a fresh h x w matrix of zeros |
| Matrices.Matrix.Seeded | matrix.h:51-58 | a fresh h x w matrix with seed(i, j) in cell (i, j) |
| Matrices.Matrix.FromRows | matrix.cpp:12-33 | a dimension error exactly when some row is not as long as the first; otherwise the matrix of those rows, as high as their number and as wide as the first row |
| Matrices.Matrix.Get | matrix.cpp:39-41 | the value of cell (i, j) |
| Matrices.Matrix.Set | matrix.cpp:43-45 | cell (i, j) takes the value; nothing else changes |
| Matrices.Matrix.Apply | matrix.h:60-72 | a dimension error exactly when the shapes differ; otherwise a fresh matrix with op applied cell by cell |
| Matrices.Matrix.Add | matrix.cpp:47-49 | a dimension error exactly when the shapes differ; otherwise the cell-by-cell sum |
| Matrices.Matrix.Sub | matrix.cpp:51-53 | a dimension error exactly when the shapes differ; otherwise the cell-by-cell difference |
| Matrices.Matrix.Mul | matrix.cpp:55-72 | a dimension error exactly when this is not as wide as rhs is high; otherwise the product |
| Matrices.Matrix.AccumulateCell | matrix.cpp:63-70 | cell (i, j) of the result becomes the dot product of row i and column j; nothing else changes |
| Matrices.Matrix.Inverse | matrix.cpp:85-140 | none exactly when Gauss-Jordan elimination finds no inverse; otherwise a fresh n x n matrix holding it |
| Matrices.Matrix.Augmented | matrix.cpp:91-99 | a fresh [a \| I] |
| Matrices.Matrix.Eliminate | matrix.cpp:101-126 | false exactly when a pivot is within epsilon of zero; otherwise the matrix is the result of every elimination step |
| Matrices.Matrix.Step | matrix.cpp:102-125 | one step of the elimination, or no change when the pivot is within epsilon of zero |
| Matrices.Matrix.PivotRow | matrix.cpp:102-107 | the pivot row of column k |
| Matrices.Matrix.SwapFrom | matrix.cpp:111-115 | rows k and p exchange their cells from column k on |
| Matrices.Matrix.EliminateColumn | matrix.cpp:116-125 | column k is cleared in every row but k |
| Matrices.Matrix.EliminateRowOf | matrix.cpp:117-124 | row i is eliminated against row k; the other rows are unchanged |
| Matrices.Matrix.Normalize | matrix.cpp:127-132 | each row is divided by its pivot |
| Matrices.Matrix.NormalizeRowOf | matrix.cpp:128-131 | row k is divided by its pivot; the other rows are unchanged |
| Matrices.Matrix.RightHalf | matrix.cpp:133-139 | a fresh n x n copy of the right half |
| Solver.Max | solve.cpp:11-15 | the larger of two numbers: at least both, and one of them |
| Solver.EqualsSymmetric | solve.cpp:11-15 | equality within tolerances is symmetric |
| Solver.EqualsReflexive | solve.cpp:11-15 | with a non-negative absolute tolerance every number equals itself |
| Solver.RelativeEqualsScales | solve.h:20-23 | relative equality does not depend on scale: for c > 0, c a and c b are relatively equal exactly when a and b are |
| Solver.MatrixEquals | solve.cpp:17-28 | true exactly when every cell equals its counterpart within the tolerances |
| Solver.TabulateRowCells | solve.cpp:42-47 | a row is computed exactly when each of its cells is, and it holds their values |
| Solver.TabulateCells | solve.cpp:42-47 | a matrix of computed cells is computed exactly when each cell is, and it holds their values |
| Solver.TabulateReportsFirstFailure | solve.cpp:42-47 | the failure reported is that of the first failing cell in row-major order |
| Solver.CellFailure | solve.cpp:42-47 | a failure of the matrix is the failure of one of its cells |
| Solver.TabulateMatrix | solve.cpp:42-47 | the seeded constructor with cells that may throw: the first failure propagates, otherwise a fresh matrix of the cells |
| Solver.FillRow | matrix.h:54-56 | row i is filled with its cells in turn, or the first cell's failure is reported |
| Solver.BindBinds | solve.cpp:38-41 | the environment binds exactly the initial names, each to the current value of its last occurrence |
| Solver.Environment | solve.cpp:38-41 | the environment of the current point |
| Solver.NextPoint | solve.cpp:42-52 | a next point has the shape of the initial vector, and exists only when there are as many functions as variables |
| Solver.StepSolvesLinearSystem | solve.cpp:48-52 | the step solves the linearized system: whenever J d = y, the next point is x0 - d |
| Solver.NoInverseIsStuck | solve.cpp:48-51 | once the Jacobian and the residuals are computed, the iteration fails exactly when the Jacobian has no inverse, and then with Stuck at that iteration |
| Solver.NextPointFailure | solve.cpp:38-52 | an iteration fails with an undefined variable, a domain error, or Stuck at that iteration |
| Solver.Step | solve.cpp:38-52 | one iteration on Matrix objects gives exactly the next point or its failure |
| Solver.MaxDiffIsMaximum | solve.cpp:55-59 | max_diff is not negative, bounds every change of a variable, and is zero or one of those changes |
| Solver.VarsInOrder | solve.cpp:57-61 | binding i of the solution is initial name i with its value in the last point |
| Solver.Finish | solve.cpp:54-62 | the solution built one variable at a time is the reported solution |
| Solver.NewtonStep | solve.cpp:38-52 | Newton's step leads from a point of n variables to a point of n variables |
| Solver.NewtonSolve | solve.cpp:32-67 | with a budget of zero iterations there is no solution |
| Solver.Solve | solve.cpp:32-67 | the loop over Matrix objects computes exactly Newton's iteration from the initial values |
| Solver.IterateBounds | solve.cpp:37-53 | a solution is reported at an iteration between the first and max_iters, and not before min_iters |
| Solver.IterateFailure | solve.cpp:37-66 | a failure is "no solution" or the failure of a step at an iteration within the budget |
| Solver.IterateConverges | solve.cpp:53-62 | a solution comes from a step whose two points are close |
| Solver.SolveIterations | solve.h:38-44 | solve reports a solution only at an iteration in [max(1, min_iters), max_iters] |
| Solver.SolveFailures | solve.cpp:32-67 | solve fails with an undefined variable, a domain error, a Jacobian without inverse at an iteration in [1, max_iters], or for want of a solution |
| Solver.SolveSolution | solve.cpp:52-62 | a solution holds the values of its last point. That point is Newton's step, at the solution's iteration count, from the point before. The two points are close, and max_diff is the largest change between them |
| Solver.SolveNames | solve.cpp:54-62 | a solution names the initial variables in their order, and its max_diff is not negative |
| Solver.NonSquareFails | solve.cpp:48-51 | with more or fewer functions than variables solve never succeeds; with a budget of at least one iteration it fails at the first iteration |

## Left out

- Floating point.
  - IEEE rounding, infinities and NaN are not modelled; a `double` is a `real`.
  - The floating-point environment (`feclearexcept`, `fetestexcept`) is replaced by the domain conditions under which the library would raise FE_DIVBYZERO or FE_INVALID.
  - Overflow to infinity, which raises neither flag, is not modelled.
  - `checked` is therefore not a separate member; each trapping operation states its own failure condition.
- The values of `sin`, `cos`, `exp`, `log`, `sqrt` and `pow` are parameters of the model; nothing is assumed about them except where a lemma names it.
- `std::stod` is modelled as the exact decimal value of the token text (`Parser.NumberValue`), without rounding.
- `std::stod` throws `std::out_of_range` for a numeral beyond the range of `double` (expr.cpp:593); the model gives every numeral its exact value, so such a parse succeeds.
- `std::to_string`: how `Expr::show` prints a constant is a parameter, `render`.
- Text output is not modelled:
  - `Token::show` and `Matrix::show`;
  - the wording of exception messages, beyond the kind of error and the offending token or name.
- The user interface (mainwindow.cpp), the builder operators of expr.cpp:42-84, and the test files are not part of this model.
- Storage and types.
  - `shared_ptr` sharing of subtrees is not modelled; trees are values.
  - `std::unordered_set` and `std::unordered_map` are modelled as `set` and `map`.
  - `size_t` is modelled as `nat`, without wrap-around. The sizes involved are lengths of inputs and iteration counts.
- GaussJordan.Inverse: the result is proved a left inverse (`b a = I`). It is not proved to be a right inverse as well, and `None` is not related to exact singularity: the source gives up at a pivot within epsilon of zero, and the model states exactly that condition.
- Solver.NewtonSolve: its own contract states only the case max_iters = 0; its meaning is the recursive definition and the lemmas after it.
- Solver.SolveSolution: the "only if" half of the termination contract of solve.h:40-44 is proved. The "if" half is not proved as a lemma. It is the recursive definition of the iteration itself: the first iteration from min_iters on whose point is close to the one before ends it.
- Solver.MatrixEquals: requires operands of one shape. solve compares only the point before and after a step, which always have the shape of the initial vector.
- The Jacobian and residual seeds return the value 0 for a cell index outside the functions or variables. This only keeps the seeds total; the matrices are built only over valid indices.

## Findings

| source | as written | input that shows it | evidently intended | confidence | as-written member | corrected member |
|---|---|---|---|---|---|---|
| expr.cpp:218-220 | for a constant exponent 1 the derivative of x ^ y is set to 1.0 | y ^ 1 differentiated by x, with x = 0 and y = 2, gives 1, though x does not occur in it; (2 x) ^ 1 gives 1 instead of 2 | the base's derivative, which k x^(k-1) x' gives for k = 1 | medium, not executed | Evaluation.UnitExponentAsWritten | Evaluation.DiffIntendedVanishes |

The rule as written is what `Evaluation.Diff` computes. `Solver` uses it,
because it models solve as it runs. `Evaluation.DiffIntended` is the same
differentiation with the corrected rule. `Evaluation.DiffIntendedVanishes`
proves about it what the rule as written breaks: a variable that does not
occur has derivative zero.
