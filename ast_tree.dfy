/**
 * The expression parser of the `12-ast-tree` exercise, written out as
 * recursive descent over a string and a cursor.  Each grammar level returns
 * `Some((tree, next cursor))` or `None`; a failed attempt inside a
 * repetition rewinds to where the attempt started, as the combinators do.
 *
 *   sum     := product (('+' | '-') product)*
 *   product := unary (('*' | '/') unary)*
 *   unary   := '~'* int | '-'* int
 *
 * Operators are padded with whitespace on both sides; the whole input may be
 * padded too and must be consumed.
 */
module AstTree {
  import opened Wrappers
  import opened Text

  /** The `Expr` tree; `Num` carries the value of its digit run. */
  datatype Expr =
    | Num(value: nat)
    | Negative(operand: Expr)
    | Invert(operand: Expr)
    | Add(left: Expr, right: Expr)
    | Sub(left: Expr, right: Expr)
    | Mult(left: Expr, right: Expr)
    | Div(left: Expr, right: Expr)

  datatype UnaryOp = NegateOp | InvertOp

  datatype BinaryOp = AddOp | SubOp | MultOp | DivOp

  function UnarySymbol(op: UnaryOp): char
  {
    match op
    case NegateOp => '-'
    case InvertOp => '~'
  }

  function ApplyUnary(op: UnaryOp, e: Expr): Expr
  {
    match op
    case NegateOp => Negative(e)
    case InvertOp => Invert(e)
  }

  function ApplyBinary(op: BinaryOp, lhs: Expr, rhs: Expr): Expr
  {
    match op
    case AddOp => Add(lhs, rhs)
    case SubOp => Sub(lhs, rhs)
    case MultOp => Mult(lhs, rhs)
    case DivOp => Div(lhs, rhs)
  }

  /** The number of prefix nodes above the innermost operand. */
  function ChainDepth(e: Expr): nat
  {
    match e
    case Negative(x) => 1 + ChainDepth(x)
    case Invert(x) => 1 + ChainDepth(x)
    case _ => 0
  }

  /** The literal under the prefix nodes (0 when a binary node is reached first). */
  function ChainLeaf(e: Expr): nat
  {
    match e
    case Num(n) => n
    case Negative(x) => ChainLeaf(x)
    case Invert(x) => ChainLeaf(x)
    case _ => 0
  }

  /**
   * `foldr` of a run of `n` prefix operators onto the operand: the operand
   * ends up under exactly `n` more prefix nodes, and its literal is kept.
   */
  function FoldR(op: UnaryOp, n: nat, e: Expr): (r: Expr)
    ensures ChainDepth(r) == n + ChainDepth(e)
    ensures ChainLeaf(r) == ChainLeaf(e)
  {
    if n == 0 then e else ApplyUnary(op, FoldR(op, n - 1, e))
  }

  /**
   * `foldl` of the `(operator, operand)` pairs onto the first operand: the
   * last operator ends up at the root with the last operand as its right
   * child, so the chain associates to the left.
   */
  function FoldL(acc: Expr, pairs: seq<(BinaryOp, Expr)>): (r: Expr)
    ensures pairs != [] ==>
      var last := pairs[|pairs| - 1];
      !r.Num? && !r.Negative? && !r.Invert? && r == ApplyBinary(last.0, r.left, last.1)
    decreases |pairs|
  {
    if pairs == [] then acc else FoldL(ApplyBinary(pairs[0].0, acc, pairs[0].1), pairs[1..])
  }

  /** `text::whitespace()`: the cursor after the longest run of whitespace. */
  function SkipWhitespace(s: string, i: nat): (j: nat)
    requires i <= |s|
    ensures i <= j <= |s|
    ensures forall k :: i <= k < j ==> IsWhitespace(s[k])
    ensures j == |s| || !IsWhitespace(s[j])
    decreases |s| - i
  {
    if i < |s| && IsWhitespace(s[i]) then SkipWhitespace(s, i + 1) else i
  }

  /** `just(c).padded()`: whitespace, the character `c`, whitespace. */
  function Oper(s: string, i: nat, c: char): (r: Option<nat>)
    requires i <= |s|
    ensures r.Some? <==> SkipWhitespace(s, i) < |s| && s[SkipWhitespace(s, i)] == c
    ensures r.Some? ==> i < r.value <= |s|
  {
    var j := SkipWhitespace(s, i);
    if j < |s| && s[j] == c then Some(SkipWhitespace(s, j + 1)) else None
  }

  /** The cursor after the longest run of digits. */
  function DigitRun(s: string, i: nat): (j: nat)
    requires i <= |s|
    ensures i <= j <= |s|
    ensures AllDigits(s[i..j])
    ensures j == |s| || !IsDigit(s[j])
    decreases |s| - i
  {
    if i < |s| && IsDigit(s[i]) then DigitRun(s, i + 1) else i
  }

  /**
   * `text::int(10)`: a non-zero digit followed by every digit after it, or
   * else a single '0'.  After a leading '0' the literal ends, so "007" reads
   * as "0" followed by unconsumed input.
   */
  function Int(s: string, i: nat): (r: Option<(string, nat)>)
    requires i <= |s|
    ensures r.Some? ==> i < r.value.1 <= |s| && r.value.0 == s[i..r.value.1]
    ensures r.Some? ==> IsCanonical(r.value.0)
    ensures r.Some? && r.value.1 < |s| && s[i] != '0' ==> !IsDigit(s[r.value.1])
    ensures r.None? <==> i == |s| || !IsDigit(s[i])
  {
    if i < |s| && IsDigit(s[i]) && s[i] != '0' then
      var j := DigitRun(s, i + 1);
      assert s[i..j] == [s[i]] + s[i + 1..j];
      Some((s[i..j], j))
    else if i < |s| && s[i] == '0' then
      Some((s[i..i + 1], i + 1))
    else
      None
  }

  /** `number`: an integer literal as a `Num` leaf. */
  function Number(s: string, i: nat): (r: Option<(Expr, nat)>)
    requires i <= |s|
    ensures r.Some? ==> i < r.value.1 <= |s| && r.value.0.Num?
  {
    match Int(s, i)
    case None => None
    case Some((digits, j)) => Some((Num(ValueOf(digits)), j))
  }

  /** `oper(c).repeated()`: how many padded `c` follow, and the cursor after them. */
  function OperRun(s: string, i: nat, c: char): (r: (nat, nat))
    requires i <= |s|
    ensures i <= r.1 <= |s|
    ensures r.0 == 0 <==> r.1 == i
    decreases |s| - i
  {
    match Oper(s, i, c)
    case None => (0, i)
    case Some(j) =>
      var (n, k) := OperRun(s, j, c);
      (n + 1, k)
  }

  /** `negate_expr` / `deref_expr`: a run of one prefix operator, then a literal, folded right. */
  function Prefixed(s: string, i: nat, op: UnaryOp): (r: Option<(Expr, nat)>)
    requires i <= |s|
    ensures r.Some? ==> i < r.value.1 <= |s|
  {
    var (n, j) := OperRun(s, i, UnarySymbol(op));
    match Number(s, j)
    case None => None
    case Some((leaf, k)) => Some((FoldR(op, n, leaf), k))
  }

  /** `unary_expr = deref_expr.or(negate_expr)`. */
  function Unary(s: string, i: nat): (r: Option<(Expr, nat)>)
    requires i <= |s|
    ensures r.Some? ==> i < r.value.1 <= |s|
  {
    var inverted := Prefixed(s, i, InvertOp);
    if inverted.Some? then inverted else Prefixed(s, i, NegateOp)
  }

  /** `oper('*').to(Mult).or(oper('/').to(Div))`. */
  function ProductOper(s: string, i: nat): (r: Option<(BinaryOp, nat)>)
    requires i <= |s|
    ensures r.Some? ==> i < r.value.1 <= |s| && r.value.0 in {MultOp, DivOp}
  {
    match Oper(s, i, '*')
    case Some(j) => Some((MultOp, j))
    case None =>
      match Oper(s, i, '/')
      case Some(j) => Some((DivOp, j))
      case None => None
  }

  /** `oper('+').to(Add).or(oper('-').to(Sub))`. */
  function SumOper(s: string, i: nat): (r: Option<(BinaryOp, nat)>)
    requires i <= |s|
    ensures r.Some? ==> i < r.value.1 <= |s| && r.value.0 in {AddOp, SubOp}
  {
    match Oper(s, i, '+')
    case Some(j) => Some((AddOp, j))
    case None =>
      match Oper(s, i, '-')
      case Some(j) => Some((SubOp, j))
      case None => None
  }

  /** `(product operator then unary_expr).repeated()`: the pairs read, and the cursor after them. */
  function ProductTail(s: string, i: nat): (r: (seq<(BinaryOp, Expr)>, nat))
    requires i <= |s|
    ensures i <= r.1 <= |s|
    decreases |s| - i
  {
    match ProductOper(s, i)
    case None => ([], i)
    case Some((op, j)) =>
      match Unary(s, j)
      case None => ([], i)
      case Some((rhs, k)) =>
        var (rest, m) := ProductTail(s, k);
        ([(op, rhs)] + rest, m)
  }

  /** `product_expr`: unary operands joined by `*` and `/`, folded left. */
  function Product(s: string, i: nat): (r: Option<(Expr, nat)>)
    requires i <= |s|
    ensures r.Some? ==> i < r.value.1 <= |s|
  {
    match Unary(s, i)
    case None => None
    case Some((first, j)) =>
      var (pairs, k) := ProductTail(s, j);
      Some((FoldL(first, pairs), k))
  }

  /** `(sum operator then product_expr).repeated()`. */
  function SumTail(s: string, i: nat): (r: (seq<(BinaryOp, Expr)>, nat))
    requires i <= |s|
    ensures i <= r.1 <= |s|
    decreases |s| - i
  {
    match SumOper(s, i)
    case None => ([], i)
    case Some((op, j)) =>
      match Product(s, j)
      case None => ([], i)
      case Some((rhs, k)) =>
        var (rest, m) := SumTail(s, k);
        ([(op, rhs)] + rest, m)
  }

  /** `sum_expr`: product operands joined by `+` and `-`, folded left. */
  function Sum(s: string, i: nat): (r: Option<(Expr, nat)>)
    requires i <= |s|
    ensures r.Some? ==> i < r.value.1 <= |s|
  {
    match Product(s, i)
    case None => None
    case Some((first, j)) =>
      var (pairs, k) := SumTail(s, j);
      Some((FoldL(first, pairs), k))
  }

  /**
   * `sum_expr.padded().then_ignore(end())` applied to the whole input; an
   * input that is empty or only whitespace is refused.
   */
  function Parse(s: string): (r: Option<Expr>)
    ensures r.Some? ==> exists k :: 0 <= k < |s| && !IsWhitespace(s[k])
  {
    var i := SkipWhitespace(s, 0);
    match Sum(s, i)
    case None => None
    case Some((e, j)) => if SkipWhitespace(s, j) == |s| then Some(e) else None
  }
}
