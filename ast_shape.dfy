/**
 * The shape of the trees the expression parser builds.  The grammar has no
 * parentheses, so a parsed tree is a left-leaning chain of `Add`/`Sub`
 * whose operands are left-leaning chains of `Mult`/`Div` whose operands are
 * runs of one prefix operator around a literal.  From that shape follow
 * precedence, left associativity and unmixed prefix runs.
 */
module AstShape {
  import opened Wrappers
  import opened AstTree

  /** A run of `op` nodes, possibly empty, around a literal. */
  predicate IsChain(op: UnaryOp, e: Expr)
  {
    match e
    case Num(_) => true
    case Negative(x) => op == NegateOp && IsChain(op, x)
    case Invert(x) => op == InvertOp && IsChain(op, x)
    case _ => false
  }

  predicate IsUnaryShape(e: Expr)
  {
    IsChain(NegateOp, e) || IsChain(InvertOp, e)
  }

  predicate IsProductShape(e: Expr)
  {
    match e
    case Mult(l, r) => IsProductShape(l) && IsUnaryShape(r)
    case Div(l, r) => IsProductShape(l) && IsUnaryShape(r)
    case _ => IsUnaryShape(e)
  }

  predicate IsSumShape(e: Expr)
  {
    match e
    case Add(l, r) => IsSumShape(l) && IsProductShape(r)
    case Sub(l, r) => IsSumShape(l) && IsProductShape(r)
    case _ => IsProductShape(e)
  }

  /** No `Add` or `Sub` node anywhere in `e`. */
  predicate NoAdditive(e: Expr)
  {
    match e
    case Num(_) => true
    case Negative(x) => NoAdditive(x)
    case Invert(x) => NoAdditive(x)
    case Add(_, _) => false
    case Sub(_, _) => false
    case Mult(l, r) => NoAdditive(l) && NoAdditive(r)
    case Div(l, r) => NoAdditive(l) && NoAdditive(r)
  }

  /** Precedence: beneath a `Mult`, `Div`, `Negative` or `Invert` node there is no `Add`/`Sub`. */
  predicate PrecedenceRespected(e: Expr)
  {
    match e
    case Add(l, r) => PrecedenceRespected(l) && PrecedenceRespected(r)
    case Sub(l, r) => PrecedenceRespected(l) && PrecedenceRespected(r)
    case _ => NoAdditive(e)
  }

  predicate IsBinary(e: Expr)
  {
    e.Add? || e.Sub? || e.Mult? || e.Div?
  }

  /**
   * Left associativity: the right operand of `Add`/`Sub` is never `Add`/`Sub`,
   * and the right operand of `Mult`/`Div` is never a binary node.
   */
  predicate LeftAssociative(e: Expr)
  {
    match e
    case Num(_) => true
    case Negative(x) => LeftAssociative(x)
    case Invert(x) => LeftAssociative(x)
    case Add(l, r) => !r.Add? && !r.Sub? && LeftAssociative(l) && LeftAssociative(r)
    case Sub(l, r) => !r.Add? && !r.Sub? && LeftAssociative(l) && LeftAssociative(r)
    case Mult(l, r) => !IsBinary(r) && LeftAssociative(l) && LeftAssociative(r)
    case Div(l, r) => !IsBinary(r) && LeftAssociative(l) && LeftAssociative(r)
  }

  /** A `Negative` node wraps only `Num` or `Negative`; an `Invert` node only `Num` or `Invert`. */
  predicate UnmixedPrefixes(e: Expr)
  {
    match e
    case Num(_) => true
    case Negative(x) => (x.Num? || x.Negative?) && UnmixedPrefixes(x)
    case Invert(x) => (x.Num? || x.Invert?) && UnmixedPrefixes(x)
    case Add(l, r) => UnmixedPrefixes(l) && UnmixedPrefixes(r)
    case Sub(l, r) => UnmixedPrefixes(l) && UnmixedPrefixes(r)
    case Mult(l, r) => UnmixedPrefixes(l) && UnmixedPrefixes(r)
    case Div(l, r) => UnmixedPrefixes(l) && UnmixedPrefixes(r)
  }

  // ----- what each grammar level builds -----

  lemma {:induction false} FoldRIsChain(op: UnaryOp, n: nat, e: Expr)
    requires e.Num?
    ensures IsChain(op, FoldR(op, n, e))
  {
    if n > 0 {
      FoldRIsChain(op, n - 1, e);
    }
  }

  /** `unary_expr` yields a run of one prefix operator around a literal. */
  lemma UnaryShaped(s: string, i: nat)
    requires i <= |s| && Unary(s, i).Some?
    ensures IsUnaryShape(Unary(s, i).value.0)
  {
    var op := if Prefixed(s, i, InvertOp).Some? then InvertOp else NegateOp;
    var (n, j) := OperRun(s, i, UnarySymbol(op));
    FoldRIsChain(op, n, Number(s, j).value.0);
  }

  lemma {:induction false} ProductTailShaped(s: string, i: nat)
    requires i <= |s|
    ensures forall k :: 0 <= k < |ProductTail(s, i).0| ==>
      ProductTail(s, i).0[k].0 in {MultOp, DivOp} && IsUnaryShape(ProductTail(s, i).0[k].1)
    decreases |s| - i
  {
    match ProductOper(s, i)
    case None =>
    case Some((op, j)) =>
      match Unary(s, j)
      case None =>
      case Some((rhs, k)) =>
        UnaryShaped(s, j);
        ProductTailShaped(s, k);
  }

  lemma {:induction false} FoldLProductShaped(acc: Expr, pairs: seq<(BinaryOp, Expr)>)
    requires IsProductShape(acc)
    requires forall k :: 0 <= k < |pairs| ==> pairs[k].0 in {MultOp, DivOp} && IsUnaryShape(pairs[k].1)
    ensures IsProductShape(FoldL(acc, pairs))
    decreases |pairs|
  {
    if pairs != [] {
      FoldLProductShaped(ApplyBinary(pairs[0].0, acc, pairs[0].1), pairs[1..]);
    }
  }

  /** `product_expr` yields a left-leaning `Mult`/`Div` chain over unary operands. */
  lemma ProductShaped(s: string, i: nat)
    requires i <= |s| && Product(s, i).Some?
    ensures IsProductShape(Product(s, i).value.0)
  {
    var (first, j) := Unary(s, i).value;
    UnaryShaped(s, i);
    ProductTailShaped(s, j);
    FoldLProductShaped(first, ProductTail(s, j).0);
  }

  lemma {:induction false} SumTailShaped(s: string, i: nat)
    requires i <= |s|
    ensures forall k :: 0 <= k < |SumTail(s, i).0| ==>
      SumTail(s, i).0[k].0 in {AddOp, SubOp} && IsProductShape(SumTail(s, i).0[k].1)
    decreases |s| - i
  {
    match SumOper(s, i)
    case None =>
    case Some((op, j)) =>
      match Product(s, j)
      case None =>
      case Some((rhs, k)) =>
        ProductShaped(s, j);
        SumTailShaped(s, k);
  }

  lemma {:induction false} FoldLSumShaped(acc: Expr, pairs: seq<(BinaryOp, Expr)>)
    requires IsSumShape(acc)
    requires forall k :: 0 <= k < |pairs| ==> pairs[k].0 in {AddOp, SubOp} && IsProductShape(pairs[k].1)
    ensures IsSumShape(FoldL(acc, pairs))
    decreases |pairs|
  {
    if pairs != [] {
      FoldLSumShaped(ApplyBinary(pairs[0].0, acc, pairs[0].1), pairs[1..]);
    }
  }

  lemma ProductIsSumShape(e: Expr)
    requires IsProductShape(e)
    ensures IsSumShape(e)
  {
  }

  /** `sum_expr` yields a left-leaning `Add`/`Sub` chain over product operands. */
  lemma SumShaped(s: string, i: nat)
    requires i <= |s| && Sum(s, i).Some?
    ensures IsSumShape(Sum(s, i).value.0)
  {
    var (first, j) := Product(s, i).value;
    ProductShaped(s, i);
    ProductIsSumShape(first);
    SumTailShaped(s, j);
    FoldLSumShaped(first, SumTail(s, j).0);
  }

  // ----- consequences of the shape -----

  lemma {:induction false} ChainProperties(op: UnaryOp, e: Expr)
    requires IsChain(op, e)
    ensures NoAdditive(e) && LeftAssociative(e) && UnmixedPrefixes(e) && !IsBinary(e)
  {
    match e
    case Num(_) =>
    case Negative(x) => ChainProperties(op, x);
    case Invert(x) => ChainProperties(op, x);
  }

  lemma {:induction false} ProductProperties(e: Expr)
    requires IsProductShape(e)
    ensures NoAdditive(e) && LeftAssociative(e) && UnmixedPrefixes(e)
  {
    match e
    case Mult(l, r) =>
      ProductProperties(l);
      ChainProperties(if IsChain(NegateOp, r) then NegateOp else InvertOp, r);
    case Div(l, r) =>
      ProductProperties(l);
      ChainProperties(if IsChain(NegateOp, r) then NegateOp else InvertOp, r);
    case _ =>
      ChainProperties(if IsChain(NegateOp, e) then NegateOp else InvertOp, e);
  }

  /** A sum-shaped tree respects precedence, associates to the left and never mixes prefixes. */
  lemma {:induction false} SumProperties(e: Expr)
    requires IsSumShape(e)
    ensures PrecedenceRespected(e) && LeftAssociative(e) && UnmixedPrefixes(e)
  {
    match e
    case Add(l, r) =>
      SumProperties(l);
      ProductProperties(r);
    case Sub(l, r) =>
      SumProperties(l);
      ProductProperties(r);
    case _ =>
      ProductProperties(e);
  }

  /** Every tree the parser returns is sum-shaped, hence respects precedence and associativity. */
  lemma ParsedTreeIsWellFormed(s: string)
    requires Parse(s).Some?
    ensures IsSumShape(Parse(s).value)
    ensures PrecedenceRespected(Parse(s).value)
    ensures LeftAssociative(Parse(s).value)
    ensures UnmixedPrefixes(Parse(s).value)
  {
    var i := SkipWhitespace(s, 0);
    SumShaped(s, i);
    SumProperties(Parse(s).value);
  }
}
