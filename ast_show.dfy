/**
 * A printer for expression trees and the proof that the parser reads every
 * sum-shaped tree back from its printed form, whatever whitespace is put
 * around the operators and around the whole input.  Together with
 * `AstShape.ParsedTreeIsWellFormed` this says that the trees the parser can
 * produce are exactly the sum-shaped ones, and that padding never changes
 * the tree.
 */
module AstShow {
  import opened Wrappers
  import opened Text
  import opened AstTree
  import opened AstShape

  function BinarySymbol(op: BinaryOp): char
  {
    match op
    case AddOp => '+'
    case SubOp => '-'
    case MultOp => '*'
    case DivOp => '/'
  }

  /**
   * Where the whitespace goes when a tree is printed.  A layout mirrors the
   * tree: at an operator node, `before` and `after` are the whitespace on
   * either side of its symbol, and `left` and `right` lay out its operands (a
   * prefix node uses only `after` and `right`).  `Plain` puts no whitespace
   * anywhere below it.
   */
  datatype Layout = Plain | Spaced(before: string, after: string, left: Layout, right: Layout)

  function Before(lay: Layout): string
  {
    if lay.Spaced? then lay.before else []
  }

  function After(lay: Layout): string
  {
    if lay.Spaced? then lay.after else []
  }

  function LeftOf(lay: Layout): Layout
  {
    if lay.Spaced? then lay.left else Plain
  }

  function RightOf(lay: Layout): Layout
  {
    if lay.Spaced? then lay.right else Plain
  }

  /** Every string the layout inserts is whitespace. */
  predicate Blank(lay: Layout)
  {
    match lay
    case Plain => true
    case Spaced(b, a, l, r) => AllWhitespace(b) && AllWhitespace(a) && Blank(l) && Blank(r)
  }

  /** The whitespace around one infix operator, and the layout of its right operand. */
  datatype Gap = Gap(before: string, after: string, inner: Layout)

  function GapOf(lay: Layout): Gap
  {
    Gap(Before(lay), After(lay), RightOf(lay))
  }

  predicate BlankGap(g: Gap)
  {
    AllWhitespace(g.before) && AllWhitespace(g.after) && Blank(g.inner)
  }

  predicate BlankGaps(gaps: seq<Gap>)
  {
    forall k :: 0 <= k < |gaps| ==> BlankGap(gaps[k])
  }

  lemma BlankParts(lay: Layout)
    requires Blank(lay)
    ensures AllWhitespace(After(lay)) && Blank(LeftOf(lay)) && Blank(RightOf(lay)) && BlankGap(GapOf(lay))
  {
  }

  lemma BlankGapsUncons(gaps: seq<Gap>)
    requires BlankGaps(gaps) && gaps != []
    ensures BlankGap(gaps[0]) && BlankGaps(gaps[1..])
  {
    assert forall k :: 0 <= k < |gaps| - 1 ==> gaps[1..][k] == gaps[k + 1];
  }

  /** The tree written out with the whitespace `lay` puts around each operator. */
  function Show(e: Expr, lay: Layout): string
    decreases e, 0
  {
    match e
    case Num(n) => Decimal(n)
    case Negative(x) => ['-'] + After(lay) + Show(x, RightOf(lay))
    case Invert(x) => ['~'] + After(lay) + Show(x, RightOf(lay))
    case Add(l, r) => Show(l, LeftOf(lay)) + ShowPair((AddOp, r), GapOf(lay))
    case Sub(l, r) => Show(l, LeftOf(lay)) + ShowPair((SubOp, r), GapOf(lay))
    case Mult(l, r) => Show(l, LeftOf(lay)) + ShowPair((MultOp, r), GapOf(lay))
    case Div(l, r) => Show(l, LeftOf(lay)) + ShowPair((DivOp, r), GapOf(lay))
  }

  /** An infix operator with its whitespace, then its right operand. */
  function ShowPair(p: (BinaryOp, Expr), g: Gap): string
    decreases p.1, 1
  {
    g.before + [BinarySymbol(p.0)] + g.after + Show(p.1, g.inner)
  }

  function ShowPairs(pairs: seq<(BinaryOp, Expr)>, gaps: seq<Gap>): string
    requires |gaps| == |pairs|
    decreases |pairs|
  {
    if pairs == [] then [] else ShowPair(pairs[0], gaps[0]) + ShowPairs(pairs[1..], gaps[1..])
  }

  // ----- text located at a cursor -----

  /** `p` occurs in `s` at cursor `i`. */
  predicate At(s: string, i: nat, p: string)
  {
    i + |p| <= |s| && s[i..i + |p|] == p
  }

  lemma AtSplit(s: string, i: nat, p: string, q: string)
    requires At(s, i, p + q)
    ensures At(s, i, p) && At(s, i + |p|, q)
  {
    var t := s[i..i + |p| + |q|];
    assert s[i..i + |p|] == t[..|p|];
    assert s[i + |p|..i + |p| + |q|] == t[|p|..];
  }

  /** `AtSplit` with the cursor of the second part given. */
  lemma AtSplitAt(s: string, i: nat, p: string, q: string, m: nat)
    requires At(s, i, p + q) && m == i + |p|
    ensures At(s, i, p) && At(s, m, q)
  {
    AtSplit(s, i, p, q);
  }

  lemma AtChar(s: string, i: nat, p: string, k: nat)
    requires At(s, i, p) && k < |p|
    ensures s[i + k] == p[k]
  {
    assert s[i..i + |p|][k] == s[i + k];
  }

  lemma {:induction false} SkipWhitespaceAt(s: string, i: nat, w: string)
    requires At(s, i, w) && AllWhitespace(w)
    requires i + |w| == |s| || !IsWhitespace(s[i + |w|])
    ensures SkipWhitespace(s, i) == i + |w|
    decreases |w|
  {
    if w != [] {
      AtChar(s, i, w, 0);
      assert w == [w[0]] + w[1..];
      AtSplit(s, i, [w[0]], w[1..]);
      SkipWhitespaceAt(s, i + 1, w[1..]);
    }
  }

  /** A printed tree starts with a digit or a prefix operator, never with whitespace. */
  lemma {:induction false} ShowHead(e: Expr, lay: Layout)
    ensures |Show(e, lay)| > 0
    ensures IsDigit(Show(e, lay)[0]) || Show(e, lay)[0] == '-' || Show(e, lay)[0] == '~'
  {
    match e
    case Num(n) =>
    case Negative(x) =>
    case Invert(x) =>
    case Add(l, r) => ShowHead(l, LeftOf(lay));
    case Sub(l, r) => ShowHead(l, LeftOf(lay));
    case Mult(l, r) => ShowHead(l, LeftOf(lay));
    case Div(l, r) => ShowHead(l, LeftOf(lay));
  }

  /** What follows a padded operator at cursor `p` is a term, not whitespace. */
  predicate TermAhead(s: string, p: nat)
  {
    p < |s| && (IsDigit(s[p]) || s[p] == '-' || s[p] == '~')
  }

  lemma TermAt(s: string, i: nat, e: Expr, lay: Layout)
    requires At(s, i, Show(e, lay))
    ensures TermAhead(s, i)
  {
    ShowHead(e, lay);
    AtChar(s, i, Show(e, lay), 0);
  }

  /** Where a padded operator's parts lie: the symbol at `a`, the operand at `b`. */
  lemma PaddedAt(s: string, i: nat, lead: string, c: char, trail: string, a: nat, b: nat)
    requires At(s, i, lead + [c] + trail) && AllWhitespace(lead) && AllWhitespace(trail)
    requires !IsWhitespace(c)
    requires a == i + |lead| && b == a + 1 + |trail| && TermAhead(s, b)
    ensures a < |s| && s[a] == c
    ensures SkipWhitespace(s, i) == a && SkipWhitespace(s, a + 1) == b
  {
    AtSplit(s, i, lead + [c], trail);
    AtSplit(s, i, lead, [c]);
    AtChar(s, a, [c], 0);
    SkipWhitespaceAt(s, i, lead);
    SkipWhitespaceAt(s, a + 1, trail);
  }

  // ----- single parser steps, from plain facts about the input -----

  lemma OperFrom(s: string, i: nat, a: nat, c: char, b: nat)
    requires i <= a < |s| && SkipWhitespace(s, i) == a && s[a] == c && SkipWhitespace(s, a + 1) == b
    ensures forall d :: Oper(s, i, d) == if d == c then Some(b) else None
  {
  }

  lemma OperRunFrom(s: string, i: nat, c: char, k: nat)
    requires i <= |s| && Oper(s, i, c) == Some(k)
    ensures OperRun(s, i, c) == (OperRun(s, k, c).0 + 1, OperRun(s, k, c).1)
  {
  }

  /** The binary operators `ProductOper` and `SumOper` read at a padded symbol. */
  lemma OpersFrom(s: string, j: nat, a: nat, op: BinaryOp, k: nat)
    requires j <= a < |s| && SkipWhitespace(s, j) == a && s[a] == BinarySymbol(op)
    requires SkipWhitespace(s, a + 1) == k
    ensures ProductOper(s, j) == if op in {MultOp, DivOp} then Some((op, k)) else None
    ensures SumOper(s, j) == if op in {AddOp, SubOp} then Some((op, k)) else None
  {
    OperFrom(s, j, a, BinarySymbol(op), k);
  }

  lemma ProductTailFrom(s: string, j: nat, pairs: seq<(BinaryOp, Expr)>, j': nat, k: nat, m: nat)
    requires j <= |s| && pairs != [] && ProductOper(s, j) == Some((pairs[0].0, j'))
    requires Unary(s, j') == Some((pairs[0].1, k)) && k <= |s| && ProductTail(s, k) == (pairs[1..], m)
    ensures ProductTail(s, j) == (pairs, m)
  {
    assert [(pairs[0].0, pairs[0].1)] + pairs[1..] == pairs;
  }

  lemma SumTailFrom(s: string, j: nat, pairs: seq<(BinaryOp, Expr)>, j': nat, k: nat, m: nat)
    requires j <= |s| && pairs != [] && SumOper(s, j) == Some((pairs[0].0, j'))
    requires Product(s, j') == Some((pairs[0].1, k)) && k <= |s| && SumTail(s, k) == (pairs[1..], m)
    ensures SumTail(s, j) == (pairs, m)
  {
    assert [(pairs[0].0, pairs[0].1)] + pairs[1..] == pairs;
  }

  lemma ProductFrom(s: string, i: nat, first: Expr, j: nat, pairs: seq<(BinaryOp, Expr)>, k: nat)
    requires i <= |s| && Unary(s, i) == Some((first, j)) && j <= |s| && ProductTail(s, j) == (pairs, k)
    ensures Product(s, i) == Some((FoldL(first, pairs), k))
  {
  }

  lemma SumFrom(s: string, i: nat, first: Expr, j: nat, pairs: seq<(BinaryOp, Expr)>, k: nat)
    requires i <= |s| && Product(s, i) == Some((first, j)) && j <= |s| && SumTail(s, j) == (pairs, k)
    ensures Sum(s, i) == Some((FoldL(first, pairs), k))
  {
  }

  lemma ProductTailStops(s: string, p: nat)
    requires p <= |s| && ProductStops(s, p)
    ensures ProductTail(s, p) == ([], p)
  {
  }

  lemma SumTailStops(s: string, p: nat)
    requires p <= |s| && SumStops(s, p)
    ensures SumTail(s, p) == ([], p)
  {
  }

  // ----- literals and prefix runs -----

  predicate NumberStops(s: string, p: nat)
  {
    p <= |s| && (p == |s| || !IsDigit(s[p]))
  }

  lemma {:induction false} DigitRunAt(s: string, i: nat, d: string)
    requires At(s, i, d) && AllDigits(d) && NumberStops(s, i + |d|)
    ensures DigitRun(s, i) == i + |d|
    decreases |d|
  {
    if d != [] {
      AtChar(s, i, d, 0);
      assert d == [d[0]] + d[1..];
      AtSplit(s, i, [d[0]], d[1..]);
      DigitRunAt(s, i + 1, d[1..]);
    }
  }

  lemma NumberAt(s: string, i: nat, n: nat, j: nat)
    requires At(s, i, Decimal(n)) && j == i + |Decimal(n)| && NumberStops(s, j)
    ensures Number(s, i) == Some((Num(n), j))
  {
    var d := Decimal(n);
    AtChar(s, i, d, 0);
    if d[0] != '0' {
      assert d == [d[0]] + d[1..];
      AtSplit(s, i, [d[0]], d[1..]);
      DigitRunAt(s, i + 1, d[1..]);
      assert Int(s, i) == Some((d, j));
    } else {
      assert Int(s, i) == Some((d, j));
    }
    ValueOfDecimal(n);
  }

  lemma {:induction false} ChainIsFold(op: UnaryOp, e: Expr)
    requires IsChain(op, e)
    ensures FoldR(op, ChainDepth(e), Num(ChainLeaf(e))) == e
  {
    match e
    case Num(_) =>
    case Negative(x) => ChainIsFold(op, x);
    case Invert(x) => ChainIsFold(op, x);
  }

  /** A prefix operator `c` with its padding, followed by a term, read by `Oper`. */
  lemma PrefixSymbolAt(s: string, i: nat, c: char, w: string, b: nat)
    requires At(s, i, [c] + w) && AllWhitespace(w) && !IsWhitespace(c)
    requires b == i + 1 + |w| && TermAhead(s, b)
    ensures forall d :: Oper(s, i, d) == if d == c then Some(b) else None
  {
    assert [] + [c] + w == [c] + w;
    PaddedAt(s, i, [], c, w, i, b);
    OperFrom(s, i, i, c, b);
  }

  /** A printed prefix operator `c` with its padding, read by `Oper`. */
  lemma PrefixAt(s: string, i: nat, c: char, w: string, x: Expr, lay: Layout)
    requires At(s, i, [c] + w + Show(x, lay)) && AllWhitespace(w) && !IsWhitespace(c)
    ensures At(s, i + 1 + |w|, Show(x, lay))
    ensures forall d :: Oper(s, i, d) == if d == c then Some(i + 1 + |w|) else None
  {
    var b := i + 1 + |w|;
    AtSplitAt(s, i, [c] + w, Show(x, lay), b);
    TermAt(s, b, x, lay);
    PrefixSymbolAt(s, i, c, w, b);
  }

  /** A literal does not start with a prefix operator. */
  lemma LeafAt(s: string, i: nat, n: nat)
    requires At(s, i, Decimal(n))
    ensures forall d :: !IsDigit(d) ==> Oper(s, i, d).None?
  {
    AtChar(s, i, Decimal(n), 0);
    assert SkipWhitespace(s, i) == i;
  }

  lemma {:induction false} OperRunAt(s: string, i: nat, op: UnaryOp, e: Expr, lay: Layout)
    requires IsChain(op, e) && At(s, i, Show(e, lay)) && Blank(lay)
    ensures OperRun(s, i, UnarySymbol(op)).0 == ChainDepth(e)
    ensures OperRun(s, i, UnarySymbol(op)).1 + |Decimal(ChainLeaf(e))| == i + |Show(e, lay)|
    ensures At(s, OperRun(s, i, UnarySymbol(op)).1, Decimal(ChainLeaf(e)))
    decreases e
  {
    var c := UnarySymbol(op);
    if e.Num? {
      LeafAt(s, i, e.value);
    } else {
      var x, w, inner := e.operand, After(lay), RightOf(lay);
      var i' := i + 1 + |w|;
      assert Show(e, lay) == [c] + w + Show(x, inner);
      BlankParts(lay);
      PrefixAt(s, i, c, w, x, inner);
      OperRunFrom(s, i, c, i');
      OperRunAt(s, i', op, x, inner);
    }
  }

  lemma PrefixedAt(s: string, i: nat, op: UnaryOp, e: Expr, lay: Layout, m: nat)
    requires IsChain(op, e) && At(s, i, Show(e, lay)) && Blank(lay)
    requires m == i + |Show(e, lay)| && NumberStops(s, m)
    ensures Prefixed(s, i, op) == Some((e, m))
  {
    OperRunAt(s, i, op, e, lay);
    NumberAt(s, OperRun(s, i, UnarySymbol(op)).1, ChainLeaf(e), m);
    ChainIsFold(op, e);
  }

  lemma UnaryAt(s: string, i: nat, e: Expr, lay: Layout, m: nat)
    requires IsUnaryShape(e) && At(s, i, Show(e, lay)) && Blank(lay)
    requires m == i + |Show(e, lay)| && NumberStops(s, m)
    ensures Unary(s, i) == Some((e, m))
  {
    if IsChain(InvertOp, e) {
      PrefixedAt(s, i, InvertOp, e, lay, m);
    } else {
      InvertFails(s, i, e.operand, lay);
      PrefixedAt(s, i, NegateOp, e, lay, m);
    }
  }

  /** A printed `-` chain is not a `~` chain: `deref_expr` fails on it. */
  lemma InvertFails(s: string, i: nat, x: Expr, lay: Layout)
    requires At(s, i, Show(Negative(x), lay)) && Blank(lay)
    ensures Prefixed(s, i, InvertOp) == None
  {
    BlankParts(lay);
    assert Show(Negative(x), lay) == ['-'] + After(lay) + Show(x, RightOf(lay));
    PrefixAt(s, i, '-', After(lay), x, RightOf(lay));
    assert OperRun(s, i, '~') == (0, i);
    AtChar(s, i, Show(Negative(x), lay), 0);
  }

  // ----- infix chains -----

  lemma {:induction false} FoldLSnoc(acc: Expr, pairs: seq<(BinaryOp, Expr)>, p: (BinaryOp, Expr))
    ensures FoldL(acc, pairs + [p]) == ApplyBinary(p.0, FoldL(acc, pairs), p.1)
    decreases |pairs|
  {
    if pairs != [] {
      assert (pairs + [p])[1..] == pairs[1..] + [p];
      FoldLSnoc(ApplyBinary(pairs[0].0, acc, pairs[0].1), pairs[1..], p);
    }
  }

  lemma {:induction false} ShowPairsSnoc(pairs: seq<(BinaryOp, Expr)>, gaps: seq<Gap>, p: (BinaryOp, Expr), g: Gap)
    requires |gaps| == |pairs|
    ensures ShowPairs(pairs + [p], gaps + [g]) == ShowPairs(pairs, gaps) + ShowPair(p, g)
    decreases |pairs|
  {
    if pairs != [] {
      assert (pairs + [p])[1..] == pairs[1..] + [p];
      assert (gaps + [g])[1..] == gaps[1..] + [g];
      ShowPairsSnoc(pairs[1..], gaps[1..], p, g);
    }
  }

  /** The first operand of a left-leaning chain whose nodes are `Mult`/`Div` (or `Add`/`Sub`). */
  function First(e: Expr, additive: bool): Expr
  {
    match e
    case Add(l, _) => if additive then First(l, additive) else e
    case Sub(l, _) => if additive then First(l, additive) else e
    case Mult(l, _) => if additive then e else First(l, additive)
    case Div(l, _) => if additive then e else First(l, additive)
    case _ => e
  }

  /** The `(operator, operand)` pairs of that chain, in reading order. */
  function Pairs(e: Expr, additive: bool): seq<(BinaryOp, Expr)>
  {
    match e
    case Add(l, r) => if additive then Pairs(l, additive) + [(AddOp, r)] else []
    case Sub(l, r) => if additive then Pairs(l, additive) + [(SubOp, r)] else []
    case Mult(l, r) => if additive then [] else Pairs(l, additive) + [(MultOp, r)]
    case Div(l, r) => if additive then [] else Pairs(l, additive) + [(DivOp, r)]
    case _ => []
  }

  /** The layout of the chain's first operand. */
  function FirstLayout(e: Expr, lay: Layout, additive: bool): Layout
  {
    match e
    case Add(l, _) => if additive then FirstLayout(l, LeftOf(lay), additive) else lay
    case Sub(l, _) => if additive then FirstLayout(l, LeftOf(lay), additive) else lay
    case Mult(l, _) => if additive then lay else FirstLayout(l, LeftOf(lay), additive)
    case Div(l, _) => if additive then lay else FirstLayout(l, LeftOf(lay), additive)
    case _ => lay
  }

  /** The whitespace of the chain's operators, one gap per pair. */
  function Gaps(e: Expr, lay: Layout, additive: bool): (r: seq<Gap>)
    ensures |r| == |Pairs(e, additive)|
  {
    match e
    case Add(l, _) => if additive then Gaps(l, LeftOf(lay), additive) + [GapOf(lay)] else []
    case Sub(l, _) => if additive then Gaps(l, LeftOf(lay), additive) + [GapOf(lay)] else []
    case Mult(l, _) => if additive then [] else Gaps(l, LeftOf(lay), additive) + [GapOf(lay)]
    case Div(l, _) => if additive then [] else Gaps(l, LeftOf(lay), additive) + [GapOf(lay)]
    case _ => []
  }

  predicate ProductPairsShaped(pairs: seq<(BinaryOp, Expr)>)
  {
    forall k :: 0 <= k < |pairs| ==> pairs[k].0 in {MultOp, DivOp} && IsUnaryShape(pairs[k].1)
  }

  predicate SumPairsShaped(pairs: seq<(BinaryOp, Expr)>)
  {
    forall k :: 0 <= k < |pairs| ==> pairs[k].0 in {AddOp, SubOp} && IsProductShape(pairs[k].1)
  }

  lemma {:induction false} ProductSpineShape(e: Expr)
    requires IsProductShape(e)
    ensures IsUnaryShape(First(e, false)) && ProductPairsShaped(Pairs(e, false))
  {
    match e
    case Mult(l, r) => ProductSpineShape(l);
    case Div(l, r) => ProductSpineShape(l);
    case _ =>
  }

  lemma {:induction false} SumSpineShape(e: Expr)
    requires IsSumShape(e)
    ensures IsProductShape(First(e, true)) && SumPairsShaped(Pairs(e, true))
  {
    match e
    case Add(l, r) => SumSpineShape(l);
    case Sub(l, r) => SumSpineShape(l);
    case _ =>
  }

  /** The spine of a blank layout is blank. */
  lemma {:induction false} SpineBlank(e: Expr, lay: Layout, additive: bool)
    requires Blank(lay)
    ensures Blank(FirstLayout(e, lay, additive)) && BlankGaps(Gaps(e, lay, additive))
  {
    BlankParts(lay);
    match e
    case Add(l, _) => SpineBlank(l, LeftOf(lay), additive);
    case Sub(l, _) => SpineBlank(l, LeftOf(lay), additive);
    case Mult(l, _) => SpineBlank(l, LeftOf(lay), additive);
    case Div(l, _) => SpineBlank(l, LeftOf(lay), additive);
    case _ =>
  }

  /** Folding the spine of a chain rebuilds the chain. */
  lemma {:induction false} SpineFold(e: Expr, additive: bool)
    ensures FoldL(First(e, additive), Pairs(e, additive)) == e
  {
    match e
    case Add(l, r) =>
      if additive {
        SpineFold(l, additive);
        FoldLSnoc(First(l, additive), Pairs(l, additive), (AddOp, r));
      }
    case Sub(l, r) =>
      if additive {
        SpineFold(l, additive);
        FoldLSnoc(First(l, additive), Pairs(l, additive), (SubOp, r));
      }
    case Mult(l, r) =>
      if !additive {
        SpineFold(l, additive);
        FoldLSnoc(First(l, additive), Pairs(l, additive), (MultOp, r));
      }
    case Div(l, r) =>
      if !additive {
        SpineFold(l, additive);
        FoldLSnoc(First(l, additive), Pairs(l, additive), (DivOp, r));
      }
    case _ =>
  }

  /** The printed chain is its first operand followed by its printed pairs. */
  predicate ShowsAsSpine(e: Expr, lay: Layout, additive: bool)
  {
    Show(e, lay) == Show(First(e, additive), FirstLayout(e, lay, additive))
                    + ShowPairs(Pairs(e, additive), Gaps(e, lay, additive))
  }

  lemma SnocShow(l: Expr, lay: Layout, p: (BinaryOp, Expr), additive: bool)
    requires ShowsAsSpine(l, LeftOf(lay), additive)
    ensures Show(l, LeftOf(lay)) + ShowPair(p, GapOf(lay))
         == Show(First(l, additive), FirstLayout(l, LeftOf(lay), additive))
            + ShowPairs(Pairs(l, additive) + [p], Gaps(l, LeftOf(lay), additive) + [GapOf(lay)])
  {
    ShowPairsSnoc(Pairs(l, additive), Gaps(l, LeftOf(lay), additive), p, GapOf(lay));
  }

  lemma {:induction false} SpineShow(e: Expr, lay: Layout, additive: bool)
    ensures ShowsAsSpine(e, lay, additive)
  {
    match e
    case Add(l, r) =>
      if additive {
        SpineShow(l, LeftOf(lay), additive);
        SnocShow(l, lay, (AddOp, r), additive);
      }
    case Sub(l, r) =>
      if additive {
        SpineShow(l, LeftOf(lay), additive);
        SnocShow(l, lay, (SubOp, r), additive);
      }
    case Mult(l, r) =>
      if !additive {
        SpineShow(l, LeftOf(lay), additive);
        SnocShow(l, lay, (MultOp, r), additive);
      }
    case Div(l, r) =>
      if !additive {
        SpineShow(l, LeftOf(lay), additive);
        SnocShow(l, lay, (DivOp, r), additive);
      }
    case _ =>
  }

  /** Neither `*` nor `/` continues the product at cursor `p`. */
  predicate ProductStops(s: string, p: nat)
    requires p <= |s|
  {
    NumberStops(s, p) &&
    match ProductOper(s, p)
    case None => true
    case Some((_, j)) => Unary(s, j).None?
  }

  /** Neither `+` nor `-` continues the sum at cursor `p`. */
  predicate SumStops(s: string, p: nat)
    requires p <= |s|
  {
    ProductStops(s, p) &&
    match SumOper(s, p)
    case None => true
    case Some((_, j)) => Product(s, j).None?
  }

  /** Printed pairs start with whitespace or an operator symbol, never with a digit. */
  lemma PairsAhead(s: string, p: nat, pairs: seq<(BinaryOp, Expr)>, gaps: seq<Gap>)
    requires |gaps| == |pairs| && At(s, p, ShowPairs(pairs, gaps)) && BlankGaps(gaps) && pairs != []
    ensures NumberStops(s, p)
  {
    BlankGapsUncons(gaps);
    AtChar(s, p, ShowPairs(pairs, gaps), 0);
  }

  /** Where the first printed pair's operand and the remaining pairs lie. */
  lemma PairAt(s: string, j: nat, pairs: seq<(BinaryOp, Expr)>, gaps: seq<Gap>, j': nat, k: nat)
    requires |gaps| == |pairs| && At(s, j, ShowPairs(pairs, gaps)) && pairs != []
    requires j' == j + |gaps[0].before| + 1 + |gaps[0].after| && k == j' + |Show(pairs[0].1, gaps[0].inner)|
    ensures At(s, j', Show(pairs[0].1, gaps[0].inner))
    ensures At(s, k, ShowPairs(pairs[1..], gaps[1..]))
    ensures j + |ShowPairs(pairs, gaps)| == k + |ShowPairs(pairs[1..], gaps[1..])|
  {
    var p, g := pairs[0], gaps[0];
    var pad := g.before + [BinarySymbol(p.0)] + g.after;
    var head, tail := ShowPair(p, g), ShowPairs(pairs[1..], gaps[1..]);
    assert ShowPairs(pairs, gaps) == head + tail;
    assert head == pad + Show(p.1, g.inner);
    assert |pad| == |g.before| + 1 + |g.after|;
    assert j + |head| == k;
    AtSplitAt(s, j, head, tail, k);
    AtSplitAt(s, j, pad, Show(p.1, g.inner), j');
  }

  /** The first printed pair starts with a padded operator symbol followed by a term. */
  lemma PairHeadAt(s: string, j: nat, pairs: seq<(BinaryOp, Expr)>, gaps: seq<Gap>, k: nat)
    requires |gaps| == |pairs| && At(s, j, ShowPairs(pairs, gaps)) && pairs != []
    requires k == j + |gaps[0].before| + 1 + |gaps[0].after|
    ensures At(s, j, gaps[0].before + [BinarySymbol(pairs[0].0)] + gaps[0].after)
    ensures TermAhead(s, k)
  {
    var p, g := pairs[0], gaps[0];
    var pad := g.before + [BinarySymbol(p.0)] + g.after;
    var head, tail := ShowPair(p, g), ShowPairs(pairs[1..], gaps[1..]);
    assert ShowPairs(pairs, gaps) == head + tail;
    AtSplit(s, j, head, tail);
    assert head == pad + Show(p.1, g.inner);
    assert |pad| == |g.before| + 1 + |g.after|;
    AtSplitAt(s, j, pad, Show(p.1, g.inner), k);
    TermAt(s, k, p.1, g.inner);
  }

  /** The operator of the first printed pair is the one `ProductOper` and `SumOper` see. */
  lemma PairOpers(s: string, j: nat, pairs: seq<(BinaryOp, Expr)>, gaps: seq<Gap>, k: nat)
    requires |gaps| == |pairs| && At(s, j, ShowPairs(pairs, gaps)) && BlankGaps(gaps) && pairs != []
    requires k == j + |gaps[0].before| + 1 + |gaps[0].after|
    ensures ProductOper(s, j) == if pairs[0].0 in {MultOp, DivOp} then Some((pairs[0].0, k)) else None
    ensures SumOper(s, j) == if pairs[0].0 in {AddOp, SubOp} then Some((pairs[0].0, k)) else None
  {
    var op, g := pairs[0].0, gaps[0];
    var a := j + |g.before|;
    BlankGapsUncons(gaps);
    PairHeadAt(s, j, pairs, gaps, k);
    PaddedAt(s, j, g.before, BinarySymbol(op), g.after, a, k);
    OpersFrom(s, j, a, op, k);
  }

  /** A padded `+` or `-` ahead ends a product. */
  lemma AdditiveAheadStopsProduct(s: string, p: nat, pairs: seq<(BinaryOp, Expr)>, gaps: seq<Gap>)
    requires |gaps| == |pairs| && At(s, p, ShowPairs(pairs, gaps)) && BlankGaps(gaps)
    requires SumPairsShaped(pairs) && pairs != []
    ensures ProductStops(s, p)
  {
    PairsAhead(s, p, pairs, gaps);
    PairOpers(s, p, pairs, gaps, p + |gaps[0].before| + 1 + |gaps[0].after|);
  }

  lemma ProductPairsUncons(pairs: seq<(BinaryOp, Expr)>)
    requires ProductPairsShaped(pairs) && pairs != []
    ensures IsUnaryShape(pairs[0].1) && ProductPairsShaped(pairs[1..])
  {
    assert forall k :: 0 <= k < |pairs| - 1 ==> pairs[1..][k] == pairs[k + 1];
  }

  lemma SumPairsUncons(pairs: seq<(BinaryOp, Expr)>)
    requires SumPairsShaped(pairs) && pairs != []
    ensures IsProductShape(pairs[0].1) && SumPairsShaped(pairs[1..])
  {
    assert forall k :: 0 <= k < |pairs| - 1 ==> pairs[1..][k] == pairs[k + 1];
  }

  lemma {:induction false} ProductTailAt(s: string, j: nat, pairs: seq<(BinaryOp, Expr)>, gaps: seq<Gap>, m: nat)
    requires |gaps| == |pairs| && At(s, j, ShowPairs(pairs, gaps)) && BlankGaps(gaps)
    requires ProductPairsShaped(pairs)
    requires m == j + |ShowPairs(pairs, gaps)| && ProductStops(s, m)
    ensures ProductTail(s, j) == (pairs, m)
    decreases |pairs|
  {
    if pairs == [] {
      assert m == j;
      ProductTailStops(s, j);
    } else {
      var rhs, rest, g, more := pairs[0].1, pairs[1..], gaps[0], gaps[1..];
      var j' := j + |g.before| + 1 + |g.after|;
      var k := j' + |Show(rhs, g.inner)|;
      PairAt(s, j, pairs, gaps, j', k);
      PairOpers(s, j, pairs, gaps, j');
      assert m == k + |ShowPairs(rest, more)|;
      ProductPairsUncons(pairs);
      BlankGapsUncons(gaps);
      if rest != [] {
        PairsAhead(s, k, rest, more);
      } else {
        assert m == k;
      }
      UnaryAt(s, j', rhs, g.inner, k);
      ProductTailAt(s, k, rest, more, m);
      ProductTailFrom(s, j, pairs, j', k, m);
    }
  }

  /** A product printed as its first operand followed by its printed pairs. */
  lemma ProductPartsAt(s: string, i: nat, first: Expr, lay: Layout, pairs: seq<(BinaryOp, Expr)>, gaps: seq<Gap>, m: nat)
    requires |gaps| == |pairs| && At(s, i, Show(first, lay) + ShowPairs(pairs, gaps))
    requires Blank(lay) && BlankGaps(gaps)
    requires IsUnaryShape(first) && ProductPairsShaped(pairs)
    requires m == i + |Show(first, lay)| + |ShowPairs(pairs, gaps)| && ProductStops(s, m)
    ensures Product(s, i) == Some((FoldL(first, pairs), m))
  {
    var j := i + |Show(first, lay)|;
    AtSplit(s, i, Show(first, lay), ShowPairs(pairs, gaps));
    if pairs != [] {
      PairsAhead(s, j, pairs, gaps);
    } else {
      assert j == m;
    }
    UnaryAt(s, i, first, lay, j);
    ProductTailAt(s, j, pairs, gaps, m);
    ProductFrom(s, i, first, j, pairs, m);
  }

  lemma ProductAt(s: string, i: nat, e: Expr, lay: Layout, m: nat)
    requires IsProductShape(e) && At(s, i, Show(e, lay)) && Blank(lay)
    requires m == i + |Show(e, lay)| && ProductStops(s, m)
    ensures Product(s, i) == Some((e, m))
  {
    ProductSpineShape(e);
    SpineFold(e, false);
    SpineShow(e, lay, false);
    SpineBlank(e, lay, false);
    var first, pairs := First(e, false), Pairs(e, false);
    ProductPartsAt(s, i, first, FirstLayout(e, lay, false), pairs, Gaps(e, lay, false), m);
  }

  lemma {:induction false} SumTailAt(s: string, j: nat, pairs: seq<(BinaryOp, Expr)>, gaps: seq<Gap>, m: nat)
    requires |gaps| == |pairs| && At(s, j, ShowPairs(pairs, gaps)) && BlankGaps(gaps)
    requires SumPairsShaped(pairs)
    requires m == j + |ShowPairs(pairs, gaps)| && SumStops(s, m)
    ensures SumTail(s, j) == (pairs, m)
    decreases |pairs|
  {
    if pairs == [] {
      assert m == j;
      SumTailStops(s, j);
    } else {
      var rhs, rest, g, more := pairs[0].1, pairs[1..], gaps[0], gaps[1..];
      var j' := j + |g.before| + 1 + |g.after|;
      var k := j' + |Show(rhs, g.inner)|;
      PairAt(s, j, pairs, gaps, j', k);
      PairOpers(s, j, pairs, gaps, j');
      assert m == k + |ShowPairs(rest, more)|;
      SumPairsUncons(pairs);
      BlankGapsUncons(gaps);
      if rest != [] {
        AdditiveAheadStopsProduct(s, k, rest, more);
      } else {
        assert m == k;
      }
      ProductAt(s, j', rhs, g.inner, k);
      SumTailAt(s, k, rest, more, m);
      SumTailFrom(s, j, pairs, j', k, m);
    }
  }

  /** A sum printed as its first operand followed by its printed pairs. */
  lemma SumPartsAt(s: string, i: nat, first: Expr, lay: Layout, pairs: seq<(BinaryOp, Expr)>, gaps: seq<Gap>, m: nat)
    requires |gaps| == |pairs| && At(s, i, Show(first, lay) + ShowPairs(pairs, gaps))
    requires Blank(lay) && BlankGaps(gaps)
    requires IsProductShape(first) && SumPairsShaped(pairs)
    requires m == i + |Show(first, lay)| + |ShowPairs(pairs, gaps)| && SumStops(s, m)
    ensures Sum(s, i) == Some((FoldL(first, pairs), m))
  {
    var j := i + |Show(first, lay)|;
    AtSplit(s, i, Show(first, lay), ShowPairs(pairs, gaps));
    if pairs != [] {
      AdditiveAheadStopsProduct(s, j, pairs, gaps);
    } else {
      assert j == m;
    }
    ProductAt(s, i, first, lay, j);
    SumTailAt(s, j, pairs, gaps, m);
    SumFrom(s, i, first, j, pairs, m);
  }

  lemma SumAt(s: string, i: nat, e: Expr, lay: Layout, m: nat)
    requires IsSumShape(e) && At(s, i, Show(e, lay)) && Blank(lay)
    requires m == i + |Show(e, lay)| && SumStops(s, m)
    ensures Sum(s, i) == Some((e, m))
  {
    SumSpineShape(e);
    SpineFold(e, true);
    SpineShow(e, lay, true);
    SpineBlank(e, lay, true);
    var first, pairs := First(e, true), Pairs(e, true);
    SumPartsAt(s, i, first, FirstLayout(e, lay, true), pairs, Gaps(e, lay, true), m);
  }

  /** Only whitespace up to the end: nothing continues the sum. */
  lemma EndStopsSum(s: string, p: nat)
    requires p <= |s| && AllWhitespace(s[p..])
    ensures SumStops(s, p) && SkipWhitespace(s, p) == |s|
  {
    assert At(s, p, s[p..]);
    SkipWhitespaceAt(s, p, s[p..]);
    if p < |s| {
      AtChar(s, p, s[p..], 0);
    }
  }

  /** A printed sum followed by whitespace only is read whole, and the rest is skipped. */
  lemma SumToEnd(s: string, i: nat, e: Expr, lay: Layout, p: nat)
    requires IsSumShape(e) && Blank(lay) && At(s, i, Show(e, lay))
    requires p == i + |Show(e, lay)| && AllWhitespace(s[p..])
    ensures Sum(s, i) == Some((e, p)) && SkipWhitespace(s, p) == |s|
  {
    EndStopsSum(s, p);
    SumAt(s, i, e, lay, p);
  }

  /** Whitespace, a printed sum and whitespace again parse to that sum. */
  lemma ParseLayout(s: string, i: nat, e: Expr, lay: Layout, p: nat)
    requires IsSumShape(e) && Blank(lay)
    requires i <= |s| && AllWhitespace(s[..i]) && At(s, i, Show(e, lay))
    requires p == i + |Show(e, lay)| && AllWhitespace(s[p..])
    ensures Parse(s) == Some(e)
  {
    assert SkipWhitespace(s, 0) == i by {
      assert At(s, 0, s[..i]);
      TermAt(s, i, e, lay);
      SkipWhitespaceAt(s, 0, s[..i]);
    }
    SumToEnd(s, i, e, lay, p);
  }

  /** Where the parts of `w1 + t + w2` lie. */
  lemma Framed(w1: string, t: string, w2: string)
    ensures At(w1 + t + w2, |w1|, t)
    ensures (w1 + t + w2)[..|w1|] == w1 && (w1 + t + w2)[|w1| + |t|..] == w2
  {
    var s := w1 + t + w2;
    assert s[|w1|..|w1| + |t|] == t;
  }

  /**
   * Round trip: every sum-shaped tree, printed with any whitespace around
   * each of its operators (chosen operator by operator by `lay`) and `w1`,
   * `w2` around the whole, parses back to itself.
   */
  lemma ParseShow(e: Expr, lay: Layout, w1: string, w2: string)
    requires IsSumShape(e) && Blank(lay) && AllWhitespace(w1) && AllWhitespace(w2)
    ensures Parse(w1 + Show(e, lay) + w2) == Some(e)
  {
    var t := Show(e, lay);
    Framed(w1, t, w2);
    ParseLayout(w1 + t + w2, |w1|, e, lay, |w1| + |t|);
  }
}
