/**
 * Consequences of the round trip for the inputs the exercise talks about:
 * bare literals, runs of prefix operators, precedence and associativity on
 * concrete inputs, and inputs the parser refuses.
 */
module AstFacts {
  import opened Wrappers
  import opened Text
  import opened AstTree
  import opened AstShape
  import opened AstShow

  /** The tree printed without any padding parses back to itself. */
  lemma ParseShowBare(e: Expr)
    requires IsSumShape(e)
    ensures Parse(Show(e, Plain)) == Some(e)
  {
    var t := Show(e, Plain);
    assert At(t, 0, t[..|t|]);
    ParseLayout(t, 0, e, Plain, |t|);
  }

  /**
   * Padding never changes the tree: text with any whitespace around any of
   * its operators and around the whole parses exactly as the unpadded text.
   */
  lemma PaddingIrrelevant(e: Expr, lay: Layout, w1: string, w2: string)
    requires IsSumShape(e) && Blank(lay) && AllWhitespace(w1) && AllWhitespace(w2)
    ensures Parse(w1 + Show(e, lay) + w2) == Parse(Show(e, Plain))
  {
    ParseShow(e, lay, w1, w2);
    ParseShowBare(e);
  }

  /** A canonical digit run on its own parses to the leaf holding its value. */
  lemma ParseLiteral(d: string)
    requires IsCanonical(d)
    ensures Parse(d) == Some(Num(ValueOf(d)))
  {
    var e := Num(ValueOf(d));
    assert Show(e, Plain) == d by {
      DecimalOfValue(d);
    }
    ParseShowBare(e);
  }

  function Repeat(c: char, k: nat): (r: string)
    ensures |r| == k && forall i :: 0 <= i < k ==> r[i] == c
  {
    if k == 0 then [] else [c] + Repeat(c, k - 1)
  }

  lemma {:induction false} ShowChain(op: UnaryOp, k: nat, n: nat)
    ensures Show(FoldR(op, k, Num(n)), Plain) == Repeat(UnarySymbol(op), k) + Decimal(n)
    ensures IsChain(op, FoldR(op, k, Num(n)))
  {
    if k > 0 {
      ShowChain(op, k - 1, n);
      var c := UnarySymbol(op);
      assert [c] + "" + (Repeat(c, k - 1) + Decimal(n)) == Repeat(c, k) + Decimal(n);
    }
  }

  /** `k` copies of one prefix operator before a literal give `k` nested nodes of that kind around the leaf. */
  lemma ParsePrefixRun(op: UnaryOp, k: nat, n: nat)
    ensures Parse(Repeat(UnarySymbol(op), k) + Decimal(n)) == Some(FoldR(op, k, Num(n)))
  {
    var e := FoldR(op, k, Num(n));
    ShowChain(op, k, n);
    ParseShowBare(e);
  }

  /** `*` binds tighter than `+`. */
  lemma PrecedenceExample()
    ensures Parse("2+3*4") == Some(Add(Num(2), Mult(Num(3), Num(4))))
  {
    var e := Add(Num(2), Mult(Num(3), Num(4)));
    var g := Gap("", "", Plain);
    assert Show(Num(2), Plain) == "2";
    assert Show(Num(3), Plain) == "3";
    assert ShowPair((MultOp, Num(4)), g) == "*4";
    assert Show(e, Plain) == "2" + ("+" + ("3" + "*4"));
    assert "2" + ("+" + ("3" + "*4")) == "2+3*4";
    ParseShowBare(e);
  }

  /** `/` associates to the left, and padding is skipped. */
  lemma AssociativityExample()
    ensures Parse(" 8 / 4 / 2 ") == Some(Div(Div(Num(8), Num(4)), Num(2)))
  {
    var e := Div(Div(Num(8), Num(4)), Num(2));
    var g := Gap(" ", " ", Plain);
    var lay := Spaced(" ", " ", Spaced(" ", " ", Plain, Plain), Plain);
    assert Show(Num(8), Plain) == "8";
    assert ShowPair((DivOp, Num(4)), g) == " / 4";
    assert ShowPair((DivOp, Num(2)), g) == " / 2";
    assert Show(e, lay) == "8" + " / 4" + " / 2";
    assert " " + ("8" + " / 4" + " / 2") + " " == " 8 / 4 / 2 ";
    ParseShow(e, lay, " ", " ");
  }

  /** Whitespace on one side of an operator only is skipped too. */
  lemma OneSidedPaddingExample()
    ensures Parse("2 +3") == Some(Add(Num(2), Num(3)))
  {
    var e := Add(Num(2), Num(3));
    var lay := Spaced(" ", "", Plain, Plain);
    assert Show(Num(2), Plain) == "2";
    assert ShowPair((AddOp, Num(3)), GapOf(lay)) == " +3";
    assert "" + ("2" + " +3") + "" == "2 +3";
    ParseShow(e, lay, "", "");
  }

  /** "1 + 2*3": the `+` padded on both sides, the `*` not at all. */
  lemma UnevenText()
    ensures "" + Show(Add(Num(1), Mult(Num(2), Num(3))), Spaced(" ", " ", Plain, Plain)) + "" == "1 + 2*3"
  {
    var e := Add(Num(1), Mult(Num(2), Num(3)));
    var lay := Spaced(" ", " ", Plain, Plain);
    assert Show(Mult(Num(2), Num(3)), Plain) == "2*3" by {
      assert Show(Num(2), Plain) == "2";
      assert ShowPair((MultOp, Num(3)), Gap("", "", Plain)) == "*3";
    }
    assert Show(Num(1), Plain) == "1";
    assert Show(e, lay) == "1" + " + " + "2*3";
  }

  /** Operators padded differently within one input. */
  lemma UnevenPaddingExample()
    ensures Parse("1 + 2*3") == Some(Add(Num(1), Mult(Num(2), Num(3))))
  {
    UnevenText();
    ParseShow(Add(Num(1), Mult(Num(2), Num(3))), Spaced(" ", " ", Plain, Plain), "", "");
  }

  /** Whitespace after a prefix operator is skipped. */
  lemma PrefixPaddingExample()
    ensures Parse("- 5*2") == Some(Mult(Negative(Num(5)), Num(2)))
  {
    var e := Mult(Negative(Num(5)), Num(2));
    var lay := Spaced("", "", Spaced("", " ", Plain, Plain), Plain);
    assert Show(Num(5), Plain) == "5";
    assert ShowPair((MultOp, Num(2)), Gap("", "", Plain)) == "*2";
    assert Show(e, lay) == ("-" + " " + "5") + "*2";
    assert "" + (("-" + " " + "5") + "*2") + "" == "- 5*2";
    ParseShow(e, lay, "", "");
  }

  lemma EmptyRejected()
    ensures Parse("") == None
  {
    assert Number("", 0) == None;
  }

  /** A literal followed by more input after whitespace is refused: the whole input must be consumed. */
  lemma TrailingLiteralRejected()
    ensures Parse("3 3") == None
  {
    var s := "3 3";
    assert At(s, 0, Show(Num(3), Plain)) by {
      assert Show(Num(3), Plain) == "3";
    }
    assert SkipWhitespace(s, 1) == 2;
    assert SumStops(s, 1);
    SumAt(s, 0, Num(3), Plain, 1);
  }

  /** A dangling operator is refused: the repetition gives it back and the input is not consumed. */
  lemma DanglingOperatorRejected(e: Expr, lay: Layout, op: BinaryOp)
    requires IsSumShape(e) && Blank(lay)
    ensures Parse(Show(e, lay) + [BinarySymbol(op)]) == None
  {
    var t := Show(e, lay);
    var s := t + [BinarySymbol(op)];
    var m := |t|;
    assert At(s, 0, t);
    assert SkipWhitespace(s, 0) == 0 by {
      TermAt(s, 0, e, lay);
    }
    assert s[m] == BinarySymbol(op);
    assert SkipWhitespace(s, m) == m && SkipWhitespace(s, m + 1) == m + 1;
    OpersFrom(s, m, m, op, m + 1);
    assert Product(s, m + 1) == None by {
      assert Oper(s, m + 1, '~') == None && Oper(s, m + 1, '-') == None;
      assert Number(s, m + 1) == None;
    }
    SumAt(s, 0, e, lay, m);
  }

  lemma DanglingOperatorExample()
    ensures Parse("3+") == None
  {
    assert Show(Num(3), Plain) + [BinarySymbol(AddOp)] == "3+";
    DanglingOperatorRejected(Num(3), Plain, AddOp);
  }

  /** After a leading `0` the literal ends, so the remaining digits are unconsumed input. */
  lemma LeadingZeroRejected()
    ensures Parse("007") == None
  {
    var s := "007";
    assert s[0..1] == "0";
    assert Int(s, 0) == Some(("0", 1));
    assert ValueOf("0") == 0;
    assert Number(s, 0) == Some((Num(0), 1));
    assert Unary(s, 0) == Some((Num(0), 1));
    assert !IsWhitespace(s[1]) && SkipWhitespace(s, 1) == 1;
    assert Oper(s, 1, '*') == None && Oper(s, 1, '/') == None;
    assert Oper(s, 1, '+') == None && Oper(s, 1, '-') == None;
    assert Product(s, 0) == Some((Num(0), 1));
    assert Sum(s, 0) == Some((Num(0), 1));
  }

  /** A `~` cannot be followed by `-`: prefixes do not mix, whatever comes after. */
  lemma MixedPrefixRejected(t: string)
    ensures Parse("~-" + t) == None
  {
    var s := "~-" + t;
    assert s[0] == '~' && s[1] == '-';
    assert SkipWhitespace(s, 0) == 0 && SkipWhitespace(s, 1) == 1;
    assert Prefixed(s, 0, InvertOp) == None by {
      assert Oper(s, 1, '~') == None;
      assert OperRun(s, 1, '~') == (0, 1);
      assert Oper(s, 0, '~') == Some(1);
      assert OperRun(s, 0, '~') == (1, 1);
      assert Number(s, 1) == None;
    }
    assert Prefixed(s, 0, NegateOp) == None by {
      assert Oper(s, 0, '-') == None;
      assert OperRun(s, 0, '-') == (0, 0);
      assert Number(s, 0) == None;
    }
    assert Unary(s, 0) == None;
  }

  lemma MixedPrefixExample()
    ensures Parse("~-5") == None
  {
    MixedPrefixRejected("5");
    assert "~-" + "5" == "~-5";
  }
}
