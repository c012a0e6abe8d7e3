/**
 * Worked examples drawn from the calculator's own usage: each one fixes an
 * input string and states the exact result `Calculate` produces for it.
 * A concrete text is first shown to be its words separated by runs of
 * delimiters (`Interleave`), which fixes its tokens; the tree those tokens
 * print is then evaluated, and the general lemmas connect the two.
 */
module Examples {
  import opened Wrappers
  import opened Errors
  import opened Syntax
  import opened Nodes
  import opened Tokenizer
  import opened Parser
  import opened Evaluator
  import opened Calculator

  // Builders for operand subtrees; `Root` detaches the top of a tree.
  function Int(i: int): Node { IntLeaf(i, true) }
  function Var(name: string): Node { VarLeaf(name, true) }
  function Add(x: Node, y: Node): Node { OpNode(OP_ADD, [x, y], true) }
  function Mult(x: Node, y: Node): Node { OpNode(OP_MUL, [x, y], true) }
  function Div(x: Node, y: Node): Node { OpNode(OP_DIV, [x, y], true) }
  function Let(name: string, x: Node, body: Node): Node { OpNode(OP_LET, [Var(name), x, body], true) }
  function Root(t: Node): Node { t.(hasParent := false) }

  /** The printed form and the shape of a tree follow its parts; proving
      them once for the builders keeps each example's proof to a few steps. */
  lemma SerializeRoot(t: Node)
    ensures Serialize(Root(t)) == Serialize(t)
  {
  }

  lemma SerializeAllCons(n: Node, ns: seq<Node>)
    ensures SerializeAll([n] + ns) == Serialize(n) + SerializeAll(ns)
  {
    assert ([n] + ns)[1..] == ns;
  }

  lemma SerializeAllPair(x: Node, y: Node)
    ensures SerializeAll([x, y]) == Serialize(x) + Serialize(y)
  {
    SerializeAllCons(y, []);
    SerializeAllCons(x, [y]);
    assert [y] + [] == [y] && [x] + [y] == [x, y];
  }

  lemma SerializeAllTriple(x: Node, y: Node, z: Node)
    ensures SerializeAll([x, y, z]) == Serialize(x) + (Serialize(y) + Serialize(z))
  {
    SerializeAllPair(y, z);
    SerializeAllCons(x, [y, z]);
    assert [x] + [y, z] == [x, y, z];
  }

  lemma SerializeBinary(op: string, x: Node, y: Node)
    requires IsKeyword(op)
    ensures Serialize(OpNode(op, [x, y], true)) == [op] + (Serialize(x) + Serialize(y))
  {
    SerializeAllPair(x, y);
  }

  lemma SerializeLetOf(x: Node, value: Node, body: Node)
    ensures Serialize(OpNode(OP_LET, [x, value, body], true)) == [OP_LET] + (Serialize(x) + (Serialize(value) + Serialize(body)))
  {
    SerializeAllTriple(x, value, body);
  }

  lemma WellFormedRoot(t: Node)
    requires WellFormed(t) && t.opName != Some(OP_VAR)
    ensures WellFormed(Root(t))
  {
  }

  lemma WellFormedBinary(op: string, x: Node, y: Node)
    requires IsKeyword(op) && op != OP_LET
    requires x.hasParent && WellFormed(x) && y.hasParent && WellFormed(y)
    ensures WellFormed(OpNode(op, [x, y], true))
  {
  }

  lemma WellFormedLetOf(x: Node, value: Node, body: Node)
    requires x.hasParent && WellFormed(x) && value.hasParent && WellFormed(value)
    requires body.hasParent && WellFormed(body)
    ensures WellFormed(OpNode(OP_LET, [x, value, body], true))
  {
  }

  /** Appending one digit to a digit string shifts its value by one place. */
  lemma DigitsSnoc(s: string, c: char)
    requires IsDigits(s) && IsDigit(c)
    ensures IsDigits(s + [c])
    ensures DigitsValue(s + [c]) == 10 * DigitsValue(s) + DigitValue(c)
  {
    assert (s + [c])[..|s|] == s;
  }

  /** The largest int is accepted, one more is not, and neither is one below the smallest. */
  lemma IntBoundaries()
    ensures IsNumeric("2147483647") && ParseInt("2147483647") == INT_MAX
    ensures !IsNumeric("2147483648")
    ensures IsNumeric("-2147483648") && ParseInt("-2147483648") == INT_MIN
    ensures !IsNumeric("-2147483649")
  {
    var s := "2";
    DigitsSnoc(s, '1'); s := s + ['1'];
    DigitsSnoc(s, '4'); s := s + ['4'];
    DigitsSnoc(s, '7'); s := s + ['7'];
    DigitsSnoc(s, '4'); s := s + ['4'];
    DigitsSnoc(s, '8'); s := s + ['8'];
    DigitsSnoc(s, '3'); s := s + ['3'];
    DigitsSnoc(s, '6'); s := s + ['6'];
    DigitsSnoc(s, '4'); s := s + ['4'];
    assert DigitsValue(s) == 214748364;
    DigitsSnoc(s, '7'); DigitsSnoc(s, '8'); DigitsSnoc(s, '9');
    assert s + ['7'] == "2147483647";
    assert s + ['8'] == "2147483648";
    assert s + ['9'] == "2147483649";
    assert "-2147483648"[1..] == s + ['8'];
    assert "-2147483649"[1..] == s + ['9'];
  }

  /** A leading zero and a plus sign are both accepted by the int parser;
      surrounding blanks, a lone sign or a trailing letter are not. */
  lemma SignsAndZeros()
    ensures IsNumeric("00") && ParseInt("00") == 0
    ensures IsNumeric("+7") && ParseInt("+7") == 7
    ensures !IsNumeric("-") && !IsNumeric("1a") && !IsNumeric(" 1 ") && !IsNumeric("\t \n")
  {
    assert DigitsValue("00") == 10 * DigitsValue("0") + DigitValue('0');
  }

  /** Names are letters only: no underscore, no blanks. */
  lemma LiteralCornerCases()
    ensures !IsLiteral("_") && !IsLiteral("A_") && !IsLiteral("\t \n") && !IsLiteral("")
    ensures IsLiteral("Let") && !IsKeyword("Let")
  {
    assert "_"[0] == '_' && "A_"[1] == '_' && "\t \n"[0] == '\t';
  }

  /** Words separated by the given runs of delimiters. */
  function Interleave(ws: seq<string>, ds: seq<string>): string
    requires |ws| == |ds|
  {
    if |ws| == 0 then "" else ws[0] + ds[0] + Interleave(ws[1..], ds[1..])
  }

  lemma {:induction false} InterleaveAppend(ws1: seq<string>, ds1: seq<string>, ws2: seq<string>, ds2: seq<string>)
    requires |ws1| == |ds1| && |ws2| == |ds2|
    ensures Interleave(ws1 + ws2, ds1 + ds2) == Interleave(ws1, ds1) + Interleave(ws2, ds2)
    decreases |ws1|
  {
    if |ws1| > 0 {
      assert (ws1 + ws2)[1..] == ws1[1..] + ws2;
      assert (ds1 + ds2)[1..] == ds1[1..] + ds2;
      InterleaveAppend(ws1[1..], ds1[1..], ws2, ds2);
    } else {
      assert ws1 + ws2 == ws2 && ds1 + ds2 == ds2;
    }
  }

  /** Nonempty words without delimiters, each followed by a run of
      delimiters that only the last may leave empty. */
  predicate Separated(ws: seq<string>, ds: seq<string>)
    requires |ws| == |ds|
  {
    |ws| > 0 ==>
      ws[0] != "" && DelimiterFree(ws[0]) && AllDelimiters(ds[0]) &&
      (|ws| > 1 ==> ds[0] != "") && Separated(ws[1..], ds[1..])
  }

  lemma {:induction false} SeparatedAppend(w0: seq<string>, d0: seq<string>, w1: seq<string>, d1: seq<string>)
    requires |w0| == |d0| && |w1| == |d1|
    requires Separated(w0, d0) && Separated(w1, d1)
    requires |w0| > 0 && |w1| > 0 ==> d0[|d0| - 1] != ""
    ensures Separated(w0 + w1, d0 + d1)
    decreases |w0|
  {
    if |w0| == 0 {
      assert w0 + w1 == w1 && d0 + d1 == d1;
    } else {
      assert (w0 + w1)[1..] == w0[1..] + w1;
      assert (d0 + d1)[1..] == d0[1..] + d1;
      SeparatedAppend(w0[1..], d0[1..], w1, d1);
    }
  }

  /** Words separated by runs of delimiters are exactly the words found. */
  lemma {:induction false} WordsOfInterleave(ws: seq<string>, ds: seq<string>)
    requires |ws| == |ds|
    requires Separated(ws, ds)
    ensures Words(Interleave(ws, ds)) == ws
    decreases |ws|
  {
    if |ws| > 0 {
      WordsOfInterleave(ws[1..], ds[1..]);
      assert |ds[0]| > 0 || Interleave(ws[1..], ds[1..]) == "";
      WordsCons(ws[0], ds[0], Interleave(ws[1..], ds[1..]));
    }
  }

  /** Text that starts with a printable word tokenizes to its words. */
  lemma TextTokens(s: string, ws: seq<string>, ds: seq<string>)
    requires |ws| == |ds| && |ws| > 0 && |ws[0]| > 0 && ws[0][0] > ' '
    requires Separated(ws, ds)
    requires Interleave(ws, ds) == s
    ensures Tokenize(Some(s)) == ws
  {
    WordsOfInterleave(ws, ds);
    assert s[0] == ws[0][0];
    TokenizeFromWord(s);
  }

  /** Two stretches of separated words make one, and the text of the
      whole is the two texts joined. */
  lemma Chain(w0: seq<string>, d0: seq<string>, w1: seq<string>, d1: seq<string>)
    requires |w0| == |d0| && |w1| == |d1| && |w0| > 0 && |w1| > 0
    requires Separated(w0, d0) && d0[|d0| - 1] != "" && Separated(w1, d1)
    ensures Separated(w0 + w1, d0 + d1) && (d0 + d1)[|d0 + d1| - 1] == d1[|d1| - 1]
    ensures Interleave(w0 + w1, d0 + d1) == Interleave(w0, d0) + Interleave(w1, d1)
  {
    InterleaveAppend(w0, d0, w1, d1);
    SeparatedAppend(w0, d0, w1, d1);
  }

  // Worked examples. A text longer than three words is written as the
  // concatenation of pieces of up to three words, each with its own lemma.

  lemma SumText()
    ensures Separated(["add", "1", "2"], ["(", ", ", ")"])
    ensures Interleave(["add", "1", "2"], ["(", ", ", ")"]) == "add(1, 2)"
  {
  }

  lemma SumTokens()
    ensures Tokenize(Some("add(1, 2)")) == ["add", "1", "2"]
  {
    SumText();
    TextTokens("add(1, 2)", ["add", "1", "2"], ["(", ", ", ")"]);
  }

  lemma SumPieces1()
    ensures [OP_ADD] + (["1"] + ["2"]) == ["add", "1", "2"]
  {
  }

  lemma SumSerialize1()
    ensures Serialize(Add(Int(1), Int(2))) == ["add", "1", "2"]
  {
    SerializeBinary(OP_ADD, Int(1), Int(2));
    SumPieces1();
  }

  lemma SumWellFormed()
    ensures WellFormed(Root(Add(Int(1), Int(2))))
  {
    WellFormedBinary(OP_ADD, Int(1), Int(2));
    WellFormedRoot(Add(Int(1), Int(2)));
  }

  lemma SumSerialize()
    ensures Serialize(Root(Add(Int(1), Int(2)))) == ["add", "1", "2"]
  {
    SumSerialize1();
    SerializeRoot(Add(Int(1), Int(2)));
  }

  lemma SumValue()
    ensures EvalToInt(Root(Add(Int(1), Int(2)))) == Success(3)
  {
  }

  /** Two integers are added. */
  lemma SumExample()
    ensures Calculate(Some("add(1, 2)")) == Success(3)
  {
    SumTokens();
    SumWellFormed();
    SumSerialize();
    SumValue();
    CalculateOfTreeText("add(1, 2)", Root(Add(Int(1), Int(2))));
  }

  lemma SumOfProductText0()
    ensures Separated(["add", "1", "mult"], ["(", ", ", "("])
    ensures Interleave(["add", "1", "mult"], ["(", ", ", "("]) == "add(1, mult("
  {
  }

  lemma SumOfProductText1()
    ensures Separated(["2", "3"], [", ", "))"])
    ensures Interleave(["2", "3"], [", ", "))"]) == "2, 3))"
  {
  }

  lemma SumOfProductWords()
    ensures ["add", "1", "mult"] + ["2", "3"] == ["add", "1", "mult", "2", "3"]
  {
  }

  lemma SumOfProductTokens()
    ensures Tokenize(Some("add(1, mult(" + "2, 3))")) == ["add", "1", "mult", "2", "3"]
  {
    var w0, d0 := ["add", "1", "mult"], ["(", ", ", "("];
    SumOfProductText0();
    var w1, d1 := ["2", "3"], [", ", "))"];
    SumOfProductText1();
    Chain(w0, d0, w1, d1);
    TextTokens("add(1, mult(" + "2, 3))", w0 + w1, d0 + d1);
    SumOfProductWords();
  }

  lemma SumOfProductPieces1()
    ensures [OP_MUL] + (["2"] + ["3"]) == ["mult", "2", "3"]
  {
  }

  lemma SumOfProductSerialize1()
    ensures Serialize(Mult(Int(2), Int(3))) == ["mult", "2", "3"]
  {
    SerializeBinary(OP_MUL, Int(2), Int(3));
    SumOfProductPieces1();
  }

  lemma SumOfProductPieces2()
    ensures [OP_ADD] + (["1"] + ["mult", "2", "3"]) == ["add", "1", "mult", "2", "3"]
  {
  }

  lemma SumOfProductSerialize2()
    ensures Serialize(Add(Int(1), Mult(Int(2), Int(3)))) == ["add", "1", "mult", "2", "3"]
  {
    SumOfProductSerialize1();
    SerializeBinary(OP_ADD, Int(1), Mult(Int(2), Int(3)));
    SumOfProductPieces2();
  }

  lemma SumOfProductWellFormed()
    ensures WellFormed(Root(Add(Int(1), Mult(Int(2), Int(3)))))
  {
    WellFormedBinary(OP_MUL, Int(2), Int(3));
    WellFormedBinary(OP_ADD, Int(1), Mult(Int(2), Int(3)));
    WellFormedRoot(Add(Int(1), Mult(Int(2), Int(3))));
  }

  lemma SumOfProductSerialize()
    ensures Serialize(Root(Add(Int(1), Mult(Int(2), Int(3))))) == ["add", "1", "mult", "2", "3"]
  {
    SumOfProductSerialize2();
    SerializeRoot(Add(Int(1), Mult(Int(2), Int(3))));
  }

  lemma SumOfProductValue()
    ensures EvalToInt(Root(Add(Int(1), Mult(Int(2), Int(3))))) == Success(7)
  {
  }

  /** Operands may themselves be operations. */
  lemma SumOfProductExample()
    ensures Calculate(Some("add(1, mult(" + "2, 3))")) == Success(7)
  {
    SumOfProductTokens();
    SumOfProductWellFormed();
    SumOfProductSerialize();
    SumOfProductValue();
    CalculateOfTreeText("add(1, mult(" + "2, 3))", Root(Add(Int(1), Mult(Int(2), Int(3)))));
  }

  lemma ProductOfQuotientText0()
    ensures Separated(["mult", "add", "2"], ["(", "(", ", "])
    ensures Interleave(["mult", "add", "2"], ["(", "(", ", "]) == "mult(add(2, "
  {
  }

  lemma ProductOfQuotientText1()
    ensures Separated(["2", "div", "9"], ["), ", "(", ", "])
    ensures Interleave(["2", "div", "9"], ["), ", "(", ", "]) == "2), div(9, "
  {
  }

  lemma ProductOfQuotientText2()
    ensures Separated(["3"], ["))"])
    ensures Interleave(["3"], ["))"]) == "3))"
  {
  }

  lemma ProductOfQuotientWords()
    ensures ["mult", "add", "2"] + ["2", "div", "9"] + ["3"] == ["mult", "add", "2", "2", "div", "9", "3"]
  {
  }

  lemma ProductOfQuotientTokens()
    ensures Tokenize(Some("mult(add(2, " + "2), div(9, " + "3))")) == ["mult", "add", "2", "2", "div", "9", "3"]
  {
    var w0, d0 := ["mult", "add", "2"], ["(", "(", ", "];
    ProductOfQuotientText0();
    var w1, d1 := ["2", "div", "9"], ["), ", "(", ", "];
    ProductOfQuotientText1();
    var w2, d2 := ["3"], ["))"];
    ProductOfQuotientText2();
    Chain(w0, d0, w1, d1);
    Chain(w0 + w1, d0 + d1, w2, d2);
    TextTokens("mult(add(2, " + "2), div(9, " + "3))", w0 + w1 + w2, d0 + d1 + d2);
    ProductOfQuotientWords();
  }

  lemma ProductOfQuotientPieces1()
    ensures [OP_ADD] + (["2"] + ["2"]) == ["add", "2", "2"]
  {
  }

  lemma ProductOfQuotientSerialize1()
    ensures Serialize(Add(Int(2), Int(2))) == ["add", "2", "2"]
  {
    SerializeBinary(OP_ADD, Int(2), Int(2));
    ProductOfQuotientPieces1();
  }

  lemma ProductOfQuotientPieces2()
    ensures [OP_DIV] + (["9"] + ["3"]) == ["div", "9", "3"]
  {
  }

  lemma ProductOfQuotientSerialize2()
    ensures Serialize(Div(Int(9), Int(3))) == ["div", "9", "3"]
  {
    SerializeBinary(OP_DIV, Int(9), Int(3));
    ProductOfQuotientPieces2();
  }

  lemma ProductOfQuotientPieces3()
    ensures [OP_MUL] + (["add", "2", "2"] + ["div", "9", "3"]) == ["mult", "add", "2", "2", "div", "9", "3"]
  {
  }

  lemma ProductOfQuotientSerialize3()
    ensures Serialize(Mult(Add(Int(2), Int(2)), Div(Int(9), Int(3)))) == ["mult", "add", "2", "2", "div", "9", "3"]
  {
    ProductOfQuotientSerialize1();
    ProductOfQuotientSerialize2();
    SerializeBinary(OP_MUL, Add(Int(2), Int(2)), Div(Int(9), Int(3)));
    ProductOfQuotientPieces3();
  }

  lemma ProductOfQuotientWellFormed()
    ensures WellFormed(Root(Mult(Add(Int(2), Int(2)), Div(Int(9), Int(3)))))
  {
    WellFormedBinary(OP_ADD, Int(2), Int(2));
    WellFormedBinary(OP_DIV, Int(9), Int(3));
    WellFormedBinary(OP_MUL, Add(Int(2), Int(2)), Div(Int(9), Int(3)));
    WellFormedRoot(Mult(Add(Int(2), Int(2)), Div(Int(9), Int(3))));
  }

  lemma ProductOfQuotientSerialize()
    ensures Serialize(Root(Mult(Add(Int(2), Int(2)), Div(Int(9), Int(3))))) == ["mult", "add", "2", "2", "div", "9", "3"]
  {
    ProductOfQuotientSerialize3();
    SerializeRoot(Mult(Add(Int(2), Int(2)), Div(Int(9), Int(3))));
  }

  lemma ProductOfQuotientValue()
    ensures EvalToInt(Root(Mult(Add(Int(2), Int(2)), Div(Int(9), Int(3))))) == Success(12)
  {
  }

  /** Both operands of a product are evaluated before it. */
  lemma ProductOfQuotientExample()
    ensures Calculate(Some("mult(add(2, " + "2), div(9, " + "3))")) == Success(12)
  {
    ProductOfQuotientTokens();
    ProductOfQuotientWellFormed();
    ProductOfQuotientSerialize();
    ProductOfQuotientValue();
    CalculateOfTreeText("mult(add(2, " + "2), div(9, " + "3))", Root(Mult(Add(Int(2), Int(2)), Div(Int(9), Int(3)))));
  }

  lemma LetDoubleText0()
    ensures Separated(["let", "a", "5"], ["(", ", ", ", "])
    ensures Interleave(["let", "a", "5"], ["(", ", ", ", "]) == "let(a, 5, "
  {
  }

  lemma LetDoubleText1()
    ensures Separated(["add", "a", "a"], ["(", ", ", "))"])
    ensures Interleave(["add", "a", "a"], ["(", ", ", "))"]) == "add(a, a))"
  {
  }

  lemma LetDoubleWords()
    ensures ["let", "a", "5"] + ["add", "a", "a"] == ["let", "a", "5", "add", "a", "a"]
  {
  }

  lemma LetDoubleTokens()
    ensures Tokenize(Some("let(a, 5, " + "add(a, a))")) == ["let", "a", "5", "add", "a", "a"]
  {
    var w0, d0 := ["let", "a", "5"], ["(", ", ", ", "];
    LetDoubleText0();
    var w1, d1 := ["add", "a", "a"], ["(", ", ", "))"];
    LetDoubleText1();
    Chain(w0, d0, w1, d1);
    TextTokens("let(a, 5, " + "add(a, a))", w0 + w1, d0 + d1);
    LetDoubleWords();
  }

  lemma LetDoublePieces1()
    ensures [OP_ADD] + (["a"] + ["a"]) == ["add", "a", "a"]
  {
  }

  lemma LetDoubleSerialize1()
    ensures Serialize(Add(Var("a"), Var("a"))) == ["add", "a", "a"]
  {
    SerializeBinary(OP_ADD, Var("a"), Var("a"));
    LetDoublePieces1();
  }

  lemma LetDoublePieces2()
    ensures [OP_LET] + (["a"] + (["5"] + ["add", "a", "a"])) == ["let", "a", "5", "add", "a", "a"]
  {
  }

  lemma LetDoubleSerialize2()
    ensures Serialize(Let("a", Int(5), Add(Var("a"), Var("a")))) == ["let", "a", "5", "add", "a", "a"]
  {
    LetDoubleSerialize1();
    SerializeLetOf(Var("a"), Int(5), Add(Var("a"), Var("a")));
    LetDoublePieces2();
  }

  lemma LetDoubleWellFormed()
    ensures WellFormed(Root(Let("a", Int(5), Add(Var("a"), Var("a")))))
  {
    WellFormedBinary(OP_ADD, Var("a"), Var("a"));
    WellFormedLetOf(Var("a"), Int(5), Add(Var("a"), Var("a")));
    WellFormedRoot(Let("a", Int(5), Add(Var("a"), Var("a"))));
  }

  lemma LetDoubleSerialize()
    ensures Serialize(Root(Let("a", Int(5), Add(Var("a"), Var("a"))))) == ["let", "a", "5", "add", "a", "a"]
  {
    LetDoubleSerialize2();
    SerializeRoot(Let("a", Int(5), Add(Var("a"), Var("a"))));
  }

  lemma LetDoubleValue()
    ensures EvalToInt(Root(Let("a", Int(5), Add(Var("a"), Var("a"))))) == Success(10)
  {
  }

  /** A let binding can be read more than once in its body. */
  lemma LetDoubleExample()
    ensures Calculate(Some("let(a, 5, " + "add(a, a))")) == Success(10)
  {
    LetDoubleTokens();
    LetDoubleWellFormed();
    LetDoubleSerialize();
    LetDoubleValue();
    CalculateOfTreeText("let(a, 5, " + "add(a, a))", Root(Let("a", Int(5), Add(Var("a"), Var("a")))));
  }

  lemma CaseSensitiveText0()
    ensures Separated(["let", "Let", "5"], ["(", ", ", ", "])
    ensures Interleave(["let", "Let", "5"], ["(", ", ", ", "]) == "let(Let, 5, "
  {
  }

  lemma CaseSensitiveText1()
    ensures Separated(["add", "Let", "Let"], ["(", ", ", "))"])
    ensures Interleave(["add", "Let", "Let"], ["(", ", ", "))"]) == "add(Let, Let))"
  {
  }

  lemma CaseSensitiveWords()
    ensures ["let", "Let", "5"] + ["add", "Let", "Let"] == ["let", "Let", "5", "add", "Let", "Let"]
  {
  }

  lemma CaseSensitiveTokens()
    ensures Tokenize(Some("let(Let, 5, " + "add(Let, Let))")) == ["let", "Let", "5", "add", "Let", "Let"]
  {
    var w0, d0 := ["let", "Let", "5"], ["(", ", ", ", "];
    CaseSensitiveText0();
    var w1, d1 := ["add", "Let", "Let"], ["(", ", ", "))"];
    CaseSensitiveText1();
    Chain(w0, d0, w1, d1);
    TextTokens("let(Let, 5, " + "add(Let, Let))", w0 + w1, d0 + d1);
    CaseSensitiveWords();
  }

  lemma CaseSensitivePieces1()
    ensures [OP_ADD] + (["Let"] + ["Let"]) == ["add", "Let", "Let"]
  {
  }

  lemma CaseSensitiveSerialize1()
    ensures Serialize(Add(Var("Let"), Var("Let"))) == ["add", "Let", "Let"]
  {
    SerializeBinary(OP_ADD, Var("Let"), Var("Let"));
    CaseSensitivePieces1();
  }

  lemma CaseSensitivePieces2()
    ensures [OP_LET] + (["Let"] + (["5"] + ["add", "Let", "Let"])) == ["let", "Let", "5", "add", "Let", "Let"]
  {
  }

  lemma CaseSensitiveSerialize2()
    ensures Serialize(Let("Let", Int(5), Add(Var("Let"), Var("Let")))) == ["let", "Let", "5", "add", "Let", "Let"]
  {
    CaseSensitiveSerialize1();
    SerializeLetOf(Var("Let"), Int(5), Add(Var("Let"), Var("Let")));
    CaseSensitivePieces2();
  }

  lemma CaseSensitiveWellFormed()
    ensures WellFormed(Root(Let("Let", Int(5), Add(Var("Let"), Var("Let")))))
  {
    WellFormedBinary(OP_ADD, Var("Let"), Var("Let"));
    WellFormedLetOf(Var("Let"), Int(5), Add(Var("Let"), Var("Let")));
    WellFormedRoot(Let("Let", Int(5), Add(Var("Let"), Var("Let"))));
  }

  lemma CaseSensitiveSerialize()
    ensures Serialize(Root(Let("Let", Int(5), Add(Var("Let"), Var("Let"))))) == ["let", "Let", "5", "add", "Let", "Let"]
  {
    CaseSensitiveSerialize2();
    SerializeRoot(Let("Let", Int(5), Add(Var("Let"), Var("Let"))));
  }

  lemma CaseSensitiveValue()
    ensures EvalToInt(Root(Let("Let", Int(5), Add(Var("Let"), Var("Let"))))) == Success(10)
  {
  }

  /** Keywords are matched case-sensitively, so `Let` is a variable name. */
  lemma CaseSensitiveExample()
    ensures Calculate(Some("let(Let, 5, " + "add(Let, Let))")) == Success(10)
  {
    CaseSensitiveTokens();
    CaseSensitiveWellFormed();
    CaseSensitiveSerialize();
    CaseSensitiveValue();
    CalculateOfTreeText("let(Let, 5, " + "add(Let, Let))", Root(Let("Let", Int(5), Add(Var("Let"), Var("Let")))));
  }

  lemma UnusedValueText0()
    ensures Separated(["let", "a", "add"], ["(", ", ", "("])
    ensures Interleave(["let", "a", "add"], ["(", ", ", "("]) == "let(a, add("
  {
  }

  lemma UnusedValueText1()
    ensures Separated(["4", "6", "5"], [",", "), ", ")"])
    ensures Interleave(["4", "6", "5"], [",", "), ", ")"]) == "4,6), 5)"
  {
  }

  lemma UnusedValueWords()
    ensures ["let", "a", "add"] + ["4", "6", "5"] == ["let", "a", "add", "4", "6", "5"]
  {
  }

  lemma UnusedValueTokens()
    ensures Tokenize(Some("let(a, add(" + "4,6), 5)")) == ["let", "a", "add", "4", "6", "5"]
  {
    var w0, d0 := ["let", "a", "add"], ["(", ", ", "("];
    UnusedValueText0();
    var w1, d1 := ["4", "6", "5"], [",", "), ", ")"];
    UnusedValueText1();
    Chain(w0, d0, w1, d1);
    TextTokens("let(a, add(" + "4,6), 5)", w0 + w1, d0 + d1);
    UnusedValueWords();
  }

  lemma UnusedValuePieces1()
    ensures [OP_ADD] + (["4"] + ["6"]) == ["add", "4", "6"]
  {
  }

  lemma UnusedValueSerialize1()
    ensures Serialize(Add(Int(4), Int(6))) == ["add", "4", "6"]
  {
    SerializeBinary(OP_ADD, Int(4), Int(6));
    UnusedValuePieces1();
  }

  lemma UnusedValuePieces2()
    ensures [OP_LET] + (["a"] + (["add", "4", "6"] + ["5"])) == ["let", "a", "add", "4", "6", "5"]
  {
  }

  lemma UnusedValueSerialize2()
    ensures Serialize(Let("a", Add(Int(4), Int(6)), Int(5))) == ["let", "a", "add", "4", "6", "5"]
  {
    UnusedValueSerialize1();
    SerializeLetOf(Var("a"), Add(Int(4), Int(6)), Int(5));
    UnusedValuePieces2();
  }

  lemma UnusedValueWellFormed()
    ensures WellFormed(Root(Let("a", Add(Int(4), Int(6)), Int(5))))
  {
    WellFormedBinary(OP_ADD, Int(4), Int(6));
    WellFormedLetOf(Var("a"), Add(Int(4), Int(6)), Int(5));
    WellFormedRoot(Let("a", Add(Int(4), Int(6)), Int(5)));
  }

  lemma UnusedValueSerialize()
    ensures Serialize(Root(Let("a", Add(Int(4), Int(6)), Int(5)))) == ["let", "a", "add", "4", "6", "5"]
  {
    UnusedValueSerialize2();
    SerializeRoot(Let("a", Add(Int(4), Int(6)), Int(5)));
  }

  lemma UnusedValueValue()
    ensures EvalToInt(Root(Let("a", Add(Int(4), Int(6)), Int(5)))) == Success(5)
  {
  }

  /** A let whose body ignores the binding has the body's value. */
  lemma UnusedValueExample()
    ensures Calculate(Some("let(a, add(" + "4,6), 5)")) == Success(5)
  {
    UnusedValueTokens();
    UnusedValueWellFormed();
    UnusedValueSerialize();
    UnusedValueValue();
    CalculateOfTreeText("let(a, add(" + "4,6), 5)", Root(Let("a", Add(Int(4), Int(6)), Int(5))));
  }

  lemma LetValueText0()
    ensures Separated(["let", "a", "5"], ["(", ",", ","])
    ensures Interleave(["let", "a", "5"], ["(", ",", ","]) == "let(a,5,"
  {
  }

  lemma LetValueText1()
    ensures Separated(["a"], [")"])
    ensures Interleave(["a"], [")"]) == "a)"
  {
  }

  lemma LetValueWords()
    ensures ["let", "a", "5"] + ["a"] == ["let", "a", "5", "a"]
  {
  }

  lemma LetValueTokens()
    ensures Tokenize(Some("let(a,5," + "a)")) == ["let", "a", "5", "a"]
  {
    var w0, d0 := ["let", "a", "5"], ["(", ",", ","];
    LetValueText0();
    var w1, d1 := ["a"], [")"];
    LetValueText1();
    Chain(w0, d0, w1, d1);
    TextTokens("let(a,5," + "a)", w0 + w1, d0 + d1);
    LetValueWords();
  }

  lemma LetValuePieces1()
    ensures [OP_LET] + (["a"] + (["5"] + ["a"])) == ["let", "a", "5", "a"]
  {
  }

  lemma LetValueSerialize1()
    ensures Serialize(Let("a", Int(5), Var("a"))) == ["let", "a", "5", "a"]
  {
    SerializeLetOf(Var("a"), Int(5), Var("a"));
    LetValuePieces1();
  }

  lemma LetValueWellFormed()
    ensures WellFormed(Root(Let("a", Int(5), Var("a"))))
  {
    WellFormedLetOf(Var("a"), Int(5), Var("a"));
    WellFormedRoot(Let("a", Int(5), Var("a")));
  }

  lemma LetValueSerialize()
    ensures Serialize(Root(Let("a", Int(5), Var("a")))) == ["let", "a", "5", "a"]
  {
    LetValueSerialize1();
    SerializeRoot(Let("a", Int(5), Var("a")));
  }

  lemma LetValueValue()
    ensures EvalToInt(Root(Let("a", Int(5), Var("a")))) == Success(5)
  {
  }

  /** A let binds its name for its body. */
  lemma LetValueExample()
    ensures Calculate(Some("let(a,5," + "a)")) == Success(5)
  {
    LetValueTokens();
    LetValueWellFormed();
    LetValueSerialize();
    LetValueValue();
    CalculateOfTreeText("let(a,5," + "a)", Root(Let("a", Int(5), Var("a"))));
  }

  lemma ExtraParenText()
    ensures Separated(["add", "1", "2"], ["((", ", ", ")"])
    ensures Interleave(["add", "1", "2"], ["((", ", ", ")"]) == "add((1, 2)"
  {
  }

  lemma ExtraParenTokens()
    ensures Tokenize(Some("add((1, 2)")) == ["add", "1", "2"]
  {
    ExtraParenText();
    TextTokens("add((1, 2)", ["add", "1", "2"], ["((", ", ", ")"]);
  }

  lemma ExtraParenPieces1()
    ensures [OP_ADD] + (["1"] + ["2"]) == ["add", "1", "2"]
  {
  }

  lemma ExtraParenSerialize1()
    ensures Serialize(Add(Int(1), Int(2))) == ["add", "1", "2"]
  {
    SerializeBinary(OP_ADD, Int(1), Int(2));
    ExtraParenPieces1();
  }

  lemma ExtraParenWellFormed()
    ensures WellFormed(Root(Add(Int(1), Int(2))))
  {
    WellFormedBinary(OP_ADD, Int(1), Int(2));
    WellFormedRoot(Add(Int(1), Int(2)));
  }

  lemma ExtraParenSerialize()
    ensures Serialize(Root(Add(Int(1), Int(2)))) == ["add", "1", "2"]
  {
    ExtraParenSerialize1();
    SerializeRoot(Add(Int(1), Int(2)));
  }

  lemma ExtraParenValue()
    ensures EvalToInt(Root(Add(Int(1), Int(2)))) == Success(3)
  {
  }

  /** Parentheses are delimiters only: an unbalanced one changes nothing. */
  lemma ExtraParenExample()
    ensures Calculate(Some("add((1, 2)")) == Success(3)
  {
    ExtraParenTokens();
    ExtraParenWellFormed();
    ExtraParenSerialize();
    ExtraParenValue();
    CalculateOfTreeText("add((1, 2)", Root(Add(Int(1), Int(2))));
  }

  lemma TrailingParensText0()
    ensures Separated(["let", "Let", "5"], ["(", ", ", ", "])
    ensures Interleave(["let", "Let", "5"], ["(", ", ", ", "]) == "let(Let, 5, "
  {
  }

  lemma TrailingParensText1()
    ensures Separated(["add", "Let", "Let"], ["(", ", ", "))))))"])
    ensures Interleave(["add", "Let", "Let"], ["(", ", ", "))))))"]) == "add(Let, Let))))))"
  {
  }

  lemma TrailingParensWords()
    ensures ["let", "Let", "5"] + ["add", "Let", "Let"] == ["let", "Let", "5", "add", "Let", "Let"]
  {
  }

  lemma TrailingParensTokens()
    ensures Tokenize(Some("let(Let, 5, " + "add(Let, Let))))))")) == ["let", "Let", "5", "add", "Let", "Let"]
  {
    var w0, d0 := ["let", "Let", "5"], ["(", ", ", ", "];
    TrailingParensText0();
    var w1, d1 := ["add", "Let", "Let"], ["(", ", ", "))))))"];
    TrailingParensText1();
    Chain(w0, d0, w1, d1);
    TextTokens("let(Let, 5, " + "add(Let, Let))))))", w0 + w1, d0 + d1);
    TrailingParensWords();
  }

  lemma TrailingParensPieces1()
    ensures [OP_ADD] + (["Let"] + ["Let"]) == ["add", "Let", "Let"]
  {
  }

  lemma TrailingParensSerialize1()
    ensures Serialize(Add(Var("Let"), Var("Let"))) == ["add", "Let", "Let"]
  {
    SerializeBinary(OP_ADD, Var("Let"), Var("Let"));
    TrailingParensPieces1();
  }

  lemma TrailingParensPieces2()
    ensures [OP_LET] + (["Let"] + (["5"] + ["add", "Let", "Let"])) == ["let", "Let", "5", "add", "Let", "Let"]
  {
  }

  lemma TrailingParensSerialize2()
    ensures Serialize(Let("Let", Int(5), Add(Var("Let"), Var("Let")))) == ["let", "Let", "5", "add", "Let", "Let"]
  {
    TrailingParensSerialize1();
    SerializeLetOf(Var("Let"), Int(5), Add(Var("Let"), Var("Let")));
    TrailingParensPieces2();
  }

  lemma TrailingParensWellFormed()
    ensures WellFormed(Root(Let("Let", Int(5), Add(Var("Let"), Var("Let")))))
  {
    WellFormedBinary(OP_ADD, Var("Let"), Var("Let"));
    WellFormedLetOf(Var("Let"), Int(5), Add(Var("Let"), Var("Let")));
    WellFormedRoot(Let("Let", Int(5), Add(Var("Let"), Var("Let"))));
  }

  lemma TrailingParensSerialize()
    ensures Serialize(Root(Let("Let", Int(5), Add(Var("Let"), Var("Let"))))) == ["let", "Let", "5", "add", "Let", "Let"]
  {
    TrailingParensSerialize2();
    SerializeRoot(Let("Let", Int(5), Add(Var("Let"), Var("Let"))));
  }

  lemma TrailingParensValue()
    ensures EvalToInt(Root(Let("Let", Int(5), Add(Var("Let"), Var("Let"))))) == Success(10)
  {
  }

  /** Surplus closing parentheses are ignored. */
  lemma TrailingParensExample()
    ensures Calculate(Some("let(Let, 5, " + "add(Let, Let))))))")) == Success(10)
  {
    TrailingParensTokens();
    TrailingParensWellFormed();
    TrailingParensSerialize();
    TrailingParensValue();
    CalculateOfTreeText("let(Let, 5, " + "add(Let, Let))))))", Root(Let("Let", Int(5), Add(Var("Let"), Var("Let")))));
  }

  lemma TruncationText()
    ensures Separated(["div", "-7", "2"], ["(", ", ", ")"])
    ensures Interleave(["div", "-7", "2"], ["(", ", ", ")"]) == "div(-7, 2)"
  {
  }

  lemma TruncationTokens()
    ensures Tokenize(Some("div(-7, 2)")) == ["div", "-7", "2"]
  {
    TruncationText();
    TextTokens("div(-7, 2)", ["div", "-7", "2"], ["(", ", ", ")"]);
  }

  lemma TruncationPieces1()
    ensures [OP_DIV] + (["-7"] + ["2"]) == ["div", "-7", "2"]
  {
  }

  lemma TruncationSerialize1()
    ensures Serialize(Div(Int(-7), Int(2))) == ["div", "-7", "2"]
  {
    assert ShowInt(-7) == "-7";
    SerializeBinary(OP_DIV, Int(-7), Int(2));
    TruncationPieces1();
  }

  lemma TruncationWellFormed()
    ensures WellFormed(Root(Div(Int(-7), Int(2))))
  {
    WellFormedBinary(OP_DIV, Int(-7), Int(2));
    WellFormedRoot(Div(Int(-7), Int(2)));
  }

  lemma TruncationSerialize()
    ensures Serialize(Root(Div(Int(-7), Int(2)))) == ["div", "-7", "2"]
  {
    TruncationSerialize1();
    SerializeRoot(Div(Int(-7), Int(2)));
  }

  lemma TruncationValue()
    ensures EvalToInt(Root(Div(Int(-7), Int(2)))) == Success(-3)
  {
  }

  /** Division is exact and the result is truncated toward zero. */
  lemma TruncationExample()
    ensures Calculate(Some("div(-7, 2)")) == Success(-3)
  {
    TruncationTokens();
    TruncationWellFormed();
    TruncationSerialize();
    TruncationValue();
    CalculateOfTreeText("div(-7, 2)", Root(Div(Int(-7), Int(2))));
  }

  lemma NestedLetText0()
    ensures Separated(["let", "a", "5"], ["(", ", ", ", "])
    ensures Interleave(["let", "a", "5"], ["(", ", ", ", "]) == "let(a, 5, "
  {
  }

  lemma NestedLetText1()
    ensures Separated(["let", "b", "mult"], ["(", ", ", "("])
    ensures Interleave(["let", "b", "mult"], ["(", ", ", "("]) == "let(b, mult("
  {
  }

  lemma NestedLetText2()
    ensures Separated(["a", "10", "add"], [", ", "),", "("])
    ensures Interleave(["a", "10", "add"], [", ", "),", "("]) == "a, 10),add("
  {
  }

  lemma NestedLetText3()
    ensures Separated(["b", "a"], [", ", ")))"])
    ensures Interleave(["b", "a"], [", ", ")))"]) == "b, a)))"
  {
  }

  lemma NestedLetWords()
    ensures ["let", "a", "5"] + ["let", "b", "mult"] + ["a", "10", "add"] + ["b", "a"] == ["let", "a", "5", "let", "b", "mult", "a", "10", "add", "b", "a"]
  {
  }

  lemma NestedLetTokens()
    ensures Tokenize(Some("let(a, 5, " + "let(b, mult(" + "a, 10),add(" + "b, a)))")) == ["let", "a", "5", "let", "b", "mult", "a", "10", "add", "b", "a"]
  {
    var w0, d0 := ["let", "a", "5"], ["(", ", ", ", "];
    NestedLetText0();
    var w1, d1 := ["let", "b", "mult"], ["(", ", ", "("];
    NestedLetText1();
    var w2, d2 := ["a", "10", "add"], [", ", "),", "("];
    NestedLetText2();
    var w3, d3 := ["b", "a"], [", ", ")))"];
    NestedLetText3();
    Chain(w0, d0, w1, d1);
    Chain(w0 + w1, d0 + d1, w2, d2);
    Chain(w0 + w1 + w2, d0 + d1 + d2, w3, d3);
    TextTokens("let(a, 5, " + "let(b, mult(" + "a, 10),add(" + "b, a)))", w0 + w1 + w2 + w3, d0 + d1 + d2 + d3);
    NestedLetWords();
  }

  lemma NestedLetPieces1()
    ensures [OP_MUL] + (["a"] + ["10"]) == ["mult", "a", "10"]
  {
  }

  lemma NestedLetSerialize1()
    ensures Serialize(Mult(Var("a"), Int(10))) == ["mult", "a", "10"]
  {
    assert ShowInt(10) == "10";
    SerializeBinary(OP_MUL, Var("a"), Int(10));
    NestedLetPieces1();
  }

  lemma NestedLetPieces2()
    ensures [OP_ADD] + (["b"] + ["a"]) == ["add", "b", "a"]
  {
  }

  lemma NestedLetSerialize2()
    ensures Serialize(Add(Var("b"), Var("a"))) == ["add", "b", "a"]
  {
    SerializeBinary(OP_ADD, Var("b"), Var("a"));
    NestedLetPieces2();
  }

  lemma NestedLetPieces3()
    ensures [OP_LET] + (["b"] + (["mult", "a", "10"] + ["add", "b", "a"])) == ["let", "b", "mult", "a", "10", "add", "b", "a"]
  {
  }

  lemma NestedLetSerialize3()
    ensures Serialize(Let("b", Mult(Var("a"), Int(10)), Add(Var("b"), Var("a")))) == ["let", "b", "mult", "a", "10", "add", "b", "a"]
  {
    NestedLetSerialize1();
    NestedLetSerialize2();
    SerializeLetOf(Var("b"), Mult(Var("a"), Int(10)), Add(Var("b"), Var("a")));
    NestedLetPieces3();
  }

  lemma NestedLetPieces4()
    ensures [OP_LET] + (["a"] + (["5"] + ["let", "b", "mult", "a", "10", "add", "b", "a"])) == ["let", "a", "5", "let", "b", "mult", "a", "10", "add", "b", "a"]
  {
  }

  lemma NestedLetSerialize4()
    ensures Serialize(Let("a", Int(5), Let("b", Mult(Var("a"), Int(10)), Add(Var("b"), Var("a"))))) == ["let", "a", "5", "let", "b", "mult", "a", "10", "add", "b", "a"]
  {
    NestedLetSerialize3();
    SerializeLetOf(Var("a"), Int(5), Let("b", Mult(Var("a"), Int(10)), Add(Var("b"), Var("a"))));
    NestedLetPieces4();
  }

  lemma NestedLetWellFormed()
    ensures WellFormed(Root(Let("a", Int(5), Let("b", Mult(Var("a"), Int(10)), Add(Var("b"), Var("a"))))))
  {
    WellFormedBinary(OP_MUL, Var("a"), Int(10));
    WellFormedBinary(OP_ADD, Var("b"), Var("a"));
    WellFormedLetOf(Var("b"), Mult(Var("a"), Int(10)), Add(Var("b"), Var("a")));
    WellFormedLetOf(Var("a"), Int(5), Let("b", Mult(Var("a"), Int(10)), Add(Var("b"), Var("a"))));
    WellFormedRoot(Let("a", Int(5), Let("b", Mult(Var("a"), Int(10)), Add(Var("b"), Var("a")))));
  }

  lemma NestedLetSerialize()
    ensures Serialize(Root(Let("a", Int(5), Let("b", Mult(Var("a"), Int(10)), Add(Var("b"), Var("a")))))) == ["let", "a", "5", "let", "b", "mult", "a", "10", "add", "b", "a"]
  {
    NestedLetSerialize4();
    SerializeRoot(Let("a", Int(5), Let("b", Mult(Var("a"), Int(10)), Add(Var("b"), Var("a")))));
  }

  lemma NestedLetValue()
    ensures EvalToInt(Root(Let("a", Int(5), Let("b", Mult(Var("a"), Int(10)), Add(Var("b"), Var("a")))))) == Success(55)
  {
  }

  /** An inner let sees the outer binding. */
  lemma NestedLetExample()
    ensures Calculate(Some("let(a, 5, " + "let(b, mult(" + "a, 10),add(" + "b, a)))")) == Success(55)
  {
    NestedLetTokens();
    NestedLetWellFormed();
    NestedLetSerialize();
    NestedLetValue();
    CalculateOfTreeText("let(a, 5, " + "let(b, mult(" + "a, 10),add(" + "b, a)))", Root(Let("a", Int(5), Let("b", Mult(Var("a"), Int(10)), Add(Var("b"), Var("a"))))));
  }

  lemma BindingOutlivesLetText0()
    ensures Separated(["add", "let", "a"], ["(", "(", ", "])
    ensures Interleave(["add", "let", "a"], ["(", "(", ", "]) == "add(let(a, "
  {
  }

  lemma BindingOutlivesLetText1()
    ensures Separated(["1", "a", "a"], [", ", "), ", ")"])
    ensures Interleave(["1", "a", "a"], [", ", "), ", ")"]) == "1, a), a)"
  {
  }

  lemma BindingOutlivesLetWords()
    ensures ["add", "let", "a"] + ["1", "a", "a"] == ["add", "let", "a", "1", "a", "a"]
  {
  }

  lemma BindingOutlivesLetTokens()
    ensures Tokenize(Some("add(let(a, " + "1, a), a)")) == ["add", "let", "a", "1", "a", "a"]
  {
    var w0, d0 := ["add", "let", "a"], ["(", "(", ", "];
    BindingOutlivesLetText0();
    var w1, d1 := ["1", "a", "a"], [", ", "), ", ")"];
    BindingOutlivesLetText1();
    Chain(w0, d0, w1, d1);
    TextTokens("add(let(a, " + "1, a), a)", w0 + w1, d0 + d1);
    BindingOutlivesLetWords();
  }

  lemma BindingOutlivesLetPieces1()
    ensures [OP_LET] + (["a"] + (["1"] + ["a"])) == ["let", "a", "1", "a"]
  {
  }

  lemma BindingOutlivesLetSerialize1()
    ensures Serialize(Let("a", Int(1), Var("a"))) == ["let", "a", "1", "a"]
  {
    SerializeLetOf(Var("a"), Int(1), Var("a"));
    BindingOutlivesLetPieces1();
  }

  lemma BindingOutlivesLetPieces2()
    ensures [OP_ADD] + (["let", "a", "1", "a"] + ["a"]) == ["add", "let", "a", "1", "a", "a"]
  {
  }

  lemma BindingOutlivesLetSerialize2()
    ensures Serialize(Add(Let("a", Int(1), Var("a")), Var("a"))) == ["add", "let", "a", "1", "a", "a"]
  {
    BindingOutlivesLetSerialize1();
    SerializeBinary(OP_ADD, Let("a", Int(1), Var("a")), Var("a"));
    BindingOutlivesLetPieces2();
  }

  lemma BindingOutlivesLetWellFormed()
    ensures WellFormed(Root(Add(Let("a", Int(1), Var("a")), Var("a"))))
  {
    WellFormedLetOf(Var("a"), Int(1), Var("a"));
    WellFormedBinary(OP_ADD, Let("a", Int(1), Var("a")), Var("a"));
    WellFormedRoot(Add(Let("a", Int(1), Var("a")), Var("a")));
  }

  lemma BindingOutlivesLetSerialize()
    ensures Serialize(Root(Add(Let("a", Int(1), Var("a")), Var("a")))) == ["add", "let", "a", "1", "a", "a"]
  {
    BindingOutlivesLetSerialize2();
    SerializeRoot(Add(Let("a", Int(1), Var("a")), Var("a")));
  }

  lemma BindingOutlivesLetValue()
    ensures EvalToInt(Root(Add(Let("a", Int(1), Var("a")), Var("a")))) == Success(2)
  {
  }

  /** A binding made in the left operand is still visible in the right one, because one table is shared by the whole walk. */
  lemma BindingOutlivesLetExample()
    ensures Calculate(Some("add(let(a, " + "1, a), a)")) == Success(2)
  {
    BindingOutlivesLetTokens();
    BindingOutlivesLetWellFormed();
    BindingOutlivesLetSerialize();
    BindingOutlivesLetValue();
    CalculateOfTreeText("add(let(a, " + "1, a), a)", Root(Add(Let("a", Int(1), Var("a")), Var("a"))));
  }

  lemma ShadowingText0()
    ensures Separated(["let", "a", "let"], ["(", ", ", "("])
    ensures Interleave(["let", "a", "let"], ["(", ", ", "("]) == "let(a, let("
  {
  }

  lemma ShadowingText1()
    ensures Separated(["b", "10", "add"], [", ", ", ", "("])
    ensures Interleave(["b", "10", "add"], [", ", ", ", "("]) == "b, 10, add("
  {
  }

  lemma ShadowingText2()
    ensures Separated(["b", "b", "let"], [", ", ")), ", "("])
    ensures Interleave(["b", "b", "let"], [", ", ")), ", "("]) == "b, b)), let("
  {
  }

  lemma ShadowingText3()
    ensures Separated(["b", "20", "add"], [", ", ", ", "("])
    ensures Interleave(["b", "20", "add"], [", ", ", ", "("]) == "b, 20, add("
  {
  }

  lemma ShadowingText4()
    ensures Separated(["a", "b"], [", ", "))"])
    ensures Interleave(["a", "b"], [", ", "))"]) == "a, b))"
  {
  }

  lemma ShadowingWords()
    ensures ["let", "a", "let"] + ["b", "10", "add"] + ["b", "b", "let"] + ["b", "20", "add"] + ["a", "b"] == ["let", "a", "let", "b", "10", "add", "b", "b", "let", "b", "20", "add", "a", "b"]
  {
  }

  lemma ShadowingTokens()
    ensures Tokenize(Some("let(a, let(" + "b, 10, add(" + "b, b)), let(" + "b, 20, add(" + "a, b))")) == ["let", "a", "let", "b", "10", "add", "b", "b", "let", "b", "20", "add", "a", "b"]
  {
    var w0, d0 := ["let", "a", "let"], ["(", ", ", "("];
    ShadowingText0();
    var w1, d1 := ["b", "10", "add"], [", ", ", ", "("];
    ShadowingText1();
    var w2, d2 := ["b", "b", "let"], [", ", ")), ", "("];
    ShadowingText2();
    var w3, d3 := ["b", "20", "add"], [", ", ", ", "("];
    ShadowingText3();
    var w4, d4 := ["a", "b"], [", ", "))"];
    ShadowingText4();
    Chain(w0, d0, w1, d1);
    Chain(w0 + w1, d0 + d1, w2, d2);
    Chain(w0 + w1 + w2, d0 + d1 + d2, w3, d3);
    Chain(w0 + w1 + w2 + w3, d0 + d1 + d2 + d3, w4, d4);
    TextTokens("let(a, let(" + "b, 10, add(" + "b, b)), let(" + "b, 20, add(" + "a, b))", w0 + w1 + w2 + w3 + w4, d0 + d1 + d2 + d3 + d4);
    ShadowingWords();
  }

  lemma ShadowingPieces1()
    ensures [OP_ADD] + (["b"] + ["b"]) == ["add", "b", "b"]
  {
  }

  lemma ShadowingSerialize1()
    ensures Serialize(Add(Var("b"), Var("b"))) == ["add", "b", "b"]
  {
    SerializeBinary(OP_ADD, Var("b"), Var("b"));
    ShadowingPieces1();
  }

  lemma ShadowingPieces2()
    ensures [OP_LET] + (["b"] + (["10"] + ["add", "b", "b"])) == ["let", "b", "10", "add", "b", "b"]
  {
  }

  lemma ShadowingSerialize2()
    ensures Serialize(Let("b", Int(10), Add(Var("b"), Var("b")))) == ["let", "b", "10", "add", "b", "b"]
  {
    assert ShowInt(10) == "10";
    ShadowingSerialize1();
    SerializeLetOf(Var("b"), Int(10), Add(Var("b"), Var("b")));
    ShadowingPieces2();
  }

  lemma ShadowingPieces3()
    ensures [OP_ADD] + (["a"] + ["b"]) == ["add", "a", "b"]
  {
  }

  lemma ShadowingSerialize3()
    ensures Serialize(Add(Var("a"), Var("b"))) == ["add", "a", "b"]
  {
    SerializeBinary(OP_ADD, Var("a"), Var("b"));
    ShadowingPieces3();
  }

  lemma ShadowingPieces4()
    ensures [OP_LET] + (["b"] + (["20"] + ["add", "a", "b"])) == ["let", "b", "20", "add", "a", "b"]
  {
  }

  lemma ShadowingSerialize4()
    ensures Serialize(Let("b", Int(20), Add(Var("a"), Var("b")))) == ["let", "b", "20", "add", "a", "b"]
  {
    assert ShowInt(20) == "20";
    ShadowingSerialize3();
    SerializeLetOf(Var("b"), Int(20), Add(Var("a"), Var("b")));
    ShadowingPieces4();
  }

  lemma ShadowingPieces5()
    ensures [OP_LET] + (["a"] + (["let", "b", "10", "add", "b", "b"] + ["let", "b", "20", "add", "a", "b"])) == ["let", "a", "let", "b", "10", "add", "b", "b", "let", "b", "20", "add", "a", "b"]
  {
  }

  lemma ShadowingSerialize5()
    ensures Serialize(Let("a", Let("b", Int(10), Add(Var("b"), Var("b"))), Let("b", Int(20), Add(Var("a"), Var("b"))))) == ["let", "a", "let", "b", "10", "add", "b", "b", "let", "b", "20", "add", "a", "b"]
  {
    ShadowingSerialize2();
    ShadowingSerialize4();
    SerializeLetOf(Var("a"), Let("b", Int(10), Add(Var("b"), Var("b"))), Let("b", Int(20), Add(Var("a"), Var("b"))));
    ShadowingPieces5();
  }

  lemma ShadowingWellFormed()
    ensures WellFormed(Root(Let("a", Let("b", Int(10), Add(Var("b"), Var("b"))), Let("b", Int(20), Add(Var("a"), Var("b"))))))
  {
    WellFormedBinary(OP_ADD, Var("b"), Var("b"));
    WellFormedLetOf(Var("b"), Int(10), Add(Var("b"), Var("b")));
    WellFormedBinary(OP_ADD, Var("a"), Var("b"));
    WellFormedLetOf(Var("b"), Int(20), Add(Var("a"), Var("b")));
    WellFormedLetOf(Var("a"), Let("b", Int(10), Add(Var("b"), Var("b"))), Let("b", Int(20), Add(Var("a"), Var("b"))));
    WellFormedRoot(Let("a", Let("b", Int(10), Add(Var("b"), Var("b"))), Let("b", Int(20), Add(Var("a"), Var("b")))));
  }

  lemma ShadowingSerialize()
    ensures Serialize(Root(Let("a", Let("b", Int(10), Add(Var("b"), Var("b"))), Let("b", Int(20), Add(Var("a"), Var("b")))))) == ["let", "a", "let", "b", "10", "add", "b", "b", "let", "b", "20", "add", "a", "b"]
  {
    ShadowingSerialize5();
    SerializeRoot(Let("a", Let("b", Int(10), Add(Var("b"), Var("b"))), Let("b", Int(20), Add(Var("a"), Var("b")))));
  }

  lemma ShadowingValue()
    ensures EvalToInt(Root(Let("a", Let("b", Int(10), Add(Var("b"), Var("b"))), Let("b", Int(20), Add(Var("a"), Var("b")))))) == Success(40)
  {
  }

  /** A let in the value operand binds its own name for good; a later let of the same name rebinds it. The closing parenthesis the text lacks is not needed. */
  lemma ShadowingExample()
    ensures Calculate(Some("let(a, let(" + "b, 10, add(" + "b, b)), let(" + "b, 20, add(" + "a, b))")) == Success(40)
  {
    ShadowingTokens();
    ShadowingWellFormed();
    ShadowingSerialize();
    ShadowingValue();
    CalculateOfTreeText("let(a, let(" + "b, 10, add(" + "b, b)), let(" + "b, 20, add(" + "a, b))", Root(Let("a", Let("b", Int(10), Add(Var("b"), Var("b"))), Let("b", Int(20), Add(Var("a"), Var("b"))))));
  }

  lemma LetOfOperationText0()
    ensures Separated(["let", "add", "2"], ["(", "(", ","])
    ensures Interleave(["let", "add", "2"], ["(", "(", ","]) == "let(add(2,"
  {
  }

  lemma LetOfOperationText1()
    ensures Separated(["3", "5", "0"], ["), ", ", ", ")"])
    ensures Interleave(["3", "5", "0"], ["), ", ", ", ")"]) == "3), 5, 0)"
  {
  }

  lemma LetOfOperationWords()
    ensures ["let", "add", "2"] + ["3", "5", "0"] == ["let", "add", "2", "3", "5", "0"]
  {
  }

  lemma LetOfOperationTokens()
    ensures Tokenize(Some("let(add(2," + "3), 5, 0)")) == ["let", "add", "2", "3", "5", "0"]
  {
    var w0, d0 := ["let", "add", "2"], ["(", "(", ","];
    LetOfOperationText0();
    var w1, d1 := ["3", "5", "0"], ["), ", ", ", ")"];
    LetOfOperationText1();
    Chain(w0, d0, w1, d1);
    TextTokens("let(add(2," + "3), 5, 0)", w0 + w1, d0 + d1);
    LetOfOperationWords();
  }

  lemma LetOfOperationPieces1()
    ensures [OP_ADD] + (["2"] + ["3"]) == ["add", "2", "3"]
  {
  }

  lemma LetOfOperationSerialize1()
    ensures Serialize(Add(Int(2), Int(3))) == ["add", "2", "3"]
  {
    SerializeBinary(OP_ADD, Int(2), Int(3));
    LetOfOperationPieces1();
  }

  lemma LetOfOperationPieces2()
    ensures [OP_LET] + (["add", "2", "3"] + (["5"] + ["0"])) == ["let", "add", "2", "3", "5", "0"]
  {
  }

  lemma LetOfOperationSerialize2()
    ensures Serialize(OpNode(OP_LET, [Add(Int(2), Int(3)), Int(5), Int(0)], true)) == ["let", "add", "2", "3", "5", "0"]
  {
    LetOfOperationSerialize1();
    SerializeLetOf(Add(Int(2), Int(3)), Int(5), Int(0));
    LetOfOperationPieces2();
  }

  lemma LetOfOperationWellFormed()
    ensures WellFormed(Root(OpNode(OP_LET, [Add(Int(2), Int(3)), Int(5), Int(0)], true)))
  {
    WellFormedBinary(OP_ADD, Int(2), Int(3));
    WellFormedLetOf(Add(Int(2), Int(3)), Int(5), Int(0));
    WellFormedRoot(OpNode(OP_LET, [Add(Int(2), Int(3)), Int(5), Int(0)], true));
  }

  lemma LetOfOperationSerialize()
    ensures Serialize(Root(OpNode(OP_LET, [Add(Int(2), Int(3)), Int(5), Int(0)], true))) == ["let", "add", "2", "3", "5", "0"]
  {
    LetOfOperationSerialize2();
    SerializeRoot(OpNode(OP_LET, [Add(Int(2), Int(3)), Int(5), Int(0)], true));
  }

  lemma LetOfOperationValue()
    ensures EvalToInt(Root(OpNode(OP_LET, [Add(Int(2), Int(3)), Int(5), Int(0)], true))) == Failure(FirstLetOperandShouldBeVariable)
  {
  }

  /** The first operand of a let must be a variable; the parser accepts any operand there and evaluation rejects it. */
  lemma LetOfOperationExample()
    ensures Calculate(Some("let(add(2," + "3), 5, 0)")) == Failure(FirstLetOperandShouldBeVariable)
  {
    LetOfOperationTokens();
    LetOfOperationWellFormed();
    LetOfOperationSerialize();
    LetOfOperationValue();
    CalculateOfTreeText("let(add(2," + "3), 5, 0)", Root(OpNode(OP_LET, [Add(Int(2), Int(3)), Int(5), Int(0)], true)));
  }

  lemma SelfReferenceText0()
    ensures Separated(["let", "a", "add"], ["(", ", ", "("])
    ensures Interleave(["let", "a", "add"], ["(", ", ", "("]) == "let(a, add("
  {
  }

  lemma SelfReferenceText1()
    ensures Separated(["a", "6", "5"], [",", "), ", ")"])
    ensures Interleave(["a", "6", "5"], [",", "), ", ")"]) == "a,6), 5)"
  {
  }

  lemma SelfReferenceWords()
    ensures ["let", "a", "add"] + ["a", "6", "5"] == ["let", "a", "add", "a", "6", "5"]
  {
  }

  lemma SelfReferenceTokens()
    ensures Tokenize(Some("let(a, add(" + "a,6), 5)")) == ["let", "a", "add", "a", "6", "5"]
  {
    var w0, d0 := ["let", "a", "add"], ["(", ", ", "("];
    SelfReferenceText0();
    var w1, d1 := ["a", "6", "5"], [",", "), ", ")"];
    SelfReferenceText1();
    Chain(w0, d0, w1, d1);
    TextTokens("let(a, add(" + "a,6), 5)", w0 + w1, d0 + d1);
    SelfReferenceWords();
  }

  lemma SelfReferencePieces1()
    ensures [OP_ADD] + (["a"] + ["6"]) == ["add", "a", "6"]
  {
  }

  lemma SelfReferenceSerialize1()
    ensures Serialize(Add(Var("a"), Int(6))) == ["add", "a", "6"]
  {
    SerializeBinary(OP_ADD, Var("a"), Int(6));
    SelfReferencePieces1();
  }

  lemma SelfReferencePieces2()
    ensures [OP_LET] + (["a"] + (["add", "a", "6"] + ["5"])) == ["let", "a", "add", "a", "6", "5"]
  {
  }

  lemma SelfReferenceSerialize2()
    ensures Serialize(Let("a", Add(Var("a"), Int(6)), Int(5))) == ["let", "a", "add", "a", "6", "5"]
  {
    SelfReferenceSerialize1();
    SerializeLetOf(Var("a"), Add(Var("a"), Int(6)), Int(5));
    SelfReferencePieces2();
  }

  lemma SelfReferenceWellFormed()
    ensures WellFormed(Root(Let("a", Add(Var("a"), Int(6)), Int(5))))
  {
    WellFormedBinary(OP_ADD, Var("a"), Int(6));
    WellFormedLetOf(Var("a"), Add(Var("a"), Int(6)), Int(5));
    WellFormedRoot(Let("a", Add(Var("a"), Int(6)), Int(5)));
  }

  lemma SelfReferenceSerialize()
    ensures Serialize(Root(Let("a", Add(Var("a"), Int(6)), Int(5)))) == ["let", "a", "add", "a", "6", "5"]
  {
    SelfReferenceSerialize2();
    SerializeRoot(Let("a", Add(Var("a"), Int(6)), Int(5)));
  }

  lemma SelfReferenceValue()
    ensures EvalToInt(Root(Let("a", Add(Var("a"), Int(6)), Int(5)))) == Failure(UndefinedVariable("a"))
  {
  }

  /** A let's name is not bound while its value is computed. */
  lemma SelfReferenceExample()
    ensures Calculate(Some("let(a, add(" + "a,6), 5)")) == Failure(UndefinedVariable("a"))
  {
    SelfReferenceTokens();
    SelfReferenceWellFormed();
    SelfReferenceSerialize();
    SelfReferenceValue();
    CalculateOfTreeText("let(a, add(" + "a,6), 5)", Root(Let("a", Add(Var("a"), Int(6)), Int(5))));
  }

  lemma UnboundText0()
    ensures Separated(["let", "a", "a"], ["(", ",", ","])
    ensures Interleave(["let", "a", "a"], ["(", ",", ","]) == "let(a,a,"
  {
  }

  lemma UnboundText1()
    ensures Separated(["5"], [")"])
    ensures Interleave(["5"], [")"]) == "5)"
  {
  }

  lemma UnboundWords()
    ensures ["let", "a", "a"] + ["5"] == ["let", "a", "a", "5"]
  {
  }

  lemma UnboundTokens()
    ensures Tokenize(Some("let(a,a," + "5)")) == ["let", "a", "a", "5"]
  {
    var w0, d0 := ["let", "a", "a"], ["(", ",", ","];
    UnboundText0();
    var w1, d1 := ["5"], [")"];
    UnboundText1();
    Chain(w0, d0, w1, d1);
    TextTokens("let(a,a," + "5)", w0 + w1, d0 + d1);
    UnboundWords();
  }

  lemma UnboundPieces1()
    ensures [OP_LET] + (["a"] + (["a"] + ["5"])) == ["let", "a", "a", "5"]
  {
  }

  lemma UnboundSerialize1()
    ensures Serialize(Let("a", Var("a"), Int(5))) == ["let", "a", "a", "5"]
  {
    SerializeLetOf(Var("a"), Var("a"), Int(5));
    UnboundPieces1();
  }

  lemma UnboundWellFormed()
    ensures WellFormed(Root(Let("a", Var("a"), Int(5))))
  {
    WellFormedLetOf(Var("a"), Var("a"), Int(5));
    WellFormedRoot(Let("a", Var("a"), Int(5)));
  }

  lemma UnboundSerialize()
    ensures Serialize(Root(Let("a", Var("a"), Int(5)))) == ["let", "a", "a", "5"]
  {
    UnboundSerialize1();
    SerializeRoot(Let("a", Var("a"), Int(5)));
  }

  lemma UnboundValue()
    ensures EvalToInt(Root(Let("a", Var("a"), Int(5)))) == Failure(UndefinedVariable("a"))
  {
  }

  /** A let's name is not bound while its value is computed, even when the value is that name. */
  lemma UnboundExample()
    ensures Calculate(Some("let(a,a," + "5)")) == Failure(UndefinedVariable("a"))
  {
    UnboundTokens();
    UnboundWellFormed();
    UnboundSerialize();
    UnboundValue();
    CalculateOfTreeText("let(a,a," + "5)", Root(Let("a", Var("a"), Int(5))));
  }

  // Examples that fail, and the error each reports.

  lemma LeftoverText0()
    ensures Separated(["add", "3", "4"], ["(", ",", ","])
    ensures Interleave(["add", "3", "4"], ["(", ",", ","]) == "add(3,4,"
  {
  }

  lemma LeftoverText1()
    ensures Separated(["2"], [")"])
    ensures Interleave(["2"], [")"]) == "2)"
  {
  }

  lemma LeftoverWords()
    ensures ["add", "3", "4"] + ["2"] == ["add", "3", "4", "2"]
  {
  }

  lemma LeftoverTokens()
    ensures Tokenize(Some("add(3,4," + "2)")) == ["add", "3", "4", "2"]
  {
    var w0, d0 := ["add", "3", "4"], ["(", ",", ","];
    LeftoverText0();
    var w1, d1 := ["2"], [")"];
    LeftoverText1();
    Chain(w0, d0, w1, d1);
    TextTokens("add(3,4," + "2)", w0 + w1, d0 + d1);
    LeftoverWords();
  }

  lemma LeftoverPieces1()
    ensures [OP_ADD] + (["3"] + ["4"]) == ["add", "3", "4"]
  {
  }

  lemma LeftoverSerialize1()
    ensures Serialize(Add(Int(3), Int(4))) == ["add", "3", "4"]
  {
    SerializeBinary(OP_ADD, Int(3), Int(4));
    LeftoverPieces1();
  }

  lemma LeftoverWellFormed()
    ensures WellFormed(Add(Int(3), Int(4)))
  {
    WellFormedBinary(OP_ADD, Int(3), Int(4));
  }

  lemma LeftoverSerialize()
    ensures Serialize(Add(Int(3), Int(4))) + ["2"] == ["add", "3", "4", "2"]
  {
    LeftoverSerialize1();
  }

  /** A third operand of `add` is left over once the addition is complete. */
  lemma LeftoverExample()
    ensures Calculate(Some("add(3,4," + "2)")) == Failure(BadExpression)
  {
    LeftoverTokens();
    LeftoverWellFormed();
    LeftoverSerialize();
    CalculateWithLeftovers("add(3,4," + "2)", Add(Int(3), Int(4)), ["2"]);
  }

  lemma LetThenVariableText0()
    ensures Separated(["let", "a", "a"], ["(", ",", ","])
    ensures Interleave(["let", "a", "a"], ["(", ",", ","]) == "let(a,a,"
  {
  }

  lemma LetThenVariableText1()
    ensures Separated(["5", "b"], [") ", ""])
    ensures Interleave(["5", "b"], [") ", ""]) == "5) b"
  {
  }

  lemma LetThenVariableWords()
    ensures ["let", "a", "a"] + ["5", "b"] == ["let", "a", "a", "5", "b"]
  {
  }

  lemma LetThenVariableTokens()
    ensures Tokenize(Some("let(a,a," + "5) b")) == ["let", "a", "a", "5", "b"]
  {
    var w0, d0 := ["let", "a", "a"], ["(", ",", ","];
    LetThenVariableText0();
    var w1, d1 := ["5", "b"], [") ", ""];
    LetThenVariableText1();
    Chain(w0, d0, w1, d1);
    TextTokens("let(a,a," + "5) b", w0 + w1, d0 + d1);
    LetThenVariableWords();
  }

  lemma LetThenVariablePieces1()
    ensures [OP_LET] + (["a"] + (["a"] + ["5"])) == ["let", "a", "a", "5"]
  {
  }

  lemma LetThenVariableSerialize1()
    ensures Serialize(Let("a", Var("a"), Int(5))) == ["let", "a", "a", "5"]
  {
    SerializeLetOf(Var("a"), Var("a"), Int(5));
    LetThenVariablePieces1();
  }

  lemma LetThenVariableWellFormed()
    ensures WellFormed(Let("a", Var("a"), Int(5)))
  {
    WellFormedLetOf(Var("a"), Var("a"), Int(5));
  }

  lemma LetThenVariableSerialize()
    ensures Serialize(Let("a", Var("a"), Int(5))) + ["b"] == ["let", "a", "a", "5", "b"]
  {
    LetThenVariableSerialize1();
  }

  /** A token after a complete expression is rejected before evaluation could report the unbound variable. */
  lemma LetThenVariableExample()
    ensures Calculate(Some("let(a,a," + "5) b")) == Failure(BadExpression)
  {
    LetThenVariableTokens();
    LetThenVariableWellFormed();
    LetThenVariableSerialize();
    CalculateWithLeftovers("let(a,a," + "5) b", Let("a", Var("a"), Int(5)), ["b"]);
  }

  lemma VariableFirstText0()
    ensures Separated(["b", "let", "a"], [" ", "(", ","])
    ensures Interleave(["b", "let", "a"], [" ", "(", ","]) == "b let(a,"
  {
  }

  lemma VariableFirstText1()
    ensures Separated(["a", "5", "c"], [",", ") ", ""])
    ensures Interleave(["a", "5", "c"], [",", ") ", ""]) == "a,5) c"
  {
  }

  lemma VariableFirstWords()
    ensures ["b", "let", "a"] + ["a", "5", "c"] == ["b", "let", "a", "a", "5", "c"]
  {
  }

  lemma VariableFirstTokens()
    ensures Tokenize(Some("b let(a," + "a,5) c")) == ["b", "let", "a", "a", "5", "c"]
  {
    var w0, d0 := ["b", "let", "a"], [" ", "(", ","];
    VariableFirstText0();
    var w1, d1 := ["a", "5", "c"], [",", ") ", ""];
    VariableFirstText1();
    Chain(w0, d0, w1, d1);
    TextTokens("b let(a," + "a,5) c", w0 + w1, d0 + d1);
    VariableFirstWords();
  }

  /** A variable name where the whole expression should start is rejected
      at once. */
  lemma VariableFirstExample()
    ensures Calculate(Some("b let(a," + "a,5) c")) == Failure(WrongVariablePosition)
  {
    VariableFirstTokens();
    assert ["b", "let", "a", "a", "5", "c"] == ["b"] + ["let", "a", "a", "5", "c"];
    ClassifyRoot("b", ["let", "a", "a", "5", "c"]);
    CalculateOfParseError("b let(a," + "a,5) c");
  }

  lemma UnknownLiteralTokens()
    ensures Tokenize(Some("[!")) == ["[!"]
  {
    assert Interleave(["[!"], [""]) == "[!";
    TextTokens("[!", ["[!"], [""]);
  }

  /** A token that is neither a keyword, a name nor an int is an unknown literal. */
  lemma UnknownLiteralExample()
    ensures Calculate(Some("[!")) == Failure(UnknownLiteralType)
  {
    UnknownLiteralTokens();
    ClassifyOperand("[!", []);
    assert ["[!"] + [] == ["[!"];
    RootIsOperandWithoutLeftovers(["[!"]);
    CalculateOfParseError("[!");
  }

  /** Input that starts with a delimiter yields an empty first token, which
      is an unknown literal, however well formed the rest is. */
  lemma LeadingDelimiterExample()
    ensures Calculate(Some(" add(1,2)")) == Failure(UnknownLiteralType)
  {
    var s := " add(1,2)";
    assert !IsBlank(s) && !AllDelimiters(s) by { assert s[1] == 'a'; }
    var ts := Tokenize(Some(s));
    FirstTokenEmptyIff(s);
    assert ts == [""] + ts[1..];
    ClassifyOperand("", ts[1..]);
    RootIsOperandWithoutLeftovers(ts);
    CalculateOfParseError(s);
  }

  /** Nothing to calculate: no text, empty text, blanks, or delimiters only. */
  lemma NothingExamples()
    ensures Calculate(None) == Failure(BadExpression)
    ensures Calculate(Some("")) == Failure(BadExpression)
    ensures Calculate(Some("  \t")) == Failure(BadExpression)
    ensures Calculate(Some(",() ")) == Failure(BadExpression)
  {
    assert IsBlank("  \t");
    assert AllDelimiters(",() ");
  }

  /** A product beyond the int range is cut to the largest int. */
  lemma SaturationExample()
    ensures EvalToInt(Root(Mult(Int(INT_MAX), Int(2)))) == Success(INT_MAX)
  {
  }

  lemma MissingOperandTokens()
    ensures Tokenize(Some("add(1")) == ["add", "1"]
  {
    assert Separated(["add", "1"], ["(", ""]);
    assert Interleave(["add", "1"], ["(", ""]) == "add(1";
    TextTokens("add(1", ["add", "1"], ["(", ""]);
  }

  /** The queue runs out where the second operand of `add` should start:
      the error inside the operand is the error of the whole text. */
  lemma MissingOperandExample()
    ensures Calculate(Some("add(1")) == Failure(BadExpression)
  {
    var ts := ["add", "1"];
    MissingOperandTokens();
    ShowIntClassifies(1);
    assert ShowInt(1) == "1";
    ClassifyOperand("1", []);
    assert ts[1..] == ["1"] + [];
    var one := IntLeaf(1, true);
    NextOperandErrorAborts(OpNode(OP_ADD, [one], false), [], 2);
    OperandLoopErrorAborts(NewNode(), ts, one, []);
    CalculateOfParseError("add(1");
  }

  lemma NestedUnknownLiteralTokens()
    ensures Tokenize(Some("add(1, [!)")) == ["add", "1", "[!"]
  {
    assert Separated(["add", "1", "[!"], ["(", ", ", ")"]);
    assert Interleave(["add", "1", "[!"], ["(", ", ", ")"]) == "add(1, [!)";
    TextTokens("add(1, [!)", ["add", "1", "[!"], ["(", ", ", ")"]);
  }

  lemma NestedUnknownLiteralOperands()
    ensures MakeTree(ChildNode(), ["1", "[!"]) == Success((IntLeaf(1, true), ["[!"]))
    ensures MakeTree(ChildNode(), ["[!"]) == Failure(UnknownLiteralType)
  {
    ShowIntClassifies(1);
    assert ShowInt(1) == "1";
    ClassifyOperand("1", ["[!"]);
    assert ["1"] + ["[!"] == ["1", "[!"];
    assert "[!"[0] == '[' && !IsDigits("[!");
    assert !IsKeyword("[!") && !IsLiteral("[!") && !IsNumeric("[!");
    ClassifyOperand("[!", []);
    assert ["[!"] + [] == ["[!"];
  }

  lemma NestedUnknownLiteralParse()
    ensures MakeTree(NewNode(), ["add", "1", "[!"]) == Failure(UnknownLiteralType)
  {
    var ts := ["add", "1", "[!"];
    NestedUnknownLiteralOperands();
    assert ts[1..] == ["1", "[!"];
    var one := IntLeaf(1, true);
    NextOperandErrorAborts(OpNode(OP_ADD, [one], false), ["[!"], 2);
    OperandLoopErrorAborts(NewNode(), ts, one, ["[!"]);
  }

  /** An unknown literal as the second operand makes the whole text fail. */
  lemma NestedUnknownLiteralExample()
    ensures Calculate(Some("add(1, [!)")) == Failure(UnknownLiteralType)
  {
    NestedUnknownLiteralTokens();
    NestedUnknownLiteralParse();
    CalculateOfParseError("add(1, [!)");
  }
}
