/** The tokens and the trimming, said with the characters themselves. */
module LexByText {
  import opened SqlText
  import opened CommentScanner
  import opened StatementSplitter

  /** Blank, horizontal and vertical tab, newline, form feed and carriage return. */
  predicate BlankChar(c: char) { c as int in {32, 9, 10, 11, 12, 13} }

  predicate Letter(c: char) { 65 <= c as int <= 90 || 97 <= c as int <= 122 }

  /** Letters, digits, underscore and dollar sign. */
  predicate NameChar(c: char) { Letter(c) || 48 <= c as int <= 57 || c as int == 95 || c as int == 36 }

  lemma CharacterClasses(c: char)
    ensures IsSpace(c) <==> BlankChar(c)
    ensures IsAlpha(c) <==> Letter(c)
    ensures IsWord(c) <==> NameChar(c)
  {
  }

  // ---- Comments ----

  lemma {:induction false} LineOf(body: string, x: string)
    requires '\n' !in body
    ensures LineLength(body + ("\n" + x)) == |body| + 1
  {
    var s := body + ("\n" + x);
    if body != [] {
      assert s[1..] == body[1..] + ("\n" + x);
      LineOf(body[1..], x);
    }
  }

  lemma {:induction false} OpenLineOf(body: string)
    requires '\n' !in body
    ensures LineLength(body) == |body|
  {
    if body != [] {
      OpenLineOf(body[1..]);
    }
  }

  /** A hash sign, or two dashes, begin a comment that goes to the end of the line, newline included. */
  lemma LineCommentToken(start: string, body: string, x: string)
    requires (start == "#" || start == "--") && '\n' !in body
    ensures Lex(start + body + "\n" + x) == [Comment(start + body + "\n")] + Lex(x)
    ensures Lex(start + body) == [Comment(start + body)]
  {
    hide LineLength, BlockLength, LiteralRest;
    var text, s := start + body, start + body + "\n" + x;
    assert s == text + ("\n" + x);
    LineOf(text, x);
    OpenLineOf(text);
    assert s[..|text| + 1] == text + "\n" && s[|text| + 1..] == x;
    assert text[..|text|] == text && text[|text|..] == [];
    assert Lex([]) == [];
  }

  /** No star-slash in the text. */
  ghost predicate NoEnd(body: string) { forall i :: 0 <= i < |body| - 1 ==> !(body[i] == '*' && body[i + 1] == '/') }

  lemma {:induction false} BlockOf(body: string, x: string)
    requires NoEnd(body)
    ensures BlockLength(body + ("*/" + x)) == |body| + 2
  {
    var s := body + ("*/" + x);
    if body != [] {
      assert s[1..] == body[1..] + ("*/" + x);
      assert s[0] == body[0] && s[1] == if |body| > 1 then body[1] else '*';
      assert NoEnd(body[1..]);
      BlockOf(body[1..], x);
    }
  }

  lemma {:induction false} OpenBlockOf(body: string)
    requires NoEnd(body)
    ensures BlockLength(body) == |body|
  {
    if |body| >= 2 {
      assert NoEnd(body[1..]);
      OpenBlockOf(body[1..]);
    }
  }

  /** Slash-star begins a comment that goes to the first star-slash, or to the end. */
  lemma BlockCommentToken(body: string, x: string)
    requires NoEnd(body)
    ensures Lex("/*" + body + "*/" + x) == [Comment("/*" + body + "*/")] + Lex(x)
    ensures Lex("/*" + body) == [Comment("/*" + body)]
  {
    hide LineLength, BlockLength, LiteralRest;
    var text, s := "/*" + body, "/*" + body + "*/" + x;
    assert s[2..] == body + ("*/" + x) && text[2..] == body;
    BlockOf(body, x);
    OpenBlockOf(body);
    var n := |body| + 4;
    assert s[..n] == text + "*/" && s[n..] == x;
    assert text[..|text|] == text && text[|text|..] == [];
    assert Lex([]) == [];
  }

  // ---- Literals ----

  /** What stands between the quotes: doubled quotes, backslash pairs except in backticks, and other characters. */
  ghost predicate LiteralBody(b: string, q: char)
    decreases |b|
  {
    if b == [] then true
    else if b[0] == '\\' && q != '`' then |b| >= 2 && LiteralBody(b[2..], q)
    else if b[0] == q then |b| >= 2 && b[1] == q && LiteralBody(b[2..], q)
    else LiteralBody(b[1..], q)
  }

  predicate QuoteSign(q: char) { q == '\'' || q == '"' || q == '`' }

  /** How long the first element of a literal's body is. */
  function ElementLength(b: string, q: char): (n: nat)
    requires b != []
    ensures n > 0
  {
    if (b[0] == '\\' && q != '`') || b[0] == q then 2 else 1
  }

  lemma LiteralStepOf(b: string, q: char, x: string)
    requires QuoteSign(q) && LiteralBody(b, q) && b != []
    ensures Opened(q) != Normal && ElementLength(b, q) <= |b|
    ensures LiteralStep(b + ([q] + x), Opened(q)) == (ElementLength(b, q), false)
    ensures LiteralBody(b[ElementLength(b, q)..], q)
  {
    var s := b + ([q] + x);
    assert s[0] == b[0] && (|b| >= 2 ==> s[1] == b[1]);
  }

  lemma LiteralEndOf(q: char, x: string)
    requires QuoteSign(q) && (x != [] ==> x[0] != q)
    ensures Opened(q) != Normal && LiteralStep([q] + x, Opened(q)) == (1, true)
  {
  }

  lemma {:induction false} LiteralRestOf(b: string, q: char, x: string)
    requires QuoteSign(q) && LiteralBody(b, q) && (x != [] ==> x[0] != q)
    ensures Opened(q) != Normal && LiteralRest(b + ([q] + x), Opened(q)) == (|b| + 1, true)
    decreases |b|
  {
    hide LiteralStep, LiteralRest, LiteralBody, ElementLength, QuoteSign, Opened;
    var s := b + ([q] + x);
    if b == [] {
      assert s == [q] + x;
      LiteralEndOf(q, x);
      LiteralRestStep(s, Opened(q), 1, true);
    } else {
      LiteralStepOf(b, q, x);
      var k := ElementLength(b, q);
      assert s[k..] == b[k..] + ([q] + x);
      LiteralRestOf(b[k..], q, x);
      LiteralRestStep(s, Opened(q), k, false);
    }
  }

  lemma LiteralRestStep(s: string, q: Quote, k: nat, closed: bool)
    requires q != Normal && s != [] && LiteralStep(s, q) == (k, closed)
    ensures LiteralRest(s, q) == if closed then (k, true) else (k + LiteralRest(s[k..], q).0, LiteralRest(s[k..], q).1)
  {
  }

  /** A quoted text is one literal up to its closing quote. */
  lemma LiteralTokenOf(b: string, q: char, x: string)
    requires QuoteSign(q) && LiteralBody(b, q) && (x != [] ==> x[0] != q)
    ensures Lex([q] + b + [q] + x) == [Literal([q] + b + [q])] + Lex(x)
  {
    hide LineLength, BlockLength, LiteralRest, LiteralBody, Lex;
    var s := [q] + b + [q] + x;
    assert s[1..] == b + ([q] + x);
    LiteralRestOf(b, q, x);
    var n := |b| + 2;
    assert s[..n] == [q] + b + [q] && s[n..] == x;
    LexLiteral(s);
  }

  // ---- Code ----

  /** Every other character is code. */
  lemma CodeToken(c: char, x: string)
    requires !QuoteSign(c) && c != '#' && !(c == '-' && x != [] && x[0] == '-') && !(c == '/' && x != [] && x[0] == '*')
    ensures Lex([c] + x) == [Code(c)] + Lex(x)
  {
    hide LineLength, BlockLength, LiteralRest;
    assert ([c] + x)[1..] == x;
  }

  // ---- Trimming ----

  ghost predicate AllBlanks(s: string) { forall i :: 0 <= i < |s| ==> BlankChar(s[i]) }

  lemma AllSpaces(s: string)
    requires AllBlanks(s)
    ensures forall i :: 0 <= i < |s| ==> IsSpace(s[i])
  {
    forall i | 0 <= i < |s| ensures IsSpace(s[i]) {
      CharacterClasses(s[i]);
    }
  }

  lemma TrimLeftOf(a: string, e: string)
    requires AllBlanks(a) && (e != [] ==> !BlankChar(e[0]))
    ensures TrimLeft(a + e) == e
  {
    hide TrimLeft, IsSpace;
    AllSpaces(a);
    if e != [] {
      CharacterClasses(e[0]);
    }
    TrimLeftAt(a + e, |a|);
  }

  lemma TrimRightOf(e: string, b: string)
    requires AllBlanks(b) && (e != [] ==> !BlankChar(e[|e| - 1]))
    ensures TrimRight(e + b) == e
  {
    hide TrimRight, IsSpace;
    AllSpaces(b);
    if e != [] {
      CharacterClasses(e[|e| - 1]);
    }
    TrimRightAt(e + b, |e|);
  }

  /** Trimming takes off the blanks around and nothing else. */
  lemma TrimTakesBlanks(a: string, e: string, b: string)
    requires AllBlanks(a) && AllBlanks(b) && (e != [] ==> !BlankChar(e[0]) && !BlankChar(e[|e| - 1]))
    ensures Trim(a + e + b) == e
  {
    hide TrimLeft, TrimRight, BlankChar;
    if e == [] {
      assert a + e + b == a + b + [];
      assert AllBlanks(a + b);
      TrimLeftOf(a + b, []);
      assert e + "" == e;
      TrimRightOf(e, "");
    } else {
      assert a + e + b == a + (e + b) && (e + b)[0] == e[0];
      TrimLeftOf(a, e + b);
      TrimRightOf(e, b);
    }
  }
}
