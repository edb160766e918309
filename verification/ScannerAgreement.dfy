/**
 The comment scanner looks ahead for doubled quotes; the splitter and the WITH
 scanner close and reopen instead.  On stripped text they see the same literals.
*/
module ScannerAgreement {
  import opened Options
  import opened SqlText
  import opened CommentScanner
  import opened StatementSplitter
  import opened QueryClassifier

  // ---- Splitting ----

  /** One element of a literal, closing quote or not, stays in its piece. */
  lemma PiecesOverElement(s: string, q: Quote, r: string)
    requires q != Normal && s != []
    requires !LiteralStep(s, q).1 && Escapes(s[0], q) && |s| == 1 ==> r == []
    ensures var (k, closed) := LiteralStep(s, q);
            Pieces(s[..k] + r, q) == Prepend(s[..k], Pieces(r, if closed then Normal else q))
  {
    hide Pieces, Prepend;
    var (k, closed) := LiteralStep(s, q);
    var t := s[..k] + r;
    PiecesStep(t, q);
    var (j, q') := SimpleMove(t, q);
    if k == 2 && !Escapes(s[0], q) {
      var t1 := t[1..];
      assert t1[0] == QuoteChar(q) && t1[1..] == r;
      PiecesStep(t1, Normal);
      PrependTwice(t[..1], t1[..1], Pieces(r, q));
      assert t[..1] + t1[..1] == s[..2];
    } else {
      assert t[..k] == s[..k] && t[k..] == r;
    }
  }

  /** A closed literal stays in its piece, and what follows it is read unquoted. */
  lemma {:induction false} PiecesOverLiteral(s: string, q: Quote, r: string)
    requires q != Normal && LiteralRest(s, q).1
    ensures var n := LiteralRest(s, q).0; Pieces(s[..n] + r, q) == Prepend(s[..n], Pieces(r, Normal))
    decreases |s|
  {
    hide Pieces, LiteralStep;
    var (k, closed) := LiteralStep(s, q);
    if closed {
      PiecesOverElement(s, q, r);
    } else {
      var m := LiteralRest(s[k..], q).0;
      PiecesOverLiteral(s[k..], q, r);
      OneByteLiteralIsOpen(s, q);
      PiecesOverElement(s, q, s[k..][..m] + r);
      Regroup(s, k, m, r);
      PrependTwice(s[..k], s[k..][..m], Pieces(r, Normal));
      assert s[..k] + s[k..][..m] == s[..k + m];
    }
  }

  /** An escape at the very end cannot be part of a closed literal. */
  lemma OneByteLiteralIsOpen(s: string, q: Quote)
    requires q != Normal && LiteralRest(s, q).1
    ensures |s| == 1 ==> !Escapes(s[0], q)
  {
  }

  /** An unclosed literal is one piece to the end. */
  lemma {:induction false} PiecesOverOpenLiteral(s: string, q: Quote)
    requires q != Normal && !LiteralRest(s, q).1
    ensures Pieces(s, q) == [s]
    decreases |s|
  {
    hide LiteralStep;
    if s != [] {
      hide Pieces;
      var (k, closed) := LiteralStep(s, q);
      PiecesOverOpenLiteral(s[k..], q);
      EscapeAtEnd(s, q);
      PiecesOverElement(s, q, s[k..]);
      assert s[..k] + s[k..] == s;
      assert Prepend(s[..k], [s[k..]]) == [s];
    }
  }

  lemma EscapeAtEnd(s: string, q: Quote)
    requires q != Normal && |s| >= 1
    ensures |s| == 1 ==> s[LiteralStep(s, q).0..] == []
  {
  }

  /** The tokens' text between the semicolons that are code. */
  function TokenPieces(ts: seq<Token>): (r: seq<string>)
    ensures r != []
  {
    if ts == [] then [[]]
    else if ts[0] == Code(';') then [[]] + TokenPieces(ts[1..])
    else Prepend(Shown(ts[0]), TokenPieces(ts[1..]))
  }

  lemma PiecesOverClosedToken(s: string, r: string)
    requires s != [] && Opened(s[0]) != Normal && LiteralRest(s[1..], Opened(s[0])).1
    ensures var n := 1 + LiteralRest(s[1..], Opened(s[0])).0;
            Pieces(s[..n] + r, Normal) == Prepend(s[..n], Pieces(r, Normal))
  {
    hide LiteralRest, Pieces, Prepend;
    var q := Opened(s[0]);
    var m := LiteralRest(s[1..], q).0;
    var t := s[..m + 1] + r;
    assert t[0] == s[0] && t[1..] == s[1..][..m] + r && t[..1] == s[..1];
    PiecesStep(t, Normal);
    PiecesOverLiteral(s[1..], q, r);
    PrependTwice(s[..1], s[1..][..m], Pieces(r, Normal));
    assert s[..1] + s[1..][..m] == s[..m + 1];
  }

  lemma PiecesOverOpenToken(s: string)
    requires s != [] && Opened(s[0]) != Normal && !LiteralRest(s[1..], Opened(s[0])).1
    ensures Pieces(s, Normal) == [s]
  {
    hide LiteralRest;
    PiecesOverOpenLiteral(s[1..], Opened(s[0]));
    PiecesStep(s, Normal);
    assert s[..1] + s[1..] == s;
  }

  lemma PiecesOverLiteralToken(s: string, r: string)
    requires s != [] && Opened(s[0]) != Normal
    requires var (n, closed) := LiteralRest(s[1..], Opened(s[0])); !closed ==> r == []
    ensures var n := 1 + LiteralRest(s[1..], Opened(s[0])).0;
            Pieces(s[..n] + r, Normal) == Prepend(s[..n], Pieces(r, Normal))
  {
    var (m, closed) := LiteralRest(s[1..], Opened(s[0]));
    hide LiteralRest;
    if closed {
      PiecesOverClosedToken(s, r);
    } else {
      PiecesOverOpenToken(s);
      assert s[..m + 1] == s && s + [] == s;
    }
  }

  /**
   On stripped text a semicolon separates statements exactly when it stood outside
   comments and literals in the original SQL: the raw pieces are the tokens of the
   original, shown, cut at the code semicolons.
  */
  lemma {:induction false} SplitAgreesWithTokens(s: string)
    ensures Pieces(Strip(s, Normal), Normal) == TokenPieces(Lex(s))
    decreases |s|
  {
    hide LiteralRest, StripMove, Pieces, Lex, LineCommentAt, BlockCommentAt;
    if s == [] {
      EmptyAgrees();
    } else if Opened(s[0]) != Normal {
      var n := 1 + LiteralRest(s[1..], Opened(s[0])).0;
      StripLiteralToken(s);
      LexLiteral(s);
      SplitAgreesWithTokens(s[n..]);
      assert n == |s| ==> s[n..] == [];
      PiecesOverLiteralToken(s, Strip(s[n..], Normal));
    } else {
      var t := OtherToken(s);
      var m := StripMove(s, Normal);
      var r := Strip(s[m.taken..], Normal);
      SplitAgreesWithTokens(s[m.taken..]);
      ShownIsOneChar(s, t);
      assert m.emitted == [m.emitted[0]];
      PiecesOverChar(m.emitted[0], r);
      assert Strip(s, Normal) == m.emitted + r;
      assert Lex(s)[1..] == Lex(s[m.taken..]);
      assert t == Code(';') <==> m.emitted == ";" by { OnlyCodeShowsSemicolon(s, t); }
    }
  }

  lemma EmptyAgrees()
    ensures Pieces(Strip([], Normal), Normal) == TokenPieces(Lex([]))
  {
  }

  lemma ShownIsOneChar(s: string, t: Token)
    requires s != [] && Opened(s[0]) == Normal && Shown(t) == StripMove(s, Normal).emitted
    ensures |Shown(t)| == 1 && Opened(Shown(t)[0]) == Normal
  {
  }

  lemma OnlyCodeShowsSemicolon(s: string, t: Token)
    requires s != [] && Opened(s[0]) == Normal && Lex(s) != [] && t == Lex(s)[0]
    requires Shown(t) == StripMove(s, Normal).emitted
    ensures t == Code(';') <==> Shown(t) == ";"
  {
  }

  lemma PiecesOverChar(c: char, r: string)
    requires Opened(c) == Normal
    ensures Pieces([c] + r, Normal) ==
            if c == ';' then [[]] + Pieces(r, Normal) else Prepend([c], Pieces(r, Normal))
  {
    var t := [c] + r;
    assert t[1..] == r && t[..1] == [c];
  }

  // ---- The WITH scanner ----

  lemma CteOverElement(s: string, q: Quote, r: string, depth: nat)
    requires q != Normal && s != []
    requires !LiteralStep(s, q).1 && Escapes(s[0], q) && |s| == 1 ==> r == []
    ensures var (k, closed) := LiteralStep(s, q);
            Cte(s[..k] + r, q, depth) == Cte(r, if closed then Normal else q, depth)
  {
    var (k, closed) := LiteralStep(s, q);
    var t := s[..k] + r;
    assert t[k..] == r;
    if k == 2 && !Escapes(s[0], q) {
      assert t[1..][0] == QuoteChar(q) && t[1..][1..] == r;
    }
  }

  /** The WITH scanner passes over a closed literal and goes on unquoted. */
  lemma {:induction false} CteOverLiteral(s: string, q: Quote, r: string, depth: nat)
    requires q != Normal && LiteralRest(s, q).1
    ensures Cte(s[..LiteralRest(s, q).0] + r, q, depth) == Cte(r, Normal, depth)
    decreases |s|
  {
    hide Cte, LiteralStep;
    var (k, closed) := LiteralStep(s, q);
    if closed {
      CteOverElement(s, q, r, depth);
    } else {
      var m := LiteralRest(s[k..], q).0;
      CteOverLiteral(s[k..], q, r, depth);
      OneByteLiteralIsOpen(s, q);
      CteOverElement(s, q, s[k..][..m] + r, depth);
      Regroup(s, k, m, r);
    }
  }

  /** A whole literal: an opening quote and everything to the quote that closes it. */
  predicate IsLiteral(s: string) {
    s != [] && Opened(s[0]) != Normal && LiteralRest(s[1..], Opened(s[0])) == (|s| - 1, true)
  }

  lemma CteSkipsLiteral(lit: string, b: string, depth: nat)
    requires IsLiteral(lit)
    ensures Cte(lit + b, Normal, depth) == Cte(b, Normal, depth)
  {
    CteOverLiteral(lit[1..], Opened(lit[0]), b, depth);
    var t := lit + b;
    assert lit[1..][..|lit| - 1] == lit[1..];
    assert t[1..] == lit[1..] + b;
  }

  /** The scanner has read all of `s` and stands outside quotes. */
  predicate EndsNormal(s: string, q: Quote)
    decreases |s|
  {
    if s == [] then q == Normal
    else if q != Normal && Escapes(s[0], q) then |s| > 1 && EndsNormal(s[2..], q)
    else var (k, q') := SimpleMove(s, q); EndsNormal(s[k..], q')
  }

  /** Every parenthesis opened from level `n` on is closed and every literal complete. */
  predicate Balanced(s: string, q: Quote, n: nat)
    decreases |s|
  {
    if s == [] then q == Normal && n == 0
    else if q != Normal && Escapes(s[0], q) then |s| > 1 && Balanced(s[2..], q, n)
    else if q == Normal && s[0] == '(' then Balanced(s[1..], Normal, n + 1)
    else if q == Normal && s[0] == ')' then n > 0 && Balanced(s[1..], Normal, n - 1)
    else var (k, q') := SimpleMove(s, q); Balanced(s[k..], q', n)
  }

  lemma MoveBefore(s: string, q: Quote, x: string)
    requires s != [] && (q != Normal && Escapes(s[0], q) ==> |s| > 1)
    ensures SimpleMove(s + x, q) == SimpleMove(s, q)
    ensures (s + x)[SimpleMove(s, q).0..] == s[SimpleMove(s, q).0..] + x
  {
  }

  /** Below depth zero nothing is read: a balanced text only moves the position. */
  lemma {:induction false} CteOverBalanced(s: string, q: Quote, n: nat, depth: nat, x: string)
    requires Balanced(s, q, n) && depth > 0
    ensures Cte(s + x, q, depth + n) == Cte(x, Normal, depth)
    decreases |s|
  {
    if s == [] {
      assert s + x == x;
    } else {
      var t := s + x;
      MoveBefore(s, q, x);
      assert t[1..] == s[1..] + x;
      var (k, q') := SimpleMove(s, q);
      if q == Normal && s[0] == '(' {
        CteOverBalanced(s[1..], Normal, n + 1, depth, x);
      } else if q == Normal && s[0] == ')' {
        CteOverBalanced(s[1..], Normal, n - 1, depth, x);
      } else {
        CteOverBalanced(s[k..], q', n, depth, x);
      }
    }
  }

  lemma CteSkipsGroup(body: string, b: string, depth: nat)
    requires Balanced(body, Normal, 0)
    ensures Cte("(" + body + ")" + b, Normal, depth) == Cte(b, Normal, depth)
  {
    var x := ")" + b;
    var t := "(" + body + ")" + b;
    assert t[1..] == body + x;
    CteOverBalanced(body, Normal, 0, depth + 1, x);
    assert x[1..] == b;
  }

  ghost predicate SameFromHere(x: string, y: string) {
    forall d: nat :: Cte(x, Normal, d) == Cte(y, Normal, d)
  }

  lemma {:induction false} WordBefore(s: string, x: string)
    requires x != [] && !IsWord(x[0])
    ensures WordLength(s + x) == WordLength(s)
  {
    if s == [] {
      assert s + x == x;
    } else {
      assert (s + x)[1..] == s[1..] + x;
      WordBefore(s[1..], x);
    }
  }

  lemma {:induction false} CteBehindPrefix(a: string, q: Quote, depth: nat, x: string, y: string)
    requires EndsNormal(a, q)
    requires x != [] && !IsWord(x[0]) && y != [] && !IsWord(y[0])
    requires SameFromHere(x, y)
    ensures Cte(a + x, q, depth) == Cte(a + y, q, depth)
    decreases |a|
  {
    if a == [] {
      assert a + x == x && a + y == y;
    } else {
      MoveBefore(a, q, x);
      MoveBefore(a, q, y);
      var (k, q') := SimpleMove(a, q);
      if q == Normal && Opened(a[0]) == Normal && IsAlpha(a[0]) && depth == 0 {
        var n := WordLength(a);
        WordBefore(a, x);
        WordBefore(a, y);
        assert (a + x)[..n] == a[..n] == (a + y)[..n];
        assert (a + x)[n..] == a[n..] + x && (a + y)[n..] == a[n..] + y;
        EndsNormalAfterWord(a);
        CteBehindPrefix(a[n..], Normal, 0, x, y);
      } else {
        var d := if q == Normal && a[0] == '(' then depth + 1
                 else if q == Normal && a[0] == ')' && depth > 0 then depth - 1 else depth;
        CteBehindPrefix(a[k..], q', d, x, y);
      }
    }
  }

  lemma {:induction false} EndsNormalAfterWord(a: string)
    requires EndsNormal(a, Normal)
    ensures EndsNormal(a[WordLength(a)..], Normal)
  {
    if a != [] && IsWord(a[0]) {
      EndsNormalAfterWord(a[1..]);
      assert a[1..][WordLength(a[1..])..] == a[WordLength(a)..];
    }
  }

  /** Replacing the body of a balanced group leaves the classification of a WITH statement unchanged. */
  lemma CteIgnoresGroupBody(a: string, body: string, body': string, b: string)
    requires EndsNormal(a, Normal) && Balanced(body, Normal, 0) && Balanced(body', Normal, 0)
    ensures Cte(a + ("(" + body + ")" + b), Normal, 0) == Cte(a + ("(" + body' + ")" + b), Normal, 0)
  {
    var x, y := "(" + body + ")" + b, "(" + body' + ")" + b;
    forall d: nat ensures Cte(x, Normal, d) == Cte(y, Normal, d) {
      CteSkipsGroup(body, b, d);
      CteSkipsGroup(body', b, d);
    }
    CteBehindPrefix(a, Normal, 0, x, y);
  }

  /** So does replacing a literal by any other. */
  lemma CteIgnoresLiteralText(a: string, lit: string, lit': string, b: string)
    requires EndsNormal(a, Normal) && IsLiteral(lit) && IsLiteral(lit')
    ensures Cte(a + (lit + b), Normal, 0) == Cte(a + (lit' + b), Normal, 0)
  {
    forall d: nat ensures Cte(lit + b, Normal, d) == Cte(lit' + b, Normal, d) {
      CteSkipsLiteral(lit, b, d);
      CteSkipsLiteral(lit', b, d);
    }
    assert (lit + b)[0] == lit[0] && (lit' + b)[0] == lit'[0];
    CteBehindPrefix(a, Normal, 0, lit + b, lit' + b);
  }

  // ---- The WITH scanner over whole texts ----

  /** How many code characters of one word the tokens begin with. */
  function CodeWord(ts: seq<Token>): (n: nat)
    ensures n <= |ts|
    ensures forall i :: 0 <= i < n ==> ts[i].Code?
    ensures ts != [] && ts[0].Code? && IsWord(ts[0].c) ==> n > 0
  {
    if ts != [] && ts[0].Code? && IsWord(ts[0].c) then 1 + CodeWord(ts[1..]) else 0
  }

  /** The main keyword of a WITH statement, read off its tokens: code words outside parentheses. */
  function CteTokens(ts: seq<Token>, depth: nat): QueryType
    decreases |ts|
  {
    if ts == [] then SELECT
    else if !ts[0].Code? then CteTokens(ts[1..], depth)
    else if ts[0].c == '(' then CteTokens(ts[1..], depth + 1)
    else if ts[0].c == ')' then CteTokens(ts[1..], if depth > 0 then depth - 1 else 0)
    else if depth == 0 && IsAlpha(ts[0].c) then
      var n := CodeWord(ts);
      match CteWord(TextOf(ts[..n]))
      case Some(t) => t
      case None => CteTokens(ts[n..], 0)
    else CteTokens(ts[1..], depth)
  }

  /** A word character is code, to the lexer and to the comment scanner. */
  lemma WordCharIsCode(s: string)
    requires s != [] && IsWord(s[0])
    ensures Lex(s) == [Code(s[0])] + Lex(s[1..]) && Strip(s, Normal) == [s[0]] + Strip(s[1..], Normal)
  {
  }

  lemma NoWordHere(s: string)
    requires s == [] || !IsWord(s[0])
    ensures WordLength(Strip(s, Normal)) == 0 && CodeWord(Lex(s)) == 0
  {
    hide LineLength, BlockLength, LiteralRest;
    if s != [] {
      StripHead(s, Normal);
    }
  }

  /** A word is the same in the text, in the stripped text and among the tokens. */
  lemma {:induction false} WordsAgree(s: string)
    ensures var n := WordLength(s);
            && WordLength(Strip(s, Normal)) == n && n <= |Strip(s, Normal)|
            && Strip(s, Normal)[..n] == s[..n] && Strip(s, Normal)[n..] == Strip(s[n..], Normal)
            && CodeWord(Lex(s)) == n && TextOf(Lex(s)[..n]) == s[..n] && Lex(s)[n..] == Lex(s[n..])
  {
    hide Strip, Lex;
    if s == [] || !IsWord(s[0]) {
      NoWordHere(s);
      assert s[0..] == s;
    } else {
      WordsAgree(s[1..]);
      WordCharIsCode(s);
      var n, m := WordLength(s), WordLength(s[1..]);
      var u, ts := Strip(s[1..], Normal), Lex(s[1..]);
      assert ([s[0]] + u)[1..] == u && ([Code(s[0])] + ts)[1..] == ts;
      assert ([s[0]] + u)[..n] == [s[0]] + u[..m] && s[..n] == [s[0]] + s[1..][..m];
      assert ([s[0]] + u)[n..] == u[m..] && s[n..] == s[1..][m..];
      assert ([Code(s[0])] + ts)[..n] == [Code(s[0])] + ts[..m];
      assert ([Code(s[0])] + ts)[n..] == ts[m..];
      assert ([Code(s[0])] + ts[..m])[1..] == ts[..m];
    }
  }

  /** An unclosed literal swallows the rest: nothing is found in it. */
  lemma {:induction false} CteOverOpenLiteral(s: string, q: Quote, depth: nat)
    requires q != Normal && !LiteralRest(s, q).1
    ensures Cte(s, q, depth) == SELECT
    decreases |s|
  {
    hide LiteralStep;
    if s != [] {
      hide Cte;
      var (k, closed) := LiteralStep(s, q);
      CteOverOpenLiteral(s[k..], q, depth);
      EscapeAtEnd(s, q);
      CteOverElement(s, q, s[k..], depth);
      assert s[..k] + s[k..] == s;
    }
  }

  lemma CteOpens(t: string, depth: nat)
    requires t != [] && Opened(t[0]) != Normal
    ensures Cte(t, Normal, depth) == Cte(t[1..], Opened(t[0]), depth)
  {
  }

  lemma CteOverLiteralToken(s: string, r: string, depth: nat)
    requires s != [] && Opened(s[0]) != Normal
    requires !LiteralRest(s[1..], Opened(s[0])).1 ==> r == []
    ensures var n := 1 + LiteralRest(s[1..], Opened(s[0])).0;
            Cte(s[..n] + r, Normal, depth) == Cte(r, Normal, depth)
  {
    var q := Opened(s[0]);
    var (m, closed) := LiteralRest(s[1..], q);
    var t := s[..m + 1] + r;
    assert t[0] == s[0] && t[1..] == s[1..][..m] + r;
    CteOpens(t, depth);
    if closed {
      CteOverLiteral(s[1..], q, r, depth);
    } else {
      assert t[1..] == s[1..];
      CteOverOpenLiteral(s[1..], q, depth);
    }
  }

  lemma CteOverPlainChar(c: char, r: string, depth: nat)
    requires Opened(c) == Normal && !(depth == 0 && IsAlpha(c))
    ensures Cte([c] + r, Normal, depth) ==
            Cte(r, Normal, if c == '(' then depth + 1 else if c == ')' && depth > 0 then depth - 1 else depth)
  {
    assert ([c] + r)[1..] == r;
  }

  lemma CteAtWord(t: string)
    requires t != [] && Opened(t[0]) == Normal && IsAlpha(t[0])
    ensures Cte(t, Normal, 0) ==
            match CteWord(t[..WordLength(t)]) case Some(found) => found case None => Cte(t[WordLength(t)..], Normal, 0)
  {
  }

  /**
   On stripped text the WITH scanner finds what stands in the tokens of the original
   SQL: words of code outside parentheses, comments and literals, unclosed ones included.
  */
  lemma {:induction false} CteAgreesWithTokens(s: string, depth: nat)
    ensures Cte(Strip(s, Normal), Normal, depth) == CteTokens(Lex(s), depth)
    decreases |s|
  {
    hide LiteralRest, StripMove, Cte, Lex, LineCommentAt, BlockCommentAt, CteWord, WordLength;
    if s == [] {
      EmptyCteAgrees(depth);
    } else if Opened(s[0]) != Normal {
      var n := 1 + LiteralRest(s[1..], Opened(s[0])).0;
      StripLiteralToken(s);
      LexLiteral(s);
      CteAgreesWithTokens(s[n..], depth);
      assert n == |s| ==> s[n..] == [];
      CteOverLiteralToken(s, Strip(s[n..], Normal), depth);
      assert Lex(s)[1..] == Lex(s[n..]);
    } else if depth == 0 && IsAlpha(s[0]) {
      var n := WordLength(s);
      WordLengthPositive(s);
      WordCharIsCode(s);
      WordsAgree(s);
      CteAgreesWithTokens(s[n..], 0);
      CteAtWord(Strip(s, Normal));
    } else {
      var t := OtherToken(s);
      var m := StripMove(s, Normal);
      var r := Strip(s[m.taken..], Normal);
      ShownIsOneChar(s, t);
      var c := m.emitted[0];
      assert m.emitted == [c];
      PlainToken(s, t);
      var d := if c == '(' then depth + 1 else if c == ')' && depth > 0 then depth - 1 else depth;
      CteAgreesWithTokens(s[m.taken..], d);
      CteOverPlainChar(c, r, depth);
      assert Strip(s, Normal) == [c] + r;
      assert Lex(s)[1..] == Lex(s[m.taken..]);
    }
  }

  lemma EmptyCteAgrees(depth: nat)
    ensures Cte(Strip([], Normal), Normal, depth) == CteTokens(Lex([]), depth)
  {
  }

  lemma WordLengthPositive(s: string)
    requires s != [] && IsAlpha(s[0])
    ensures WordLength(s) > 0 && IsWord(s[0])
  {
  }

  /** A token other than a literal shows its own character, or a blank for a comment. */
  lemma PlainToken(s: string, t: Token)
    requires s != [] && Opened(s[0]) == Normal && Lex(s) != [] && t == Lex(s)[0]
    ensures if t.Code? then t.c == s[0] && Shown(t) == [s[0]] else t.Comment? && Shown(t) == " "
  {
  }
}
