/**
 The classifier takes every comment for a blank; the schema extractor scans
 comments like code.  Here stands exactly which comments it, too, takes for a blank.
*/
module CommentedSchema {
  import opened Options
  import opened SqlText
  import opened CommentScanner
  import opened StatementSplitter
  import opened QueryClassifier
  import opened SchemaExtractor
  import opened SchemaScan

  // ---- Comments ----

  /** A whole comment: a line with its newline, or a block with its star-slash. */
  predicate ClosedComment(c: string) {
    || (LineCommentAt(c) && LineLength(c) == |c| && c[|c| - 1] == '\n')
    || (BlockCommentAt(c) && |c| >= 4 && 2 + BlockLength(c[2..]) == |c| && c[|c| - 2] == '*' && c[|c| - 1] == '/')
  }

  lemma {:induction false} LineLengthStable(c: string, x: string)
    requires c != [] && LineLength(c) == |c| && c[|c| - 1] == '\n'
    ensures LineLength(c + x) == |c|
  {
    if c[0] != '\n' {
      assert (c + x)[1..] == c[1..] + x;
      LineLengthStable(c[1..], x);
    }
  }

  lemma {:induction false} BlockLengthStable(c: string, x: string)
    requires |c| >= 2 && BlockLength(c) == |c| && c[|c| - 2] == '*' && c[|c| - 1] == '/'
    ensures BlockLength(c + x) == |c|
  {
    if !(c[0] == '*' && c[1] == '/') {
      assert (c + x)[1..] == c[1..] + x;
      BlockLengthStable(c[1..], x);
    }
  }

  /** To the lexer and to the comment scanner a closed comment is one token and one blank, whatever follows. */
  lemma CommentIsOneToken(c: string, x: string)
    requires ClosedComment(c)
    ensures Lex(c + x) == [Comment(c)] + Lex(x)
    ensures Strip(c + x, Normal) == " " + Strip(x, Normal)
  {
    hide LineLength, BlockLength, LiteralRest;
    var s := c + x;
    assert s[..|c|] == c && s[|c|..] == x;
    if LineCommentAt(c) {
      LineLengthStable(c, x);
    } else {
      assert s[2..] == c[2..] + x;
      BlockLengthStable(c[2..], x);
    }
  }

  /** So the classifier never sees the difference between a comment and a blank. */
  lemma ClassifierTakesCommentsForBlanks(c: string, x: string)
    requires ClosedComment(c)
    ensures Classify(c + x) == Classify(" " + x)
  {
    hide Split, ClassifyOne, Batch;
    CommentIsOneToken(c, x);
    var b := " " + x;
    assert b[1..] == x && StripMove(b, Normal) == Move(1, " ", Normal);
  }

  /** A prefix at whose end the scan stands outside quotes, with no word and no name begun. */
  predicate Settled(p: string) { p == [] || (WordEnd(p) && SchemaFree(p)) }

  lemma SettledPasses(p: string, x: string)
    requires Settled(p)
    ensures ExtractSchema(p + x) == ExtractSchema(x)
  {
    hide Extract, Scanned;
    if p == [] {
      assert p + x == x;
    } else {
      ScanPasses(p, false, Normal, Normal, x);
    }
  }

  /**
   Behind a settled prefix the extractor takes a comment for a blank, whatever
   follows, exactly when it is schema free: no keyword in it followed by a qualified
   name, or by one left open, and no quote left open.
  */
  lemma ExtractorTakesCommentForBlankExactlyWhen(p: string, c: string)
    requires Settled(p) && ClosedComment(c)
    ensures (forall x :: ExtractSchema(p + (c + x)) == ExtractSchema(p + (" " + x))) <==> SchemaFree(c)
  {
    hide Extract, Scanned, LineLength, BlockLength, Settled;
    if SchemaFree(c) {
      forall x ensures ExtractSchema(p + (c + x)) == ExtractSchema(p + (" " + x)) {
        SettledPasses(p, c + x);
        SettledPasses(p, " " + x);
        SealedEnd(c);
        ScanPasses(c, false, Normal, Normal, x);
        BlankPasses(x);
      }
    } else {
      var x := SchemaFreeNeeded(c, false, Normal);
      SettledPasses(p, c + x);
      SettledPasses(p, " " + x);
      BlankPasses(x);
      assert ExtractSchema(p + (c + x)) != ExtractSchema(p + (" " + x));
    }
  }

  lemma BlankPasses(x: string)
    ensures Extract(" " + x, false, Normal) == Extract(x, false, Normal)
  {
    var s := " " + x;
    assert s[1..] == x && ScanTurn(s, false, Normal) == Go(1, Normal);
  }

  // ---- Comments between a keyword and the name it asks for ----

  /** A character at which the reading of a name breaks off. */
  predicate Breaks(c: char) { !IsSpace(c) && !IsWord(c) && !IdentQuote(c) && c != '.' && c != '\'' }

  /** Broken off behind `h`, the reading finds nothing and leaves at most blanks unread. */
  ghost predicate BrokenOff(h: string, y: string) {
    var r := ReadQualifiedSchema(h + y);
    r.name == [] && r.taken <= |h| && Blank(h[r.taken..])
  }

  lemma BlanksThenNothing(ws: string, y: string)
    requires Blank(ws) && y != [] && Breaks(y[0])
    ensures Spaces(ws + y) == |ws| && ReadIdent(ws + y) == Ident([], |ws|)
  {
    hide Spaces, ReadBare, ReadQuoted;
    SpacesOverBlank(ws, y);
    assert (ws + y)[|ws|] == y[0] && (ws + y)[|ws|..] == y;
    BareNothing(y);
  }

  lemma BareNothing(y: string)
    requires y != [] && Breaks(y[0])
    ensures ReadBare(y) == Ident([], 0)
  {
  }

  /** Directly behind the keyword. */
  lemma BrokenBeforeName(ws: string, y: string)
    requires Blank(ws) && y != [] && Breaks(y[0])
    ensures BrokenOff(ws, y)
  {
    hide ReadIdent;
    BlanksThenNothing(ws, y);
    assert ws[|ws|..] == [];
  }

  lemma StartsOtherwise(ws: string, y: string, q: char)
    requires Blank(ws) && y != [] && Breaks(y[0]) && IdentQuote(q)
    ensures (ws + y)[0] != q
  {
    if ws != [] {
      assert ws[0] in ws;
    }
  }

  /** Between the schema and its dot. */
  lemma BrokenBeforeDot(ws: string, schema: string, q: char, ws2: string, y: string)
    requires Blank(ws) && Blank(ws2) && IdentQuote(q) && schema != [] && y != [] && Breaks(y[0])
    ensures BrokenOff(ws + Quoted(schema, q) + ws2, y)
  {
    var first := ws + Quoted(schema, q);
    var h := first + ws2;
    hide ReadIdent, Quoted, Spaces;
    StartsOtherwise(ws2, y, q);
    assert h + y == first + (ws2 + y);
    ReadIdentQuoted(ws, schema, q, ws2 + y);
    assert (h + y)[|first|..] == ws2 + y;
    BlanksThenNothing(ws2, y);
    assert (h + y)[|h|] == y[0];
    assert h[|first|..] == ws2;
  }

  /** Between the dot and the table. */
  lemma BrokenBeforeTable(ws: string, schema: string, q: char, ws2: string, ws3: string, y: string)
    requires Blank(ws) && Blank(ws2) && Blank(ws3) && IdentQuote(q) && schema != [] && y != [] && Breaks(y[0])
    ensures BrokenOff(ws + Quoted(schema, q) + ws2 + "." + ws3, y)
  {
    var first := ws + Quoted(schema, q);
    var h := first + ws2 + "." + ws3;
    var after := ws2 + ("." + (ws3 + y));
    hide ReadIdent, Quoted, Spaces;
    assert h + y == first + after;
    assert after[0] != q by { if ws2 != [] { assert ws2[0] in ws2; } }
    ReadIdentQuoted(ws, schema, q, after);
    assert (h + y)[|first|..] == after;
    SpacesOverBlank(ws2, "." + (ws3 + y));
    var dot := |first| + |ws2|;
    assert (h + y)[dot] == '.' && (h + y)[dot + 1..] == ws3 + y;
    BlanksThenNothing(ws3, y);
    assert h[|h|..] == [];
  }

  lemma {:induction false} BlanksPass(ws: string, inWord: bool, y: string)
    requires Blank(ws) && y != [] && Breaks(y[0])
    ensures Extract(ws + y, inWord, Normal) == Extract(y, false, Normal)
  {
    hide Extract, ScanTurn;
    if ws == [] {
      assert ws + y == y;
      BreakEndsWord(y, inWord);
    } else {
      assert ws[0] in ws;
      assert (ws + y)[0] == ws[0] && (ws + y)[1..] == ws[1..] + y;
      BlankTurn(ws + y, inWord);
      OneTurn(ws + y, inWord, Normal);
      BlanksPass(ws[1..], IsWord(ws[0]), y);
    }
  }

  lemma BlankTurn(s: string, inWord: bool)
    requires s != [] && IsSpace(s[0])
    ensures ScanTurn(s, inWord, Normal) == Go(1, Normal)
  {
    hide KeywordLength, ReadQualifiedSchema;
  }

  lemma BreakEndsWord(y: string, inWord: bool)
    requires y != [] && Breaks(y[0])
    ensures Extract(y, inWord, Normal) == Extract(y, false, Normal)
  {
  }

  lemma CommentBreaks(c: string)
    requires ClosedComment(c)
    ensures c != [] && Breaks(c[0]) && Sealed(c)
  {
  }

  /**
   While a keyword waits for its name - directly behind it, or behind the schema or the
   dot, where reading breaks off - a schema-free comment hides the name: the scan goes
   on behind the comment as if keyword and beginning had not been there.
  */
  lemma CommentBeforeNameHidesIt(p: string, kw: string, k: string, h: string, c: string, x: string)
    requires Settled(p) && k in SCHEMA_KEYWORDS && SameButCase(kw, k)
    requires ClosedComment(c) && SchemaFree(c)
    requires BrokenOff(h, c + x) && (h != [] ==> !IsWord(h[0]))
    ensures ExtractSchema(p + (kw + (h + (c + x)))) == ExtractSchema(x)
  {
    hide Extract, KeywordLength, ReadQualifiedSchema, Scanned, LineLength, BlockLength, Settled;
    var y, after := c + x, h + (c + x);
    CommentBreaks(c);
    assert after[0] == if h == [] then c[0] else h[0];
    SettledPasses(p, kw + after);
    KeywordFound(kw, k, after);
    var s, r := kw + after, ReadQualifiedSchema(after);
    assert s[|k|..] == after && s[0] == kw[0];
    var n := |k| + r.taken;
    assert ScanTurn(s, false, Normal) == Go(n, Normal);
    OneTurn(s, false, Normal);
    assert s[n..] == h[r.taken..] + y;
    BlanksPass(h[r.taken..], IsWord(s[n - 1]), y);
    SealedEnd(c);
    ScanPasses(c, false, Normal, Normal, x);
  }

  /** The three places: behind the keyword, behind the schema and behind the dot. */
  lemma CommentInNameHidesIt(p: string, kw: string, k: string, ws: string, schema: string, q: char, ws2: string, ws3: string,
                             c: string, x: string)
    requires Settled(p) && k in SCHEMA_KEYWORDS && SameButCase(kw, k) && ClosedComment(c) && SchemaFree(c)
    requires Blank(ws) && Blank(ws2) && Blank(ws3) && IdentQuote(q) && schema != []
    ensures ExtractSchema(p + (kw + (ws + (c + x)))) == ExtractSchema(x)
    ensures ExtractSchema(p + (kw + (ws + Quoted(schema, q) + ws2 + (c + x)))) == ExtractSchema(x)
    ensures ExtractSchema(p + (kw + (ws + Quoted(schema, q) + ws2 + "." + ws3 + (c + x)))) == ExtractSchema(x)
  {
    hide ExtractSchema, ClosedComment, SchemaFree, Settled, BrokenOff, SameButCase;
    CommentBreaks(c);
    var y := c + x;
    assert y[0] == c[0];
    assert ws != [] ==> ws[0] in ws;
    BrokenBeforeName(ws, y);
    CommentBeforeNameHidesIt(p, kw, k, ws, c, x);
    BrokenBeforeDot(ws, schema, q, ws2, y);
    CommentBeforeNameHidesIt(p, kw, k, ws + Quoted(schema, q) + ws2, c, x);
    BrokenBeforeTable(ws, schema, q, ws2, ws3, y);
    CommentBeforeNameHidesIt(p, kw, k, ws + Quoted(schema, q) + ws2 + "." + ws3, c, x);
  }

  /** So there no schema-free comment is a blank: with a blank the name would be read. */
  lemma NoCommentBeforeNameIsBlank(p: string, kw: string, k: string, ws: string, c: string)
    requires Settled(p) && k in SCHEMA_KEYWORDS && SameButCase(kw, k) && Blank(ws)
    requires ClosedComment(c) && SchemaFree(c)
    ensures var x := "`a`.`b`";
            && ExtractSchema(p + (kw + (ws + (c + x)))) == None
            && ExtractSchema(p + (kw + (ws + (" " + x)))) == Some("a")
  {
    hide Extract, Scanned, LineLength, BlockLength, Settled, BrokenOff, Quoted;
    var x := "`a`.`b`";
    CommentBreaks(c);
    assert (c + x)[0] == c[0];
    BrokenBeforeName(ws, c + x);
    assert ws != [] ==> ws[0] in ws;
    CommentBeforeNameHidesIt(p, kw, k, ws, c, x);
    EndingsNameNothing(x);
    NameBehindBlank(p, kw, k, ws);
  }

  lemma NameBehindBlank(p: string, kw: string, k: string, ws: string)
    requires Settled(p) && k in SCHEMA_KEYWORDS && SameButCase(kw, k) && Blank(ws)
    ensures ExtractSchema(p + (kw + (ws + (" " + "`a`.`b`")))) == Some("a")
  {
    hide ExtractSchema, Settled, Quoted;
    var x := "`a`.`b`";
    OneLetter('a');
    OneLetter('b');
    var ws' := ws + " ";
    assert QualifiedName(ws', "a", '`', "", "", "b", '`') + "" == ws + (" " + x);
    assert KeywordFree("", false, Normal);
    QuotedSchemaRoundTrip("", kw, k, ws', "a", '`', "", "", "b", '`', "");
    assert "" + (kw + (ws + (" " + x))) == kw + (ws + (" " + x));
    SettledPasses(p, kw + (ws + (" " + x)));
  }

  // ---- Comments that decide or hide the schema ----

  lemma NameGrows(u: string, x: string)
    requires ReadIdent(u).name != []
    ensures ReadIdent(u + x).name != []
  {
    hide Spaces;
    var n := Spaces(u);
    SpacesStable(u, x);
    assert (u + x)[n] == u[n];
    if IdentQuote(u[n]) {
      assert (u + x)[n + 1..] == u[n + 1..] + x;
      QuotedGrows(u[n + 1..], u[n], x);
    } else {
      assert (u + x)[n..] == u[n..] + x;
    }
  }

  lemma QuotedGrows(u: string, q: char, x: string)
    requires ReadQuoted(u, q).name != []
    ensures ReadQuoted(u + x, q).name != []
  {
  }

  /** A schema once read is read whatever follows. */
  lemma FoundStable(t: string, x: string)
    requires ReadQualifiedSchema(t).name != []
    ensures ReadQualifiedSchema(t + x).name == ReadQualifiedSchema(t).name
  {
    hide ReadIdent, Spaces;
    var first := ReadIdent(t);
    var rest := t[first.taken..];
    var dot := first.taken + Spaces(rest);
    IdentStable(t, x);
    assert (t + x)[first.taken..] == rest + x;
    SpacesStable(rest, x);
    assert (t + x)[dot] == t[dot] && (t + x)[dot + 1..] == t[dot + 1..] + x;
    NameGrows(t[dot + 1..], x);
  }

  lemma {:induction false} BlanksNameNothing(ws: string, inWord: bool)
    requires Blank(ws)
    ensures Extract(ws, inWord, Normal) == None
  {
    if ws != [] {
      assert ws[0] in ws;
      assert ScanTurn(ws, inWord, Normal) == Go(1, Normal);
      BlanksNameNothing(ws[1..], IsWord(ws[0]));
    }
  }

  /** A reading still open at the end leaves nothing but blanks. */
  lemma OpenReadingLeavesBlanks(t: string)
    requires Sealed(t) && !StopsInside(t) && ReadQualifiedSchema(t).name == []
    ensures Blank(t[ReadQualifiedSchema(t).taken..])
  {
    hide ReadIdent, Spaces;
    var first := ReadIdent(t);
    if first.name != [] && first.taken + Spaces(t[first.taken..]) == |t| {
      AllSpaces(t[first.taken..]);
    }
  }

  /** If a text names a schema by itself, it decides the schema, whatever follows it. */
  lemma {:induction false} NamedStaysNamed(s: string, inWord: bool, q: Quote, x: string)
    requires Sealed(s) && Extract(s, inWord, q).Some?
    ensures Extract(s + x, inWord, q) == Extract(s, inWord, q)
    decreases |s|
  {
    hide ScanTurn, IsWord, Sealed;
    SealedEnd(s);
    if KeywordTurn(s, inWord, q) {
      KeywordTurnNames(s, inWord, q, x);
    } else {
      PlainTurnStable(s, inWord, q, x);
    }
    var t := ScanTurn(s, inWord, q);
    if t.Go? {
      var k := t.taken;
      assert (s + x)[k..] == s[k..] + x && (s + x)[k - 1] == s[k - 1];
      assert k < |s|;
      SealedTail(s, k);
      NamedStaysNamed(s[k..], IsWord(s[k - 1]), t.next, x);
    }
  }

  lemma KeywordTurnNames(s: string, inWord: bool, q: Quote, x: string)
    requires Sealed(s) && Extract(s, inWord, q).Some? && KeywordTurn(s, inWord, q)
    ensures ScanTurn(s + x, inWord, q) == ScanTurn(s, inWord, q)
  {
    hide KeywordLength, ReadQualifiedSchema, IsWord, StopsInside, Extract;
    SealedEnd(s);
    KeywordStable(s, x);
    var n := KeywordLength(s);
    SealedTail(s, n);
    if StopsInside(s[n..]) {
      KeywordTurnStable(s, inWord, q, x);
    } else {
      var r := ReadQualifiedSchema(s[n..]);
      assert (s + x)[n..] == s[n..] + x;
      if r.name != [] {
        FoundStable(s[n..], x);
      } else {
        OpenReadingLeavesBlanks(s[n..]);
        OneTurn(s, inWord, q);
        assert s[n + r.taken..] == s[n..][r.taken..];
        BlanksNameNothing(s[n + r.taken..], IsWord(s[n + r.taken - 1]));
      }
    }
  }

  /** A comment that names a schema decides it, behind any settled prefix, whatever the statement after it says. */
  lemma CommentDecidesSchema(p: string, c: string, x: string)
    requires Settled(p) && ClosedComment(c) && ExtractSchema(c).Some?
    ensures ExtractSchema(p + (c + x)) == ExtractSchema(c)
  {
    hide Extract, Scanned, LineLength, BlockLength, Settled;
    SettledPasses(p, c + x);
    NamedStaysNamed(c, false, Normal, x);
  }

  /** A comment that leaves a string open hides every schema named up to the next apostrophe or backslash. */
  lemma CommentHidesSchema(p: string, c: string, x: string)
    requires Settled(p) && ClosedComment(c) && Scanned(c, false, Normal, Squote)
    requires '\'' !in x && '\\' !in x
    ensures ExtractSchema(p + (c + x)) == None
  {
    hide Extract, Scanned, LineLength, BlockLength, Settled;
    SettledPasses(p, c + x);
    SealedEnd(c);
    ScanPasses(c, false, Normal, Squote, x);
    OpenQuoteHides(x, false);
  }

  /** Both happen. */
  lemma DecidingAndHidingComments()
    ensures var c := "/* FROM `a`.`b`*/"; ClosedComment(c) && ExtractSchema(c) == Some("a")
    ensures var c := "/*'*/"; ClosedComment(c) && Scanned(c, false, Normal, Squote)
  {
    DecidingComment();
    HidingComment();
  }

  lemma DecidingComment()
    ensures var c := "/* FROM `a`.`b`*/"; ClosedComment(c) && ExtractSchema(c) == Some("a")
  {
    hide ExtractSchema, ClosedComment;
    DecidingIsClosed();
    DecidingNames();
  }

  lemma DecidingIsClosed()
    ensures ClosedComment("/* FROM `a`.`b`*/")
  {
    hide BlockLength, LineLength;
    var c, body := "/* FROM `a`.`b`*/", " FROM `a`.`b`";
    assert c[2..] == body + "*/";
    BlockEnds(body);
  }

  lemma DecidingNames()
    ensures ExtractSchema("/* FROM `a`.`b`*/") == Some("a")
  {
    hide ExtractSchema, KeywordFree, Quoted;
    var p := "/* ";
    OpeningIsFree(p);
    assert SCHEMA_KEYWORDS[0] == "from";
    QuotedSchemaRoundTrip(p, "FROM", "from", " ", "a", '`', "", "", "b", '`', "*/");
    Spelled();
  }

  lemma Spelled()
    ensures "/* " + ("FROM" + (QualifiedName(" ", "a", '`', "", "", "b", '`') + "*/")) == "/* FROM `a`.`b`*/"
  {
    hide Quoted;
    OneLetter('a');
    OneLetter('b');
  }

  lemma {:induction false} BlockEnds(body: string)
    requires forall i :: 0 <= i < |body| ==> body[i] != '*'
    ensures BlockLength(body + "*/") == |body| + 2
  {
    var s := body + "*/";
    if body != [] {
      assert s[1..] == body[1..] + "*/";
      BlockEnds(body[1..]);
    }
  }

  lemma HidingComment()
    ensures var c := "/*'*/"; ClosedComment(c) && Scanned(c, false, Normal, Squote)
  {
    hide Scanned, BlockLength;
    var c := "/*'*/";
    assert c[2..] == "'" + "*/";
    BlockEnds("'");
    var c1 := c[1..];
    var c2 := c1[1..];
    var c3 := c2[1..];
    var c4 := c3[1..];
    assert c1[0] == '*' && c2[0] == '\'' && c3[0] == '*' && c4[0] == '/' && c4[1..] == [];
    OneChar(c, Normal, Squote);
    OneChar(c1, Normal, Squote);
    OneChar(c2, Normal, Squote);
    OneChar(c3, Squote, Squote);
    OneChar(c4, Squote, Squote);
    NothingScanned(Squote);
  }

  lemma NothingScanned(q: Quote)
    ensures Scanned([], false, q, q)
  {
  }

  lemma OneChar(s: string, q: Quote, end: Quote)
    requires s != [] && (s[0] == '/' || s[0] == '*' || s[0] == '\'') && (q == Normal || (q == Squote && s[0] != '\''))
    ensures Scanned(s, false, q, end) <==> Scanned(s[1..], false, if s[0] == '\'' then Squote else q, end)
  {
    hide KeywordLength, ReadQualifiedSchema;
  }

  lemma OpeningIsFree(p: string)
    requires p == "/* "
    ensures KeywordFree(p, false, Normal)
  {
    assert p[1..] == "* " && p[1..][1..] == " " && p[1..][1..][1..] == "";
    assert KeywordFree(p[1..][1..], false, Normal);
    assert KeywordFree(p[1..], false, Normal);
  }
}
