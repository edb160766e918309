/** What a statement is, by the word it opens with and, behind WITH, by its main word. */
module StatementWords {
  import opened Options
  import opened SqlText
  import opened CommentScanner
  import opened StatementSplitter
  import opened QueryClassifier
  import opened ScannerAgreement
  import opened LexByText

  /** `w` is the lower-case word `k` with any of its letters in upper case. */
  ghost predicate Spells(w: string, k: string) {
    |w| == |k| && forall i :: 0 <= i < |k| ==> w[i] == k[i] || w[i] as int + 32 == k[i] as int
  }

  ghost predicate LowerLetters(k: string) { forall i :: 0 <= i < |k| ==> 97 <= k[i] as int <= 122 }

  lemma SpellingIsLower(w: string, k: string)
    requires Spells(w, k) && LowerLetters(k)
    ensures LowerAll(w) == k && forall i :: 0 <= i < |w| ==> Letter(w[i])
  {
    forall i | 0 <= i < |w| ensures LowerAll(w)[i] == k[i] && Letter(w[i]) {
    }
  }

  /** The same word in lower case. */
  lemma LowerIsSpelt(w: string)
    requires forall i :: 0 <= i < |w| ==> Letter(w[i])
    ensures Spells(w, LowerAll(w)) && LowerLetters(LowerAll(w))
  {
    var k := LowerAll(w);
    forall i | 0 <= i < |w| ensures (w[i] == k[i] || w[i] as int + 32 == k[i] as int) && 97 <= k[i] as int <= 122 {
    }
  }

  // ---- The word list ----

  predicate ReadWord(k: string) {
    k == "select" || k == "show" || k == "explain" || k == "describe" || k == "desc"
    || k == "values" || k == "table"
  }

  predicate InsertWord(k: string) {
    k == "insert" || k == "replace" || k == "load"
  }

  predicate DdlWord(k: string) {
    k == "create" || k == "drop" || k == "alter" || k == "truncate" || k == "rename"
    || k == "analyze" || k == "optimize" || k == "check" || k == "repair" || k == "lock"
    || k == "unlock" || k == "grant" || k == "revoke"
  }

  /** The type of a statement that opens with the word. */
  function WordType(k: string): QueryType {
    if ReadWord(k) then SELECT
    else if InsertWord(k) then INSERT
    else if k == "update" then UPDATE
    else if k == "delete" then DELETE
    else if DdlWord(k) then DDL
    else if k == "call" || k == "do" then CALL
    else if k == "begin" || k == "start" then BEGIN
    else if k == "commit" then COMMIT
    else if k == "rollback" then ROLLBACK
    else if k == "set" then SET
    else if k == "use" then USE
    else UNKNOWN
  }

  /** The words that open a write. */
  predicate WriteWord(k: string) {
    InsertWord(k) || k == "update" || k == "delete" || DdlWord(k) || k == "call" || k == "do"
  }

  /** What the keyword table gives. */
  function TableType(k: string): QueryType { if k in KEYWORDS then KEYWORDS[k] else UNKNOWN }

  lemma TableOfShort(k: string)
    requires |k| <= 3
    ensures TableType(k) == WordType(k)
  {
  }

  lemma TableOfFour(k: string)
    requires |k| == 4
    ensures TableType(k) == WordType(k)
  {
  }

  lemma TableOfFive(k: string)
    requires |k| == 5
    ensures TableType(k) == WordType(k)
  {
  }

  lemma TableOfSixToC(k: string)
    requires |k| == 6 && k[0] <= 'c'
    ensures TableType(k) == WordType(k)
  {
  }

  lemma TableOfSixToI(k: string)
    requires |k| == 6 && 'c' < k[0] <= 'i'
    ensures TableType(k) == WordType(k)
  {
  }

  lemma TableOfSixR(k: string)
    requires |k| == 6 && k[0] == 'r'
    ensures TableType(k) == WordType(k)
  {
  }

  lemma TableOfSixOthers(k: string)
    requires |k| == 6 && k[0] > 'i' && k[0] != 'r'
    ensures TableType(k) == WordType(k)
  {
  }

  lemma TableOfSeven(k: string)
    requires |k| == 7
    ensures TableType(k) == WordType(k)
  {
  }

  lemma TableOfLong(k: string)
    requires |k| >= 8
    ensures TableType(k) == WordType(k)
  {
  }

  /** The keyword table says of every word, listed or not, what the lists say. */
  lemma TableMeansWordType(k: string)
    ensures TableType(k) == WordType(k)
  {
    hide TableType, WordType;
    if |k| <= 3 {
      TableOfShort(k);
    } else if |k| == 4 {
      TableOfFour(k);
    } else if |k| == 5 {
      TableOfFive(k);
    } else if |k| == 6 {
      if k[0] <= 'c' {
        TableOfSixToC(k);
      } else if k[0] <= 'i' {
        TableOfSixToI(k);
      } else if k[0] == 'r' {
        TableOfSixR(k);
      } else {
        TableOfSixOthers(k);
      }
    } else if |k| == 7 {
      TableOfSeven(k);
    } else {
      TableOfLong(k);
    }
  }

  lemma WritesAreWriteWords(k: string)
    ensures IsWrite(WordType(k)) <==> WriteWord(k)
  {
  }

  // ---- The opening word of a statement ----

  ghost predicate Padding(pad: string) { forall i :: 0 <= i < |pad| ==> BlankChar(pad[i]) || pad[i] == '(' }

  /** The statement is blanks and opening parentheses, a word of letters, and a rest that does not continue the word. */
  ghost predicate Opening(pad: string, w: string, rest: string) {
    && Padding(pad)
    && w != [] && (forall i :: 0 <= i < |w| ==> Letter(w[i]))
    && (rest != [] ==> !Letter(rest[0]))
  }

  lemma {:induction false} PaddingIsSkipped(pad: string, t: string)
    requires Padding(pad) && (t != [] ==> !BlankChar(t[0]) && t[0] != '(')
    ensures SkipPadding(pad + t) == t
  {
    if pad == [] {
      assert pad + t == t;
      if t != [] {
        CharacterClasses(t[0]);
      }
    } else {
      CharacterClasses(pad[0]);
      assert (pad + t)[1..] == pad[1..] + t;
      PaddingIsSkipped(pad[1..], t);
    }
  }

  lemma {:induction false} WordIsMeasured(w: string, rest: string)
    requires (forall i :: 0 <= i < |w| ==> Letter(w[i])) && (rest != [] ==> !Letter(rest[0]))
    ensures AlphaLength(w + rest) == |w|
  {
    if w == [] {
      assert w + rest == rest;
      if rest != [] {
        CharacterClasses(rest[0]);
      }
    } else {
      CharacterClasses(w[0]);
      assert (w + rest)[1..] == w[1..] + rest;
      WordIsMeasured(w[1..], rest);
    }
  }

  lemma OpeningWord(pad: string, w: string, rest: string)
    requires Opening(pad, w, rest)
    ensures SkipPadding(pad + (w + rest)) == w + rest
    ensures FirstKeyword(pad + (w + rest)) == if |w| > 16 then [] else LowerAll(w)
  {
    hide SkipPadding, AlphaLength;
    assert (w + rest)[0] == w[0];
    PaddingIsSkipped(pad, w + rest);
    WordIsMeasured(w, rest);
    assert (w + rest)[..|w|] == w;
  }

  lemma ListedWordsAreShort(k: string)
    requires |k| > 16
    ensures WordType(k) == UNKNOWN && k != "with"
  {
  }

  /** A statement has the type of its opening word, however it is spelt and whatever follows. */
  lemma TypeByOpeningWord(pad: string, w: string, rest: string, k: string)
    requires Opening(pad, w, rest) && Spells(w, k) && LowerLetters(k) && k != "with"
    ensures ClassifyOne(pad + (w + rest)) == WordType(k)
  {
    hide FirstKeyword, SkipPadding, WordType, Cte, Opening;
    OpeningWord(pad, w, rest);
    SpellingIsLower(w, k);
    TableMeansWordType(k);
    if |w| > 16 {
      ListedWordsAreShort(k);
    } else {
      assert k != [] by { OpeningIsNotEmpty(pad, w, rest); }
    }
  }

  lemma OpeningIsNotEmpty(pad: string, w: string, rest: string)
    requires Opening(pad, w, rest)
    ensures w != []
  {
  }

  /** Behind WITH, the main word decides. */
  lemma TypeByMainWord(pad: string, w: string, rest: string)
    requires Opening(pad, w, rest) && Spells(w, "with")
    ensures ClassifyOne(pad + (w + rest)) == Cte(w + rest, Normal, 0)
  {
    hide FirstKeyword, SkipPadding, Cte, Opening;
    OpeningWord(pad, w, rest);
    SpellingIsLower(w, "with");
  }

  /** A statement without an opening word is of no known type. */
  lemma NoOpeningWordIsUnknown(pad: string, rest: string)
    requires Padding(pad) && (rest != [] ==> !BlankChar(rest[0]) && rest[0] != '(' && !Letter(rest[0]))
    ensures ClassifyOne(pad + rest) == UNKNOWN
  {
    hide SkipPadding, AlphaLength, Cte;
    PaddingIsSkipped(pad, rest);
    WordIsMeasured([], rest);
    assert [] + rest == rest;
  }

  // ---- Every statement has one of these forms ----

  /** The statement opens with the word `k`. */
  ghost predicate OpensWith(stmt: string, k: string) {
    exists pad, w, rest :: Opening(pad, w, rest) && Spells(w, k) && LowerLetters(k) && stmt == pad + (w + rest)
  }

  ghost predicate OpensWithWriteWord(stmt: string) { exists k :: WriteWord(k) && OpensWith(stmt, k) }

  lemma {:induction false} CutPadding(stmt: string) returns (pad: string, t: string)
    ensures stmt == pad + t && Padding(pad) && (t != [] ==> !BlankChar(t[0]) && t[0] != '(')
  {
    if stmt != [] && (BlankChar(stmt[0]) || stmt[0] == '(') {
      var more;
      more, t := CutPadding(stmt[1..]);
      pad := [stmt[0]] + more;
      assert stmt == [stmt[0]] + stmt[1..];
    } else {
      pad, t := [], stmt;
    }
  }

  lemma {:induction false} CutWord(t: string) returns (w: string, rest: string)
    ensures t == w + rest && (forall i :: 0 <= i < |w| ==> Letter(w[i])) && (rest != [] ==> !Letter(rest[0]))
    ensures t != [] && Letter(t[0]) ==> w != []
  {
    if t != [] && Letter(t[0]) {
      var more;
      more, rest := CutWord(t[1..]);
      w := [t[0]] + more;
      assert t == [t[0]] + t[1..];
    } else {
      w, rest := [], t;
    }
  }

  /** The statement from its opening word on; empty if it has none. */
  ghost predicate WithBody(stmt: string, body: string) {
    exists pad, w, rest :: Opening(pad, w, rest) && Spells(w, "with") && stmt == pad + (w + rest) && body == w + rest
  }

  /** The statement opens with a write word, or with WITH and its main word makes it a write. */
  ghost predicate WritesByText(stmt: string) {
    OpensWithWriteWord(stmt) || exists body :: WithBody(stmt, body) && IsWrite(Cte(body, Normal, 0))
  }

  /** A statement is a write exactly when its own text says so. */
  lemma WritesExactlyByText(stmt: string)
    ensures IsWrite(ClassifyOne(stmt)) <==> WritesByText(stmt)
  {
    hide ClassifyOne, Cte, WordType, WriteWord, Opening, IsWrite;
    var pad, t := CutPadding(stmt);
    var w, rest := CutWord(t);
    if w == [] {
      assert t == rest;
      NoOpeningWordIsUnknown(pad, rest);
      UnknownIsNoWrite();
    } else {
      assert Opening(pad, w, rest) by { MakeOpening(pad, w, rest); }
      LowerIsSpelt(w);
      var k := LowerAll(w);
      WritesAreWriteWords(k);
      if k == "with" {
        TypeByMainWord(pad, w, rest);
        assert WithBody(stmt, w + rest);
      } else {
        TypeByOpeningWord(pad, w, rest, k);
        if WriteWord(k) {
          assert OpensWith(stmt, k);
        }
      }
    }
    if OpensWithWriteWord(stmt) {
      var k :| WriteWord(k) && OpensWith(stmt, k);
      OpensDecides(stmt, k);
    }
    if body :| WithBody(stmt, body) && IsWrite(Cte(body, Normal, 0)) {
      WithDecides(stmt, body);
    }
  }

  lemma UnknownIsNoWrite()
    ensures !IsWrite(UNKNOWN)
  {
  }

  lemma MakeOpening(pad: string, w: string, rest: string)
    requires Padding(pad) && w != [] && (forall i :: 0 <= i < |w| ==> Letter(w[i])) && (rest != [] ==> !Letter(rest[0]))
    ensures Opening(pad, w, rest)
  {
  }

  lemma OpensDecides(stmt: string, k: string)
    requires OpensWith(stmt, k) && WriteWord(k)
    ensures IsWrite(ClassifyOne(stmt))
  {
    hide ClassifyOne, WordType, Opening, IsWrite;
    var pad, w, rest :| Opening(pad, w, rest) && Spells(w, k) && LowerLetters(k) && stmt == pad + (w + rest);
    assert k != "with";
    TypeByOpeningWord(pad, w, rest, k);
    WritesAreWriteWords(k);
  }

  lemma WithDecides(stmt: string, body: string)
    requires WithBody(stmt, body)
    ensures ClassifyOne(stmt) == Cte(body, Normal, 0)
  {
    hide ClassifyOne, Cte, Opening;
    var pad, w, rest :| Opening(pad, w, rest) && Spells(w, "with") && stmt == pad + (w + rest) && body == w + rest;
    TypeByMainWord(pad, w, rest);
  }

  // ---- The main word behind WITH ----

  /** The type a depth-zero word decides. */
  function MainWordType(k: string): Option<QueryType> {
    if k == "select" then Some(SELECT)
    else if k == "insert" || k == "replace" then Some(INSERT)
    else if k == "update" || k == "merge" then Some(UPDATE)
    else if k == "delete" then Some(DELETE)
    else None
  }

  lemma MainWordBySpelling(w: string, k: string)
    requires Spells(w, k) && LowerLetters(k)
    ensures CteWord(w) == MainWordType(k)
  {
    SpellingIsLower(w, k);
  }

  /** The scanner passes over the text to parenthesis depth zero outside quotes, and meets no main word outside parentheses. */
  predicate Silent(a: string, q: Quote, depth: nat)
    decreases |a|
  {
    if a == [] then q == Normal && depth == 0
    else if q != Normal || QuoteSign(a[0]) then
      var (k, q') := SimpleMove(a, q); k <= |a| && (Escapes(a[0], q) && q != Normal ==> |a| > 1) && Silent(a[k..], q', depth)
    else if a[0] == '(' then Silent(a[1..], Normal, depth + 1)
    else if a[0] == ')' then Silent(a[1..], Normal, if depth > 0 then depth - 1 else 0)
    else if depth == 0 && Letter(a[0]) then
      var n := WordLength(a);
      n < |a| && MainWordType(LowerAll(a[..n])).None? && Silent(a[n..], Normal, 0)
    else Silent(a[1..], Normal, depth)
  }

  /** A WITH statement has the type of its first main word outside parentheses and literals. */
  lemma {:induction false} TypeOfMainWord(a: string, q: Quote, depth: nat, w: string, k: string, b: string)
    requires Silent(a, q, depth) && Spells(w, k) && LowerLetters(k) && MainWordType(k).Some? && (b != [] ==> !NameChar(b[0]))
    ensures Cte(a + (w + b), q, depth) == MainWordType(k).value
    decreases |a|
  {
    hide WordLength, CteWord;
    var t := w + b;
    if a == [] {
      assert a + t == t;
      MainWordHere(w, k, b);
    } else {
      var s := a + t;
      CharacterClasses(a[0]);
      assert s[0] == a[0] && s[1..] == a[1..] + t;
      if q != Normal || QuoteSign(a[0]) {
        MoveBefore(a, q, t);
        var (m, q') := SimpleMove(a, q);
        TypeOfMainWord(a[m..], q', depth, w, k, b);
      } else if depth == 0 && Letter(a[0]) && a[0] != '(' && a[0] != ')' {
        SilentWord(a, t);
        var n := WordLength(a);
        TypeOfMainWord(a[n..], Normal, 0, w, k, b);
      } else {
        var d := if a[0] == '(' then depth + 1 else if a[0] == ')' && depth > 0 then depth - 1 else depth;
        TypeOfMainWord(a[1..], Normal, d, w, k, b);
      }
    }
  }

  lemma MainWordHere(w: string, k: string, b: string)
    requires Spells(w, k) && LowerLetters(k) && MainWordType(k).Some? && (b != [] ==> !NameChar(b[0]))
    ensures Cte(w + b, Normal, 0) == MainWordType(k).value
  {
    var s := w + b;
    SpellingIsLower(w, k);
    WordOf(w, b);
    assert s[..|w|] == w && s[0] == w[0] && Letter(w[0]);
    CharacterClasses(w[0]);
    MainWordBySpelling(w, k);
    CteAtWord(s);
  }

  lemma {:induction false} WordOf(w: string, b: string)
    requires (forall i :: 0 <= i < |w| ==> Letter(w[i])) && (b != [] ==> !NameChar(b[0]))
    ensures WordLength(w + b) == |w|
  {
    if w == [] {
      assert w + b == b;
      if b != [] {
        CharacterClasses(b[0]);
      }
    } else {
      CharacterClasses(w[0]);
      assert (w + b)[1..] == w[1..] + b;
      WordOf(w[1..], b);
    }
  }

  lemma SilentWord(a: string, t: string)
    requires a != [] && Letter(a[0]) && !QuoteSign(a[0]) && WordLength(a) < |a| && MainWordType(LowerAll(a[..WordLength(a)])).None?
    ensures Cte(a + t, Normal, 0) == Cte(a[WordLength(a)..] + t, Normal, 0)
  {
    var n, s := WordLength(a), a + t;
    CharacterClasses(a[0]);
    WordEndsInside(a, t);
    assert s[..n] == a[..n] && s[n..] == a[n..] + t;
    CteAtWord(s);
  }

  lemma {:induction false} WordEndsInside(a: string, t: string)
    requires WordLength(a) < |a|
    ensures WordLength(a + t) == WordLength(a)
  {
    if a != [] && IsWord(a[0]) {
      assert (a + t)[1..] == a[1..] + t;
      WordEndsInside(a[1..], t);
    }
  }

  // ---- Batches ----

  /** Some statement of the SQL text, comments taken out and cut at its semicolons, is a write by its own text. */
  ghost predicate BatchWrites(sql: string) {
    exists i :: 0 <= i < |Split(Strip(sql, Normal))| && WritesByText(Split(Strip(sql, Normal))[i])
  }

  /** The SQL text classifies as a write exactly then. */
  lemma BatchWritesExactly(sql: string)
    ensures IsWrite(Classify(sql)) <==> BatchWrites(sql)
  {
    hide ClassifyOne, Split, Strip, Classify, WritesByText, IsWrite;
    WriteExactlyWhenSomeStatementWrites(sql);
    var stmts := Split(Strip(sql, Normal));
    forall i | 0 <= i < |stmts| ensures IsWrite(ClassifyOne(stmts[i])) <==> WritesByText(stmts[i]) {
      WritesExactlyByText(stmts[i]);
    }
  }

  /** The first write decides the type of a batch. */
  lemma {:induction false} BatchIsFirstWrite(stmts: seq<string>, first: QueryType, i: nat)
    requires i < |stmts| && IsWrite(ClassifyOne(stmts[i])) && forall j :: 0 <= j < i ==> !IsWrite(ClassifyOne(stmts[j]))
    ensures Batch(stmts, first) == ClassifyOne(stmts[i])
    decreases |stmts|
  {
    hide ClassifyOne, IsWrite;
    if i > 0 {
      var t := ClassifyOne(stmts[0]);
      assert stmts[1..][i - 1] == stmts[i];
      BatchIsFirstWrite(stmts[1..], if first == UNKNOWN then t else first, i - 1);
    }
  }

  lemma {:induction false} BatchKeepsKnown(stmts: seq<string>, first: QueryType)
    requires first != UNKNOWN && forall j :: 0 <= j < |stmts| ==> !IsWrite(ClassifyOne(stmts[j]))
    ensures Batch(stmts, first) == first
    decreases |stmts|
  {
    hide ClassifyOne, IsWrite;
    if stmts != [] {
      BatchKeepsKnown(stmts[1..], first);
    }
  }

  /** Without a write the first statement of known type does. */
  lemma {:induction false} BatchIsFirstKnown(stmts: seq<string>, i: nat)
    requires i <= |stmts| && forall j :: 0 <= j < |stmts| ==> !IsWrite(ClassifyOne(stmts[j]))
    requires (forall j :: 0 <= j < i ==> ClassifyOne(stmts[j]) == UNKNOWN) && (i < |stmts| ==> ClassifyOne(stmts[i]) != UNKNOWN)
    ensures Batch(stmts, UNKNOWN) == if i < |stmts| then ClassifyOne(stmts[i]) else UNKNOWN
    decreases |stmts|
  {
    hide ClassifyOne, IsWrite;
    if stmts != [] {
      if i == 0 {
        BatchKeepsKnown(stmts[1..], ClassifyOne(stmts[0]));
      } else {
        assert i < |stmts| ==> stmts[1..][i - 1] == stmts[i];
        BatchIsFirstKnown(stmts[1..], i - 1);
      }
    }
  }
}
