/** Classifying SQL by keyword, with look-ahead for WITH and escalation of batches. */
module QueryClassifier {
  import opened Options
  import opened SqlText
  import opened CommentScanner
  import opened StatementSplitter

  datatype QueryType =
    SELECT | INSERT | UPDATE | DELETE | DDL | CALL | BEGIN | COMMIT | ROLLBACK | SET | USE | UNKNOWN

  predicate IsWrite(t: QueryType) {
    t == INSERT || t == UPDATE || t == DELETE || t == DDL || t == CALL
  }

  const KEYWORDS: map<string, QueryType> := map[
    "select" := SELECT, "insert" := INSERT, "update" := UPDATE, "delete" := DELETE,
    "replace" := INSERT, "create" := DDL, "drop" := DDL, "alter" := DDL,
    "truncate" := DDL, "rename" := DDL, "call" := CALL, "do" := CALL,
    "begin" := BEGIN, "start" := BEGIN, "commit" := COMMIT, "rollback" := ROLLBACK,
    "set" := SET, "use" := USE, "show" := SELECT, "explain" := SELECT,
    "describe" := SELECT, "desc" := SELECT, "analyze" := DDL, "optimize" := DDL,
    "check" := DDL, "repair" := DDL, "lock" := DDL, "unlock" := DDL,
    "grant" := DDL, "revoke" := DDL, "load" := INSERT, "values" := SELECT,
    "table" := SELECT]

  /** The width of the buffer a keyword is read into. */
  const BUFFER: nat := 16

  predicate IsPadding(c: char) { IsSpace(c) || c == '(' }

  /** The statement from its first character that is neither blank nor an opening parenthesis. */
  function SkipPadding(s: string): (r: string)
    ensures |r| <= |s|
  {
    if s != [] && IsPadding(s[0]) then SkipPadding(s[1..]) else s
  }

  function AlphaLength(s: string): (n: nat)
    ensures n <= |s|
  {
    if s != [] && IsAlpha(s[0]) then 1 + AlphaLength(s[1..]) else 0
  }

  function WordLength(s: string): (n: nat)
    ensures n <= |s|
    ensures s != [] && IsWord(s[0]) ==> n > 0
  {
    if s != [] && IsWord(s[0]) then 1 + WordLength(s[1..]) else 0
  }

  /** The leading keyword in lower case; empty if there is none or it overflows the buffer. */
  function FirstKeyword(s: string): string {
    var t := SkipPadding(s);
    var n := AlphaLength(t);
    if n > BUFFER then [] else LowerAll(t[..n])
  }

  /** The statement type a depth-zero word of a WITH statement decides. */
  function CteWord(word: string): Option<QueryType> {
    if |word| > BUFFER then None
    else
      var w := LowerAll(word);
      if w == "select" then Some(SELECT)
      else if w == "insert" || w == "replace" then Some(INSERT)
      else if w == "update" || w == "merge" then Some(UPDATE)
      else if w == "delete" then Some(DELETE)
      else None
  }

  /** The scan for the main keyword, from quote state `q` and parenthesis depth `depth`. */
  function Cte(s: string, q: Quote, depth: nat): QueryType
    decreases |s|
  {
    if s == [] then SELECT
    else if q != Normal || Opened(s[0]) != Normal then
      var (k, q') := SimpleMove(s, q); Cte(s[k..], q', depth)
    else if s[0] == '(' then Cte(s[1..], Normal, depth + 1)
    else if s[0] == ')' then Cte(s[1..], Normal, if depth > 0 then depth - 1 else 0)
    else if depth == 0 && IsAlpha(s[0]) then
      var n := WordLength(s);
      match CteWord(s[..n])
      case Some(t) => t
      case None => Cte(s[n..], Normal, 0)
    else Cte(s[1..], Normal, depth)
  }

  function ClassifyOne(stmt: string): QueryType {
    var kw := FirstKeyword(stmt);
    if kw == [] then UNKNOWN
    else if kw == "with" then Cte(SkipPadding(stmt), Normal, 0)
    else if kw in KEYWORDS then KEYWORDS[kw] else UNKNOWN
  }

  /** The first write of a batch, else its first known type. */
  function Batch(stmts: seq<string>, firstKnown: QueryType): QueryType {
    if stmts == [] then firstKnown
    else
      var t := ClassifyOne(stmts[0]);
      if IsWrite(t) then t
      else Batch(stmts[1..], if firstKnown == UNKNOWN then t else firstKnown)
  }

  function Classify(sql: string): QueryType {
    var stmts := Split(Strip(sql, Normal));
    if |stmts| == 1 then ClassifyOne(stmts[0]) else Batch(stmts, UNKNOWN)
  }

  // ---- The loops ----

  method ClassifyCte(s: string) returns (t: QueryType)
    ensures t == Cte(s, Normal, 0)
  {
    hide SimpleMove, CteWord, WordLength;
    var q, depth, i := Normal, 0, 0;
    assert s[0..] == s;
    while i < |s|
      invariant 0 <= i <= |s| && 0 <= depth
      invariant Cte(s[i..], q, depth) == Cte(s, Normal, 0)
    {
      var c := s[i];
      assert s[i..][0] == c && s[i..][1..] == s[i + 1..];
      if q != Normal || Opened(c) != Normal {
        var k, q' := SimpleMoveAt(s, i, q);
        assert s[i..][k..] == s[i + k..];
        i, q := i + k, q';
      } else if c == '(' {
        depth, i := depth + 1, i + 1;
      } else if c == ')' {
        depth, i := if depth > 0 then depth - 1 else 0, i + 1;
      } else if depth == 0 && IsAlpha(c) {
        var n := ReadWord(s, i);
        assert s[i..][n..] == s[i + n..] && s[i..][..n] == s[i..i + n];
        match CteWord(s[i..i + n])
        case Some(found) => return found;
        case None =>
        i := i + n;
      } else {
        i := i + 1;
      }
    }
    t := SELECT;
  }

  method ReadWord(s: string, i: nat) returns (n: nat)
    requires i < |s|
    ensures n == WordLength(s[i..])
  {
    n := 0;
    while i + n < |s| && IsWord(s[i + n])
      invariant i + n <= |s|
      invariant n + WordLength(s[i + n..]) == WordLength(s[i..])
    {
      assert s[i + n..][1..] == s[i + n + 1..];
      n := n + 1;
    }
  }

  method ReadFirstKeyword(s: string) returns (kw: string)
    ensures kw == FirstKeyword(s)
  {
    hide SkipPadding, AlphaLength;
    var i := PaddingEnd(s);
    var t := s[i..];
    AlphaStart(t);
    var n := 0;
    kw := "";
    while n < |t| && IsAlpha(t[n])
      invariant 0 <= n <= |t| && n <= BUFFER
      invariant n + AlphaLength(t[n..]) == AlphaLength(t)
      invariant kw == LowerAll(t[..n])
    {
      AlphaMore(t, n);
      if n >= BUFFER {
        return "";
      }
      kw := kw + [Lower(t[n])];
      n := n + 1;
    }
    AlphaEnd(t, n);
  }

  method PaddingEnd(s: string) returns (i: nat)
    ensures i <= |s| && s[i..] == SkipPadding(s)
  {
    i := 0;
    assert s[0..] == s;
    while i < |s| && IsPadding(s[i])
      invariant 0 <= i <= |s|
      invariant SkipPadding(s[i..]) == SkipPadding(s)
    {
      assert s[i..][1..] == s[i + 1..];
      i := i + 1;
    }
  }

  lemma AlphaStart(t: string)
    ensures AlphaLength(t[0..]) == AlphaLength(t)
  {
    assert t[0..] == t;
  }

  lemma AlphaMore(t: string, n: nat)
    requires n < |t| && IsAlpha(t[n])
    ensures AlphaLength(t[n..]) == 1 + AlphaLength(t[n + 1..])
  {
    assert t[n..][1..] == t[n + 1..];
  }

  lemma AlphaEnd(t: string, n: nat)
    requires n <= |t| && (n < |t| ==> !IsAlpha(t[n]))
    ensures AlphaLength(t[n..]) == 0
  {
  }

  /** classify_one: the keyword table, and the look-ahead for WITH. */
  method ClassifyStatement(stmt: string) returns (t: QueryType)
    ensures t == ClassifyOne(stmt)
  {
    hide FirstKeyword, SkipPadding, Cte;
    var kw := ReadFirstKeyword(stmt);
    if kw == [] {
      return UNKNOWN;
    }
    if kw == "with" {
      var i := PaddingEnd(stmt);
      t := ClassifyCte(stmt[i..]);
      return;
    }
    t := if kw in KEYWORDS then KEYWORDS[kw] else UNKNOWN;
  }

  method ClassifyBatch(stmts: seq<string>) returns (t: QueryType)
    ensures t == Batch(stmts, UNKNOWN)
  {
    hide ClassifyOne;
    var first := UNKNOWN;
    assert stmts[0..] == stmts;
    for i := 0 to |stmts|
      invariant Batch(stmts[i..], first) == Batch(stmts, UNKNOWN)
    {
      assert stmts[i..][1..] == stmts[i + 1..];
      var u := ClassifyStatement(stmts[i]);
      if u == UNKNOWN {
        continue;
      }
      if first == UNKNOWN {
        first := u;
      }
      if IsWrite(u) {
        return u;
      }
    }
    t := first;
  }

  method ClassifySql(sql: string) returns (t: QueryType)
    ensures t == Classify(sql)
  {
    var cleaned := StripComments(sql);
    var stmts := SplitStatements(cleaned);
    if |stmts| == 0 {
      return UNKNOWN;
    }
    if |stmts| == 1 {
      t := ClassifyStatement(stmts[0]);
      return;
    }
    t := ClassifyBatch(stmts);
  }

  // ---- Escalation ----

  ghost predicate HasWrite(stmts: seq<string>) {
    exists i :: 0 <= i < |stmts| && IsWrite(ClassifyOne(stmts[i]))
  }

  lemma {:induction false} BatchEscalates(stmts: seq<string>, first: QueryType)
    requires !IsWrite(first)
    ensures IsWrite(Batch(stmts, first)) <==> HasWrite(stmts)
    decreases |stmts|
  {
    hide ClassifyOne;
    if stmts != [] {
      var t := ClassifyOne(stmts[0]);
      if !IsWrite(t) {
        BatchEscalates(stmts[1..], if first == UNKNOWN then t else first);
        if HasWrite(stmts) {
          var i :| 0 <= i < |stmts| && IsWrite(ClassifyOne(stmts[i]));
          assert stmts[1..][i - 1] == stmts[i];
        }
        if HasWrite(stmts[1..]) {
          var i :| 0 <= i < |stmts[1..]| && IsWrite(ClassifyOne(stmts[1..][i]));
          assert stmts[i + 1] == stmts[1..][i];
        }
      }
    }
  }

  /** A batch classifies as a write exactly when one of its statements does. */
  lemma WriteExactlyWhenSomeStatementWrites(sql: string)
    ensures IsWrite(Classify(sql)) <==> HasWrite(Split(Strip(sql, Normal)))
  {
    hide ClassifyOne, Split, Strip;
    var stmts := Split(Strip(sql, Normal));
    BatchEscalates(stmts, UNKNOWN);
  }
}
