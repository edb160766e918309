/** Changing the case of letters anywhere in the SQL never changes its classification. */
module LetterCase {
  import opened SqlText
  import opened CommentScanner
  import opened StatementSplitter
  import opened QueryClassifier

  lemma CaseAt(s: string, t: string, i: nat)
    requires SameButCase(s, t) && i < |s|
    ensures i < |t| && IsSpace(s[i]) == IsSpace(t[i]) && IsAlpha(s[i]) == IsAlpha(t[i]) && IsWord(s[i]) == IsWord(t[i])
    ensures Opened(s[i]) == Opened(t[i])
    ensures |s| == |t| && (!IsAlpha(s[i]) ==> s[i] == t[i])
  {
    CaseOfChar(s[i], t[i]);
  }

  lemma {:induction false} CaseLine(s: string, t: string)
    requires SameButCase(s, t)
    ensures LineLength(s) == LineLength(t)
  {
    if s != [] {
      CaseAt(s, t, 0);
      CaseTail(s, t, 1);
      CaseLine(s[1..], t[1..]);
    }
  }

  lemma {:induction false} CaseBlock(s: string, t: string)
    requires SameButCase(s, t)
    ensures BlockLength(s) == BlockLength(t)
  {
    if |s| >= 2 {
      CaseAt(s, t, 0);
      CaseAt(s, t, 1);
      CaseTail(s, t, 1);
      CaseBlock(s[1..], t[1..]);
    }
  }

  lemma CaseSelf(s: string)
    ensures SameButCase(s, s)
  {
  }

  lemma PunctuationIsNotAlpha()
    ensures !IsAlpha('-') && !IsAlpha('#') && !IsAlpha('/') && !IsAlpha('*') && !IsAlpha('\\')
    ensures !IsAlpha('\0') && !IsAlpha('\'') && !IsAlpha('"') && !IsAlpha('`')
  {
  }

  lemma CaseStripMove(s: string, t: string, q: Quote)
    requires SameButCase(s, t) && s != []
    ensures var m, n := StripMove(s, q), StripMove(t, q);
            m.taken == n.taken && m.next == n.next && SameButCase(m.emitted, n.emitted)
  {
    hide LineLength, BlockLength, SameButCase, IsAlpha;
    CaseAt(s, t, 0);
    CaseLine(s, t);
    CaseTail(s, t, 1);
    assert s[..1] == [s[0]] && t[..1] == [t[0]];
    assert SameButCase(" ", " ") by { CaseSelf(" "); }
    PunctuationIsNotAlpha();
    if |s| > 1 {
      CaseAt(s, t, 1);
      CaseTail(s, t, 2);
      CaseBlock(s[2..], t[2..]);
    }
  }

  lemma {:induction false} CaseStrip(s: string, t: string, q: Quote)
    requires SameButCase(s, t)
    ensures SameButCase(Strip(s, q), Strip(t, q))
    decreases |s|
  {
    hide StripMove;
    if s != [] {
      CaseStripMove(s, t, q);
      var m, n := StripMove(s, q), StripMove(t, q);
      CaseTail(s, t, m.taken);
      CaseStrip(s[m.taken..], t[m.taken..], m.next);
      CaseConcat(m.emitted, Strip(s[m.taken..], m.next), n.emitted, Strip(t[m.taken..], m.next));
    }
  }

  lemma CaseSimpleMove(s: string, t: string, q: Quote)
    requires SameButCase(s, t) && s != []
    ensures SimpleMove(s, q) == SimpleMove(t, q)
  {
    CaseAt(s, t, 0);
  }

  /** Pairwise equal up to case. */
  ghost predicate SameLists(ps: seq<string>, qs: seq<string>) {
    |ps| == |qs| && forall i :: 0 <= i < |ps| ==> SameButCase(ps[i], qs[i])
  }

  lemma CasePrepend(x: string, y: string, ps: seq<string>, qs: seq<string>)
    requires SameButCase(x, y) && ps != [] && SameLists(ps, qs)
    ensures SameLists(Prepend(x, ps), Prepend(y, qs))
  {
    CaseConcat(x, ps[0], y, qs[0]);
  }

  lemma {:induction false} CasePieces(s: string, t: string, q: Quote)
    requires SameButCase(s, t)
    ensures SameLists(Pieces(s, q), Pieces(t, q))
    decreases |s|
  {
    if s != [] {
      CaseAt(s, t, 0);
      CaseTail(s, t, 1);
      if q == Normal && s[0] == ';' {
        CasePieces(s[1..], t[1..], Normal);
      } else {
        CaseSimpleMove(s, t, q);
        var (k, q') := SimpleMove(s, q);
        CaseTail(s, t, k);
        CasePieces(s[k..], t[k..], q');
        CasePrepend(s[..k], t[..k], Pieces(s[k..], q'), Pieces(t[k..], q'));
      }
    }
  }

  lemma {:induction false} CaseTrimLeft(s: string, t: string)
    requires SameButCase(s, t)
    ensures SameButCase(TrimLeft(s), TrimLeft(t))
  {
    if s != [] {
      CaseAt(s, t, 0);
      CaseTail(s, t, 1);
      CaseTrimLeft(s[1..], t[1..]);
    }
  }

  lemma {:induction false} CaseTrimRight(s: string, t: string)
    requires SameButCase(s, t)
    ensures SameButCase(TrimRight(s), TrimRight(t))
  {
    if s != [] {
      CaseAt(s, t, |s| - 1);
      CaseTail(s, t, |s| - 1);
      CaseTrimRight(s[..|s| - 1], t[..|s| - 1]);
    }
  }

  lemma {:induction false} CaseStatements(ps: seq<string>, qs: seq<string>)
    requires SameLists(ps, qs)
    ensures SameLists(Statements(ps), Statements(qs))
  {
    hide Trim, SameButCase;
    if ps != [] {
      CaseTrim(ps[0], qs[0]);
      CaseStatements(ps[1..], qs[1..]);
    }
  }

  lemma CaseTrim(s: string, t: string)
    requires SameButCase(s, t)
    ensures SameButCase(Trim(s), Trim(t)) && |Trim(s)| == |Trim(t)|
  {
    CaseTrimLeft(s, t);
    CaseTrimRight(TrimLeft(s), TrimLeft(t));
  }

  lemma {:induction false} CaseSkipPadding(s: string, t: string)
    requires SameButCase(s, t)
    ensures SameButCase(SkipPadding(s), SkipPadding(t))
  {
    if s != [] {
      CaseAt(s, t, 0);
      CaseTail(s, t, 1);
      CaseSkipPadding(s[1..], t[1..]);
    }
  }

  lemma {:induction false} CaseLengths(s: string, t: string)
    requires SameButCase(s, t)
    ensures AlphaLength(s) == AlphaLength(t) && WordLength(s) == WordLength(t)
  {
    if s != [] {
      CaseAt(s, t, 0);
      CaseTail(s, t, 1);
      CaseLengths(s[1..], t[1..]);
    }
  }

  lemma CaseLowerAll(s: string, t: string)
    requires SameButCase(s, t)
    ensures LowerAll(s) == LowerAll(t)
  {
  }

  lemma CaseFirstKeyword(s: string, t: string)
    requires SameButCase(s, t)
    ensures FirstKeyword(s) == FirstKeyword(t)
  {
    CaseSkipPadding(s, t);
    var s', t' := SkipPadding(s), SkipPadding(t);
    CaseLengths(s', t');
    CaseTail(s', t', AlphaLength(s'));
    CaseLowerAll(s'[..AlphaLength(s')], t'[..AlphaLength(s')]);
  }

  lemma CaseCteWord(s: string, t: string)
    requires SameButCase(s, t)
    ensures CteWord(s) == CteWord(t)
  {
    CaseLowerAll(s, t);
  }

  lemma {:induction false} CaseCte(s: string, t: string, q: Quote, depth: nat)
    requires SameButCase(s, t)
    ensures Cte(s, q, depth) == Cte(t, q, depth)
    decreases |s|
  {
    hide CteWord, WordLength, SameButCase;
    CaseTail(s, t, 0);
    if s != [] {
      CaseAt(s, t, 0);
      CaseSimpleMove(s, t, q);
      var (k, q') := SimpleMove(s, q);
      CaseTail(s, t, k);
      if q == Normal && Opened(s[0]) == Normal && depth == 0 && IsAlpha(s[0]) {
        var n := WordLength(s);
        CaseLengths(s, t);
        CaseTail(s, t, n);
        CaseCteWord(s[..n], t[..n]);
        CaseCte(s[n..], t[n..], Normal, 0);
      } else {
        var d := if q == Normal && s[0] == '(' then depth + 1
                 else if q == Normal && s[0] == ')' && depth > 0 then depth - 1 else depth;
        CaseCte(s[k..], t[k..], q', d);
      }
    }
  }

  lemma CaseClassifyOne(s: string, t: string)
    requires SameButCase(s, t)
    ensures ClassifyOne(s) == ClassifyOne(t)
  {
    hide FirstKeyword, Cte, SkipPadding;
    CaseFirstKeyword(s, t);
    CaseSkipPadding(s, t);
    CaseCte(SkipPadding(s), SkipPadding(t), Normal, 0);
  }

  lemma {:induction false} CaseBatch(ps: seq<string>, qs: seq<string>, first: QueryType)
    requires SameLists(ps, qs)
    ensures Batch(ps, first) == Batch(qs, first)
    decreases |ps|
  {
    hide ClassifyOne;
    if ps != [] {
      CaseClassifyOne(ps[0], qs[0]);
      var t := ClassifyOne(ps[0]);
      CaseBatch(ps[1..], qs[1..], if first == UNKNOWN then t else first);
    }
  }

  /** Classification is blind to letter case. */
  lemma ClassifyIgnoresCase(s: string, t: string)
    requires SameButCase(s, t)
    ensures Classify(s) == Classify(t)
  {
    hide Strip, Pieces, Statements, ClassifyOne, Batch;
    CaseStrip(s, t, Normal);
    CasePieces(Strip(s, Normal), Strip(t, Normal), Normal);
    CaseStatements(Pieces(Strip(s, Normal), Normal), Pieces(Strip(t, Normal), Normal));
    var ps, qs := Split(Strip(s, Normal)), Split(Strip(t, Normal));
    if |ps| == 1 {
      CaseClassifyOne(ps[0], qs[0]);
    } else {
      CaseBatch(ps, qs, UNKNOWN);
    }
  }
}
