/** Cutting a batch at its top-level semicolons, with the scanner that reopens on doubled quotes. */
module StatementSplitter {
  import opened SqlText
  import opened CommentScanner

  /** One character, or an escaped pair, and the quote state after it. */
  function SimpleMove(s: string, q: Quote): (r: (nat, Quote))
    requires s != []
    ensures 1 <= r.0 <= |s|
  {
    if q == Normal then (1, Opened(s[0]))
    else if Escapes(s[0], q) then (if |s| == 1 then 1 else 2, q)
    else (1, Closed(s[0], q))
  }

  /** Puts text in front of the first piece. */
  function Prepend(x: string, ps: seq<string>): (r: seq<string>)
    requires ps != []
    ensures |r| == |ps|
  {
    [x + ps[0]] + ps[1..]
  }

  /** The raw pieces between top-level semicolons, reading from state `q`. */
  function Pieces(s: string, q: Quote): (r: seq<string>)
    ensures r != []
    decreases |s|
  {
    if s == [] then [[]]
    else if q == Normal && s[0] == ';' then [[]] + Pieces(s[1..], Normal)
    else var (k, q') := SimpleMove(s, q); Prepend(s[..k], Pieces(s[k..], q'))
  }

  function TrimLeft(s: string): (r: string)
    ensures |r| <= |s| && r == s[|s| - |r|..]
    ensures r != [] ==> !IsSpace(r[0])
  {
    if s != [] && IsSpace(s[0]) then TrimLeft(s[1..]) else s
  }

  function TrimRight(s: string): (r: string)
    ensures |r| <= |s| && r == s[..|r|]
    ensures r != [] ==> !IsSpace(r[|r| - 1])
  {
    if s != [] && IsSpace(s[|s| - 1]) then TrimRight(s[..|s| - 1]) else s
  }

  function Trim(s: string): string { TrimRight(TrimLeft(s)) }

  /** The trimmed pieces that are not blank. */
  function Statements(ps: seq<string>): seq<string> {
    if ps == [] then []
    else (if Trim(ps[0]) == [] then [] else [Trim(ps[0])]) + Statements(ps[1..])
  }

  function Split(s: string): seq<string> { Statements(Pieces(s, Normal)) }

  // ---- The loops ----

  lemma {:induction false} TrimLeftAt(s: string, a: nat)
    requires a <= |s| && (forall j :: 0 <= j < a ==> IsSpace(s[j])) && (a < |s| ==> !IsSpace(s[a]))
    ensures TrimLeft(s) == s[a..]
  {
    if a > 0 {
      TrimLeftAt(s[1..], a - 1);
    }
  }

  lemma {:induction false} TrimRightAt(s: string, b: nat)
    requires b <= |s| && (forall j :: b <= j < |s| ==> IsSpace(s[j])) && (b > 0 ==> !IsSpace(s[b - 1]))
    ensures TrimRight(s) == s[..b]
  {
    if b < |s| {
      TrimRightAt(s[..|s| - 1], b);
    }
  }

  method TrimLoop(s: string) returns (r: string)
    ensures r == Trim(s)
  {
    hide TrimLeft, TrimRight;
    var a, b := 0, |s|;
    while a < b && IsSpace(s[a])
      invariant 0 <= a <= b == |s|
      invariant forall j :: 0 <= j < a ==> IsSpace(s[j])
    {
      a := a + 1;
    }
    TrimLeftAt(s, a);
    while b > a && IsSpace(s[b - 1])
      invariant a <= b <= |s|
      invariant forall j :: b <= j < |s| ==> IsSpace(s[j])
    {
      b := b - 1;
    }
    TrimRightAt(s[a..], b - a);
    r := s[a..b];
  }

  method SplitStatements(s: string) returns (out: seq<string>)
    ensures out == Split(s)
  {
    hide Trim, Pieces, SimpleMove, Statements, Prepend;
    out := [];
    var q := Normal;
    var start, i := 0, 0;
    assert s[0..] == s && s[0..0] == [];
    PrependNothing(Pieces(s, Normal));
    while i < |s|
      invariant 0 <= start <= i <= |s|
      invariant out + Statements(Prepend(s[start..i], Pieces(s[i..], q))) == Split(s)
    {
      if q == Normal && s[i] == ';' {
        PiecesAtSemicolon(s[i..]);
        assert s[i..][1..] == s[i + 1..];
        var t := TrimLoop(s[start..i]);
        SplitsHere(s[start..i], Pieces(s[i + 1..], Normal));
        if t != [] {
          out := out + [t];
        }
        i := i + 1;
        start := i;
        assert s[start..i] == [];
      } else {
        var k, q' := SimpleMoveAt(s, i, q);
        PiecesStep(s[i..], q);
        assert s[i..][k..] == s[i + k..] && s[i..][..k] == s[i..i + k];
        assert s[start..i] + s[i..i + k] == s[start..i + k];
        PrependTwice(s[start..i], s[i..i + k], Pieces(s[i + k..], q'));
        i, q := i + k, q';
      }
    }
    var t := TrimLoop(s[start..]);
    assert s[i..] == [] && s[start..i] == s[start..];
    LastPiece(s[start..], q);
    if t != [] {
      out := out + [t];
    }
  }

  method SimpleMoveAt(s: string, i: nat, q: Quote) returns (k: nat, q': Quote)
    requires i < |s|
    ensures (k, q') == SimpleMove(s[i..], q)
  {
    var c := s[i];
    if q == Normal {
      k, q' := 1, Opened(c);
    } else if Escapes(c, q) {
      k, q' := if i + 1 < |s| then 2 else 1, q;
    } else {
      k, q' := 1, Closed(c, q);
    }
  }

  lemma PiecesAtSemicolon(s: string)
    requires s != [] && s[0] == ';'
    ensures Pieces(s, Normal) == [[]] + Pieces(s[1..], Normal)
  {
  }

  lemma PiecesStep(s: string, q: Quote)
    requires s != [] && !(q == Normal && s[0] == ';')
    ensures var (k, q') := SimpleMove(s, q); Pieces(s, q) == Prepend(s[..k], Pieces(s[k..], q'))
  {
  }

  lemma SplitsHere(p: string, ps: seq<string>)
    requires ps != []
    ensures Statements(Prepend(p, [[]] + ps)) == (if Trim(p) == [] then [] else [Trim(p)]) + Statements(Prepend([], ps))
  {
    var qs := [[]] + ps;
    assert p + qs[0] == p && qs[1..] == ps;
    assert Prepend(p, qs)[1..] == ps;
    PrependNothing(ps);
  }

  lemma PrependNothing(ps: seq<string>)
    requires ps != []
    ensures Prepend([], ps) == ps
  {
    assert [] + ps[0] == ps[0];
  }

  lemma LastPiece(p: string, q: Quote)
    ensures Statements(Prepend(p, Pieces([], q))) == if Trim(p) == [] then [] else [Trim(p)]
  {
    assert p + [] == p;
    assert Prepend(p, [[]]) == [p];
  }

  lemma PrependTwice(a: string, b: string, ps: seq<string>)
    requires ps != []
    ensures Prepend(a, Prepend(b, ps)) == Prepend(a + b, ps)
  {
    assert a + (b + ps[0]) == a + b + ps[0];
  }

  // ---- The pieces are the text, cut at its top-level semicolons ----

  function Join(ps: seq<string>): string
    requires ps != []
  {
    if |ps| == 1 then ps[0] else ps[0] + ";" + Join(ps[1..])
  }

  lemma JoinPrepend(x: string, ps: seq<string>)
    requires ps != []
    ensures Join(Prepend(x, ps)) == x + Join(ps)
  {
    assert Prepend(x, ps)[1..] == ps[1..];
    if |ps| > 1 {
      assert x + ps[0] + ";" + Join(ps[1..]) == x + (ps[0] + ";" + Join(ps[1..]));
    }
  }

  /** Joined with semicolons, the raw pieces give the input back. */
  lemma {:induction false} JoinPieces(s: string, q: Quote)
    ensures Join(Pieces(s, q)) == s
    decreases |s|
  {
    if s != [] {
      if q == Normal && s[0] == ';' {
        JoinPieces(s[1..], Normal);
        PiecesAtSemicolon(s);
        assert ([[]] + Pieces(s[1..], Normal))[1..] == Pieces(s[1..], Normal);
      } else {
        var (k, q') := SimpleMove(s, q);
        JoinPieces(s[k..], q');
        PiecesStep(s, q);
        JoinPrepend(s[..k], Pieces(s[k..], q'));
      }
    }
  }

  /** No semicolon outside quotes. */
  predicate NoTop(s: string, q: Quote)
    decreases |s|
  {
    s == [] || (!(q == Normal && s[0] == ';') && var (k, q') := SimpleMove(s, q); NoTop(s[k..], q'))
  }

  lemma {:induction false} NoTopIsOnePiece(s: string, q: Quote)
    requires NoTop(s, q)
    ensures Pieces(s, q) == [s]
    decreases |s|
  {
    if s != [] {
      var (k, q') := SimpleMove(s, q);
      NoTopIsOnePiece(s[k..], q');
      assert s[..k] + s[k..] == s;
    }
  }

  lemma {:induction false} NoTopPrefix(s: string, q: Quote, n: nat)
    requires NoTop(s, q) && n <= |s|
    ensures NoTop(s[..n], q)
    decreases |s|
  {
    if n > 0 {
      var (k, q') := SimpleMove(s, q);
      if n >= k {
        NoTopPrefix(s[k..], q', n - k);
        assert s[..n][k..] == s[k..][..n - k];
      } else {
        assert NoTop(s[..n][1..], q');
      }
    }
  }

  lemma {:induction false} NoTopTrimLeft(s: string)
    requires NoTop(s, Normal)
    ensures NoTop(TrimLeft(s), Normal)
  {
    if s != [] && IsSpace(s[0]) {
      NoTopTrimLeft(s[1..]);
    }
  }

  /** Each piece is free of top-level semicolons, the first one reading from `q`. */
  lemma {:induction false} PiecesHaveNoTop(s: string, q: Quote, i: nat)
    requires i < |Pieces(s, q)|
    ensures NoTop(Pieces(s, q)[i], if i == 0 then q else Normal)
    decreases |s|
  {
    if s != [] {
      if q == Normal && s[0] == ';' {
        if i > 0 {
          PiecesHaveNoTop(s[1..], Normal, i - 1);
        }
      } else {
        var (k, q') := SimpleMove(s, q);
        PiecesStep(s, q);
        var rest := Pieces(s[k..], q');
        PiecesHaveNoTop(s[k..], q', i);
        if i == 0 {
          FirstMoveKept(s, q, rest[0]);
        }
      }
    }
  }

  lemma FirstMoveKept(s: string, q: Quote, r: string)
    requires s != [] && !(q == Normal && s[0] == ';')
    requires var (k, q') := SimpleMove(s, q); NoTop(r, q') && (k == |s| ==> r == [])
    ensures NoTop(s[..SimpleMove(s, q).0] + r, q)
  {
    var (k, q') := SimpleMove(s, q);
    var t := s[..k] + r;
    assert t[k..] == r;
    assert SimpleMove(t, q) == (k, q');
  }

  lemma TrimIsTrimmed(s: string)
    requires s != [] && !IsSpace(s[0]) && !IsSpace(s[|s| - 1])
    ensures Trim(s) == s
  {
  }

  lemma {:induction false} StatementsOrigin(ps: seq<string>, e: string) returns (i: nat)
    requires e in Statements(ps)
    ensures i < |ps| && Trim(ps[i]) == e && e != []
  {
    hide Trim;
    if Trim(ps[0]) != [] && e == Trim(ps[0]) {
      i := 0;
    } else {
      var j := StatementsOrigin(ps[1..], e);
      i := j + 1;
    }
  }

  lemma TrimmedPiece(p: string)
    requires NoTop(p, Normal) && Trim(p) != []
    ensures NoTop(Trim(p), Normal) && Trim(Trim(p)) == Trim(p)
  {
    hide NoTop;
    NoTopTrimLeft(p);
    var t, e := TrimLeft(p), Trim(p);
    NoTopPrefix(t, Normal, |e|);
    assert e == t[..|e|] && e[0] == t[0];
    hide TrimLeft, TrimRight;
    TrimIsTrimmed(e);
  }

  /** Every emitted statement is non-blank, trimmed, free of top-level semicolons, and splits into itself. */
  lemma SplitIsFinal(s: string, e: string)
    requires e in Split(s)
    ensures e != [] && Trim(e) == e && NoTop(e, Normal) && Split(e) == [e]
  {
    hide Pieces, Statements, Trim, NoTop;
    var i := StatementsOrigin(Pieces(s, Normal), e);
    PiecesHaveNoTop(s, Normal, i);
    TrimmedPiece(Pieces(s, Normal)[i]);
    NoTopIsOnePiece(e, Normal);
    OneStatement(e);
  }

  lemma OneStatement(e: string)
    requires e != [] && Trim(e) == e
    ensures Statements([e]) == [e]
  {
  }
}
