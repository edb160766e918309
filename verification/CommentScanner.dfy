/**
 Removing comments from SQL.  `Lex` is the reference: it cuts the text into code
 characters, comments and literals.  `Strip` is what the scanner computes.
*/
module CommentScanner {
  import opened SqlText

  // ---- The scanner ----

  predicate LineCommentAt(s: string) {
    s != [] && (s[0] == '#' || (s[0] == '-' && |s| > 1 && s[1] == '-'))
  }

  predicate BlockCommentAt(s: string) {
    |s| > 1 && s[0] == '/' && s[1] == '*'
  }

  /** How far the line goes, its newline included. */
  function LineLength(s: string): (n: nat)
    ensures n <= |s| && (s != [] ==> n > 0)
  {
    if s == [] then 0 else if s[0] == '\n' then 1 else 1 + LineLength(s[1..])
  }

  /** How far the first star-slash goes; to the end if there is none. */
  function BlockLength(s: string): (n: nat)
    ensures n <= |s|
  {
    if |s| < 2 then |s| else if s[0] == '*' && s[1] == '/' then 2 else 1 + BlockLength(s[1..])
  }

  /** One turn of the scanner's loop: how much it takes, what it emits, the state it leaves. */
  datatype Move = Move(taken: nat, emitted: string, next: Quote)

  function StripMove(s: string, q: Quote): (m: Move)
    requires s != []
    ensures 1 <= m.taken <= |s|
  {
    if q == Normal then
      if LineCommentAt(s) then Move(LineLength(s), " ", Normal)
      else if BlockCommentAt(s) then Move(2 + BlockLength(s[2..]), " ", Normal)
      else Move(1, [s[0]], Opened(s[0]))
    else if Escapes(s[0], q) then
      if |s| > 1 && s[1] != '\0' then Move(2, s[..2], q) else Move(1, [s[0]], q)
    else if s[0] == QuoteChar(q) && |s| > 1 && s[1] == QuoteChar(q) then Move(2, s[..2], q)
    else Move(1, [s[0]], Closed(s[0], q))
  }

  function Strip(s: string, q: Quote): string
    decreases |s|
  {
    if s == [] then []
    else var m := StripMove(s, q); m.emitted + Strip(s[m.taken..], m.next)
  }

  method StripComments(s: string) returns (out: string)
    ensures out == Strip(s, Normal)
  {
    hide StripMove;
    assert s[0..] == s;
    out := "";
    var q := Normal;
    var i := 0;
    while i < |s|
      invariant 0 <= i <= |s|
      invariant out + Strip(s[i..], q) == Strip(s, Normal)
    {
      var taken, emitted, next := StripOnce(s, i, q);
      assert s[i..][taken..] == s[i + taken..];
      out := out + emitted;
      i, q := i + taken, next;
    }
  }

  /** The body of the loop, at index `i`. */
  method StripOnce(s: string, i: nat, q: Quote) returns (taken: nat, emitted: string, next: Quote)
    requires i < |s|
    ensures Move(taken, emitted, next) == StripMove(s[i..], q)
  {
    var c := s[i];
    var n := if i + 1 < |s| then s[i + 1] else '\0';
    assert s[i..][0] == c && (i + 1 < |s| ==> s[i..][1] == n && s[i..][..2] == [c, n] && s[i..][2..] == s[i + 2..]);
    taken, emitted, next := 1, [c], q;
    if q == Normal {
      if (c == '-' && n == '-') || c == '#' {
        var j := SkipLine(s, i);
        taken, emitted := j - i, " ";
      } else if c == '/' && n == '*' {
        var j := SkipBlock(s, i + 2);
        taken, emitted := j - i, " ";
      } else {
        next := Opened(c);
      }
    } else if Escapes(c, q) {
      if n != '\0' {
        taken, emitted := 2, [c, n];
      }
    } else if c == QuoteChar(q) && n == QuoteChar(q) {
      taken, emitted := 2, [c, n];
    } else {
      next := Closed(c, q);
    }
  }

  method SkipLine(s: string, start: nat) returns (i: nat)
    requires start < |s|
    ensures start < i <= |s| && i == start + LineLength(s[start..])
  {
    i := start;
    while i < |s| && s[i] != '\n'
      invariant start <= i <= |s|
      invariant i + LineLength(s[i..]) == start + LineLength(s[start..])
    {
      assert s[i..][1..] == s[i + 1..];
      i := i + 1;
    }
    if i < |s| {
      i := i + 1;
    }
  }

  method SkipBlock(s: string, start: nat) returns (i: nat)
    requires start <= |s|
    ensures start <= i <= |s| && i == start + BlockLength(s[start..])
  {
    i := start;
    while i + 1 < |s| && !(s[i] == '*' && s[i + 1] == '/')
      invariant start <= i <= |s|
      invariant i + BlockLength(s[i..]) == start + BlockLength(s[start..])
    {
      assert s[i..][1..] == s[i + 1..];
      i := i + 1;
    }
    if i + 1 < |s| {
      i := i + 2;
    } else {
      i := |s|;
    }
  }

  // ---- The reference ----

  datatype Token = Code(c: char) | Comment(text: string) | Literal(text: string)

  /** The next element of a literal: how long it is, and whether it is the closing quote. */
  function LiteralStep(s: string, q: Quote): (r: (nat, bool))
    requires q != Normal && s != []
    ensures 1 <= r.0 <= |s|
  {
    if Escapes(s[0], q) then (if |s| == 1 then 1 else 2, false)
    else if s[0] != QuoteChar(q) then (1, false)
    else if |s| > 1 && s[1] == QuoteChar(q) then (2, false)
    else (1, true)
  }

  /** How much of `s`, standing just after an opening quote, belongs to the literal, and whether it is closed. */
  function LiteralRest(s: string, q: Quote): (r: (nat, bool))
    requires q != Normal
    ensures r.0 <= |s|
    ensures !r.1 ==> r.0 == |s|
    decreases |s|
  {
    if s == [] then (0, false)
    else
      var (k, closed) := LiteralStep(s, q);
      if closed then (k, true) else var r := LiteralRest(s[k..], q); (k + r.0, r.1)
  }

  function Lex(s: string): seq<Token>
    decreases |s|
  {
    if s == [] then []
    else if LineCommentAt(s) then var n := LineLength(s); [Comment(s[..n])] + Lex(s[n..])
    else if BlockCommentAt(s) then var n := 2 + BlockLength(s[2..]); [Comment(s[..n])] + Lex(s[n..])
    else if Opened(s[0]) != Normal then
      var n := 1 + LiteralRest(s[1..], Opened(s[0])).0;
      [Literal(s[..n])] + Lex(s[n..])
    else [Code(s[0])] + Lex(s[1..])
  }

  function Text(t: Token): string {
    match t
    case Code(c) => [c]
    case Comment(text) => text
    case Literal(text) => text
  }

  /** A comment leaves one blank; everything else is copied byte for byte. */
  function Shown(t: Token): string {
    if t.Comment? then " " else Text(t)
  }

  function TextOf(ts: seq<Token>): string {
    if ts == [] then [] else Text(ts[0]) + TextOf(ts[1..])
  }

  function ShownOf(ts: seq<Token>): string {
    if ts == [] then [] else Shown(ts[0]) + ShownOf(ts[1..])
  }

  /** Cutting into tokens loses nothing. */
  lemma {:induction false} LexIsLossless(s: string)
    ensures TextOf(Lex(s)) == s
    decreases |s|
  {
    if s != [] {
      if LineCommentAt(s) {
        var n := LineLength(s);
        LexIsLossless(s[n..]);
        assert s == s[..n] + s[n..];
      } else if BlockCommentAt(s) {
        var n := 2 + BlockLength(s[2..]);
        LexIsLossless(s[n..]);
        assert s == s[..n] + s[n..];
      } else if Opened(s[0]) != Normal {
        var n := 1 + LiteralRest(s[1..], Opened(s[0])).0;
        LexIsLossless(s[n..]);
        assert s == s[..n] + s[n..];
      } else {
        LexIsLossless(s[1..]);
      }
    }
  }

  /** Inside a literal one turn of the loop copies the next element and leaves with the closing quote. */
  lemma LiteralMove(s: string, q: Quote)
    requires q != Normal && s != [] && !(Escapes(s[0], q) && |s| > 1 && s[1] == '\0')
    ensures var (k, closed) := LiteralStep(s, q);
            Strip(s, q) == s[..k] + Strip(s[k..], if closed then Normal else q)
  {
  }

  /** Inside a literal the scanner copies up to its end. */
  lemma {:induction false} StripCopiesLiteral(s: string, q: Quote)
    requires q != Normal
    ensures var n := LiteralRest(s, q).0; Strip(s, q) == s[..n] + Strip(s[n..], Normal)
    decreases |s|
  {
    hide Strip, LiteralStep;
    if s == [] {
      assert Strip(s, q) == [] by { StripNothing(q); }
      assert Strip(s, Normal) == [] by { StripNothing(Normal); }
    } else {
      var (k, closed) := LiteralStep(s, q);
      if Escapes(s[0], q) && |s| > 1 && s[1] == '\0' {
        EscapedNul(s, q);
      } else {
        LiteralMove(s, q);
      }
      if !closed {
        var n := LiteralRest(s[k..], q).0;
        StripCopiesLiteral(s[k..], q);
        Regroup(s, k, n, Strip(s[k..][n..], Normal));
      }
    }
  }

  lemma StripNothing(q: Quote)
    ensures Strip([], q) == []
  {
  }

  lemma Regroup(s: string, k: nat, n: nat, after: string)
    requires k + n <= |s|
    ensures s[..k] + (s[k..][..n] + after) == s[..k + n] + after && s[k..][n..] == s[k + n..]
  {
    assert s[..k] + s[k..][..n] == s[..k + n];
  }

  /** A NUL byte after a backslash is copied by the next turn of the loop. */
  lemma EscapedNul(s: string, q: Quote)
    requires q != Normal && |s| > 1 && s[1] == '\0' && Escapes(s[0], q)
    ensures Strip(s, q) == s[..2] + Strip(s[2..], q)
    ensures LiteralStep(s, q) == (2, false)
  {
    var t := s[1..];
    assert StripMove(s, q) == Move(1, [s[0]], q);
    assert StripMove(t, q) == Move(1, [t[0]], q);
    assert t[1..] == s[2..];
  }

  lemma OpeningMove(s: string)
    requires s != [] && Opened(s[0]) != Normal
    ensures StripMove(s, Normal) == Move(1, [s[0]], Opened(s[0]))
  {
  }

  lemma StripLiteralToken(s: string)
    requires s != [] && Opened(s[0]) != Normal
    ensures var n := 1 + LiteralRest(s[1..], Opened(s[0])).0;
            Strip(s, Normal) == s[..n] + Strip(s[n..], Normal)
  {
    hide StripMove, LiteralRest;
    var q := Opened(s[0]);
    OpeningMove(s);
    StripCopiesLiteral(s[1..], q);
    var n := LiteralRest(s[1..], q).0;
    Regroup(s, 1, n, Strip(s[1..][n..], Normal));
  }

  lemma OtherToken(s: string) returns (t: Token)
    requires s != [] && Opened(s[0]) == Normal
    ensures var m := StripMove(s, Normal);
            Lex(s) == [t] + Lex(s[m.taken..]) && Shown(t) == m.emitted && m.next == Normal
  {
    hide LineLength, BlockLength, LiteralRest;
    t := Lex(s)[0];
  }

  /** The scanner's output is the tokens with each comment blanked and every literal intact. */
  lemma {:induction false} StripShowsTokens(s: string)
    ensures Strip(s, Normal) == ShownOf(Lex(s))
    decreases |s|
  {
    hide LiteralRest, StripMove, LineCommentAt, BlockCommentAt;
    if s != [] {
      if Opened(s[0]) != Normal {
        var n := 1 + LiteralRest(s[1..], Opened(s[0])).0;
        StripLiteralToken(s);
        StripShowsTokens(s[n..]);
        LexLiteral(s);
      } else {
        var t := OtherToken(s);
        StripShowsTokens(s[StripMove(s, Normal).taken..]);
      }
    }
  }

  lemma LexLiteral(s: string)
    requires s != [] && Opened(s[0]) != Normal
    ensures var n := 1 + LiteralRest(s[1..], Opened(s[0])).0; Lex(s) == [Literal(s[..n])] + Lex(s[n..])
  {
    hide LineLength, BlockLength, LiteralRest;
  }

  // ---- Idempotence ----

  /** The output begins with the first character, or with the blank of a comment. */
  lemma StripHead(s: string, q: Quote)
    requires s != []
    ensures Strip(s, q) != []
    ensures (Strip(s, q)[0] == s[0] || (q == Normal && Strip(s, q)[0] == ' '))
  {
  }

  /** Stripping stripped text changes nothing. */
  lemma {:induction false} StripIdempotent(s: string, q: Quote)
    ensures Strip(Strip(s, q), q) == Strip(s, q)
    decreases |s|
  {
    if s != [] {
      var m := StripMove(s, q);
      var r := Strip(s[m.taken..], m.next);
      StripIdempotent(s[m.taken..], m.next);
      MoveRepeats(s, q);
      assert (m.emitted + r)[|m.emitted|..] == r;
    }
  }

  /** On its own output the scanner makes the same move, except that a comment is now a blank. */
  lemma MoveRepeats(s: string, q: Quote)
    requires s != []
    ensures var m := StripMove(s, q);
            var out := m.emitted + Strip(s[m.taken..], m.next);
            out != [] && StripMove(out, q) == Move(|m.emitted|, m.emitted, m.next)
  {
    var m := StripMove(s, q);
    var rest := s[m.taken..];
    if rest != [] {
      StripHead(rest, m.next);
    }
    RepeatsBefore(s, q, Strip(rest, m.next));
  }

  lemma RepeatsBefore(s: string, q: Quote, r: string)
    requires s != []
    requires var m := StripMove(s, q);
             if m.taken == |s| then r == []
             else r != [] && (r[0] == s[m.taken] || (m.next == Normal && r[0] == ' '))
    ensures var m := StripMove(s, q);
            m.emitted + r != [] && StripMove(m.emitted + r, q) == Move(|m.emitted|, m.emitted, m.next)
  {
    hide LineLength, BlockLength;
    var m := StripMove(s, q);
    assert (m.emitted + r)[..|m.emitted|] == m.emitted;
  }
}
