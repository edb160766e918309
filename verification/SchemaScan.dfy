/**
 What the schema scan makes of a text followed by another: when the first is passed
 over whatever follows, and by which continuation it shows when it is not.
*/
module SchemaScan {
  import opened Options
  import opened SqlText
  import opened SchemaExtractor

  // ---- Reading that does not depend on what follows ----

  lemma {:induction false} SpacesStable(t: string, x: string)
    requires Spaces(t) < |t|
    ensures Spaces(t + x) == Spaces(t)
  {
    if IsSpace(t[0]) {
      assert (t + x)[1..] == t[1..] + x;
      SpacesStable(t[1..], x);
    }
  }

  lemma {:induction false} QuotedStable(t: string, q: char, x: string)
    requires ReadQuoted(t, q).taken < |t|
    ensures ReadQuoted(t + x, q) == ReadQuoted(t, q)
    decreases |t|
  {
    assert (t + x)[1..] == t[1..] + x;
    if t[0] != q {
      QuotedStable(t[1..], q, x);
    } else if |t| > 1 && t[1] == q {
      assert (t + x)[2..] == t[2..] + x;
      QuotedStable(t[2..], q, x);
    }
  }

  lemma {:induction false} BareStable(t: string, x: string)
    requires ReadBare(t).taken < |t|
    ensures ReadBare(t + x) == ReadBare(t)
  {
    if IsWord(t[0]) {
      assert (t + x)[1..] == t[1..] + x;
      BareStable(t[1..], x);
    }
  }

  lemma IdentStable(t: string, x: string)
    requires ReadIdent(t).taken < |t|
    ensures ReadIdent(t + x) == ReadIdent(t)
  {
    hide Spaces, ReadQuoted, ReadBare;
    var n := Spaces(t);
    SpacesStable(t, x);
    if t[n] == '`' || t[n] == '"' {
      assert (t + x)[n + 1..] == t[n + 1..] + x;
      QuotedStable(t[n + 1..], t[n], x);
    } else {
      assert (t + x)[n..] == t[n..] + x;
      BareStable(t[n..], x);
    }
  }

  /** Reading a qualified name from `t` comes to its end before `t` does. */
  predicate StopsInside(t: string) {
    var first := ReadIdent(t);
    if first.name == [] then first.taken < |t|
    else first.taken + Spaces(t[first.taken..]) < |t| && ReadQualifiedSchema(t).taken < |t|
  }

  lemma QualifiedStable(t: string, x: string)
    requires StopsInside(t)
    ensures ReadQualifiedSchema(t + x) == ReadQualifiedSchema(t)
  {
    hide ReadIdent, Spaces;
    var first := ReadIdent(t);
    IdentStable(t, x);
    if first.name != [] {
      var rest := t[first.taken..];
      assert (t + x)[first.taken..] == rest + x;
      SpacesStable(rest, x);
      var dot := first.taken + Spaces(rest);
      assert (t + x)[dot] == t[dot];
      if t[dot] == '.' {
        assert (t + x)[dot + 1..] == t[dot + 1..] + x;
        IdentStable(t[dot + 1..], x);
      }
    }
  }

  lemma KeywordKept(p: string, x: string, kw: string)
    requires p != [] && !IsWord(p[|p| - 1]) && (forall c :: c in kw ==> IsAlpha(c)) && WordAt(p, kw)
    ensures WordAt(p + x, kw) && |kw| < |p|
  {
    var n := |kw|;
    assert n > 0 ==> IsWord(p[n - 1]) by {
      if n > 0 {
        assert LowerAll(p[..n])[n - 1] == Lower(p[n - 1]) == kw[n - 1];
        assert kw[n - 1] in kw;
      }
    }
    assert (p + x)[..n] == p[..n];
  }

  /** Behind a character that ends words, what follows changes no keyword. */
  lemma KeywordStable(p: string, x: string)
    requires p != [] && !IsWord(p[|p| - 1])
    ensures KeywordLength(p + x) == KeywordLength(p)
    ensures KeywordLength(p) < |p|
  {
    hide WordAt, IsAlpha, IsWord;
    KeywordsAreAlpha();
    assert SCHEMA_KEYWORDS[0] == "from" && SCHEMA_KEYWORDS[1] == "into" && SCHEMA_KEYWORDS[2] == "update"
        && SCHEMA_KEYWORDS[3] == "join" && SCHEMA_KEYWORDS[4] == "table";
    KeywordSame(p, x, "from");
    KeywordSame(p, x, "into");
    KeywordSame(p, x, "update");
    KeywordSame(p, x, "join");
    KeywordSame(p, x, "table");
  }

  lemma KeywordSame(p: string, x: string, kw: string)
    requires p != [] && !IsWord(p[|p| - 1]) && forall c :: c in kw ==> IsAlpha(c)
    ensures WordAt(p + x, kw) <==> WordAt(p, kw)
    ensures WordAt(p, kw) ==> |kw| < |p|
  {
    hide WordAt, IsAlpha, IsWord;
    if WordAt(p + x, kw) {
      KeywordInside(p, x, kw);
    }
    if WordAt(p, kw) {
      KeywordKept(p, x, kw);
    }
  }

  // ---- Text the scan passes over, whatever follows ----

  /** A turn of the scan that meets a keyword. */
  predicate KeywordTurn(s: string, inWord: bool, q: Quote) {
    s != [] && q == Normal && s[0] != '\'' && !inWord && IsAlpha(s[0]) && KeywordLength(s) > 0
  }

  /**
   The scan passes over the text into quote state `end`: no keyword in it is followed
   by a readable qualified name, or by the beginning of one that is still open where
   the text ends.
  */
  predicate Scanned(s: string, inWord: bool, q: Quote, end: Quote)
    decreases |s|
  {
    if s == [] then q == end
    else
      (KeywordTurn(s, inWord, q) ==> StopsInside(s[KeywordLength(s)..])) &&
      match ScanTurn(s, inWord, q)
      case Found(_) => false
      case Go(k, q') => Scanned(s[k..], IsWord(s[k - 1]), q', end)
  }

  /** Nothing named, no name begun, no quote left open. */
  predicate SchemaFree(s: string) { Scanned(s, false, Normal, Normal) }

  /** The text ends in a character that neither continues a word nor escapes the next. */
  predicate WordEnd(s: string) { s != [] && !IsWord(s[|s| - 1]) && s[|s| - 1] != '\\' }

  /** The text ends in a character that can end a comment. */
  predicate Sealed(s: string) {
    s != [] && (s[|s| - 1] == '/' || s[|s| - 1] == '\n')
  }

  lemma SealedEnd(s: string)
    requires Sealed(s)
    ensures WordEnd(s)
    ensures var c := s[|s| - 1]; !IsWord(c) && c != '\\' && c != '\'' && c != '`' && c != '"' && c != '.'
  {
  }

  lemma SealedTail(s: string, k: nat)
    requires Sealed(s) && k < |s|
    ensures Sealed(s[k..])
  {
  }

  lemma PlainTurnStable(s: string, inWord: bool, q: Quote, x: string)
    requires WordEnd(s) && !KeywordTurn(s, inWord, q)
    ensures ScanTurn(s + x, inWord, q) == ScanTurn(s, inWord, q)
  {
    hide KeywordLength, ReadQualifiedSchema, IsWord;
    KeywordStable(s, x);
  }

  lemma KeywordTurnStable(s: string, inWord: bool, q: Quote, x: string)
    requires WordEnd(s) && KeywordTurn(s, inWord, q) && StopsInside(s[KeywordLength(s)..])
    ensures ScanTurn(s + x, inWord, q) == ScanTurn(s, inWord, q)
  {
    hide KeywordLength, ReadQualifiedSchema, IsWord, StopsInside;
    KeywordStable(s, x);
    var n := KeywordLength(s);
    assert (s + x)[n..] == s[n..] + x;
    QualifiedStable(s[n..], x);
  }

  lemma {:induction false} ScanPasses(s: string, inWord: bool, q: Quote, end: Quote, x: string)
    requires Scanned(s, inWord, q, end) && (if s == [] then !inWord else WordEnd(s))
    ensures Extract(s + x, inWord, q) == Extract(x, false, end)
    decreases |s|
  {
    hide ScanTurn, KeywordTurn, StopsInside, IsWord;
    if s == [] {
      assert s + x == x;
    } else {
      if KeywordTurn(s, inWord, q) {
        KeywordTurnStable(s, inWord, q, x);
      } else {
        PlainTurnStable(s, inWord, q, x);
      }
      var t := ScanTurn(s, inWord, q);
      var k := t.taken;
      assert (s + x)[k..] == s[k..] + x && (s + x)[k - 1] == s[k - 1];
      ScanPasses(s[k..], IsWord(s[k - 1]), t.next, end, x);
    }
  }

  // ---- What goes wrong otherwise ----

  lemma {:induction false} AllSpaces(t: string)
    requires Spaces(t) == |t|
    ensures Blank(t)
  {
    if t != [] {
      AllSpaces(t[1..]);
      assert t == [t[0]] + t[1..];
    }
  }

  lemma {:induction false} BareStopsAtSeal(t: string)
    requires Sealed(t)
    ensures ReadBare(t).taken < |t|
  {
    SealedEnd(t);
    if IsWord(t[0]) {
      SealedTail(t, 1);
      BareStopsAtSeal(t[1..]);
    }
  }

  /** A quoted name still open at the end of `t` is closed by one more quote character. */
  lemma {:induction false} QuotedCloses(t: string, q: char, y: string)
    requires ReadQuoted(t, q).taken == |t| && (t != [] ==> t[|t| - 1] != q) && (y != [] ==> y[0] != q)
    ensures ReadQuoted(t + ([q] + y), q) == Ident(ReadQuoted(t, q).name, |t| + 1)
    decreases |t|
  {
    var s := t + ([q] + y);
    if t == [] {
      assert s == [q] + y;
    } else {
      assert s[1..] == t[1..] + ([q] + y);
      if t[0] != q {
        QuotedCloses(t[1..], q, y);
      } else {
        assert s[2..] == t[2..] + ([q] + y);
        QuotedCloses(t[2..], q, y);
      }
    }
  }

  /** A sealed text whose first identifier runs to its end: all blanks, or a quoted name left open. */
  lemma OpenIdent(t: string)
    requires Sealed(t) && ReadIdent(t).taken == |t|
    ensures var n := Spaces(t);
            if n == |t| then ReadIdent(t).name == []
            else IdentQuote(t[n]) && ReadQuoted(t[n + 1..], t[n]).taken == |t| - n - 1 && ReadIdent(t).name != []
  {
    hide Spaces, ReadBare, ReadQuoted, Sealed;
    var n := Spaces(t);
    SealedEnd(t);
    if n < |t| {
      if IdentQuote(t[n]) {
        SealedTail(t, n + 1);
        OpenQuotedHasName(t[n + 1..], t[n]);
      } else {
        SealedTail(t, n);
        BareStopsAtSeal(t[n..]);
      }
    }
  }

  lemma OpenQuotedHasName(u: string, q: char)
    requires Sealed(u) && IdentQuote(q) && ReadQuoted(u, q).taken == |u|
    ensures ReadQuoted(u, q).name != []
  {
    SealedEnd(u);
  }

  /** The text after which an open reading would find a schema. */
  lemma OpenReadingFinds(t: string) returns (x: string)
    requires (t == [] || Sealed(t)) && !StopsInside(t) && ReadQualifiedSchema(t).name == []
    ensures ReadQualifiedSchema(t + x).name != [] && x in Endings()
  {
    hide ReadQuoted, ReadBare, ReadQualifiedSchema, Quoted, ReadIdent, Spaces;
    var first := ReadIdent(t);
    if t == [] {
      NothingThere();
      x := NameMissing(t);
    } else if first.taken == |t| && first.name == [] {
      x := NameMissing(t);
    } else if first.taken == |t| {
      x := NameOpen(t);
    } else if first.taken + Spaces(t[first.taken..]) == |t| {
      x := DotMissing(t);
    } else {
      BlankAfterDot(t);
      TableMissing(t, first.taken + Spaces(t[first.taken..]));
      x := "`b`";
    }
  }

  lemma NothingThere()
    ensures ReadIdent([]) == Ident([], 0)
  {
  }

  /** The endings that complete a reading; none of them names a schema by itself. */
  function Endings(): set<string> { {"`a`.`b`", ".`b`", "`.`b`", "\".`b`", "`b`"} }

  lemma NameMissing(t: string) returns (x: string)
    requires t == [] || Sealed(t)
    requires ReadIdent(t).taken == |t| && ReadIdent(t).name == []
    ensures ReadQualifiedSchema(t + x).name != [] && x in Endings()
  {
    x := "`a`.`b`";
    hide ReadQuoted, ReadBare, ReadQualifiedSchema;
    assert Spaces(t) == |t| by {
      if t != [] { OpenIdent(t); }
    }
    AllSpaces(t);
    assert Quoted("a", '`') == "`a`" && Quoted("b", '`') == "`b`" by { OneLetter('a'); OneLetter('b'); }
    ReadQualifiedQuoted(t, "a", '`', "", "", "b", '`', "");
    assert QualifiedName(t, "a", '`', "", "", "b", '`') + "" == t + x;
  }

  lemma OneLetter(c: char)
    requires c != '`'
    ensures Quoted([c], '`') == ['`', c, '`']
  {
    assert [c][1..] == [];
    assert Doubled([], '`') == [];
  }

  lemma SecondName()
    ensures ReadIdent("`b`").name != []
  {
    hide ReadIdent;
    OneLetter('b');
    assert "" + Quoted("b", '`') + "" == "`b`";
    ReadIdentNonEmpty("", "b", '`', "");
  }

  lemma NameOpen(t: string) returns (x: string)
    requires Sealed(t) && ReadIdent(t).taken == |t| && ReadIdent(t).name != []
    ensures ReadQualifiedSchema(t + x).name != [] && x in Endings()
  {
    hide ReadQuoted, ReadBare, ReadQualifiedSchema;
    OpenIdent(t);
    var n := Spaces(t);
    var q := t[n];
    var u := t[n + 1..];
    var y := ".`b`";
    x := [q] + y;
    assert x == "`.`b`" || x == "\".`b`";
    SealedEnd(t);
    QuotedCloses(u, q, y);
    AllSpacesBefore(t);
    assert t + x == t[..n] + ([q] + (u + x));
    ReadIdentFromQuote(t[..n], q, u + x);
    var head := t + [q];
    assert t + x == head + ([] + ("." + "`b`"));
    assert Spaces([] + ("." + "`b`")) == 0;
    hide ReadIdent, Spaces;
    SecondName();
    ReadQualifiedParts(head, [], "`b`", ReadIdent(t).name);
  }

  lemma {:induction false} AllSpacesBefore(t: string)
    ensures Blank(t[..Spaces(t)])
  {
    if t != [] && IsSpace(t[0]) {
      AllSpacesBefore(t[1..]);
      assert t[..Spaces(t)] == [t[0]] + t[1..][..Spaces(t[1..])];
    }
  }

  lemma DotMissing(t: string) returns (x: string)
    requires var first := ReadIdent(t);
             first.name != [] && first.taken < |t| && first.taken + Spaces(t[first.taken..]) == |t|
    ensures ReadQualifiedSchema(t + x).name != [] && x in Endings()
  {
    x := ".`b`";
    hide ReadIdent, ReadQualifiedSchema;
    var first := ReadIdent(t);
    var head, ws := t[..first.taken], t[first.taken..];
    IdentStable(t, x);
    AllSpaces(ws);
    SpacesOverBlank(ws, "." + "`b`");
    assert t + x == head + (ws + ("." + "`b`"));
    SecondName();
    ReadQualifiedParts(head, ws, "`b`", first.name);
  }

  /** The reading broke off behind the dot: only blanks follow it. */
  lemma BlankAfterDot(t: string)
    requires Sealed(t)
    requires var first := ReadIdent(t);
             first.name != [] && first.taken + Spaces(t[first.taken..]) < |t|
    requires ReadQualifiedSchema(t).taken == |t| && ReadQualifiedSchema(t).name == []
    ensures var dot := ReadIdent(t).taken + Spaces(t[ReadIdent(t).taken..]);
            t[dot] == '.' && Spaces(t[dot + 1..]) == |t[dot + 1..]|
  {
    hide ReadIdent, Spaces, Sealed;
    var dot := ReadIdent(t).taken + Spaces(t[ReadIdent(t).taken..]);
    SealedEnd(t);
    if t[dot] == '.' {
      SealedTail(t, dot + 1);
      OpenIdent(t[dot + 1..]);
    }
  }

  lemma TableMissing(t: string, dot: nat)
    requires var first := ReadIdent(t);
             first.name != [] && dot == first.taken + Spaces(t[first.taken..])
    requires dot < |t| && t[dot] == '.' && Spaces(t[dot + 1..]) == |t[dot + 1..]|
    ensures ReadQualifiedSchema(t + "`b`").name != []
  {
    hide ReadIdent, Spaces, Blank, ReadQualifiedSchema;
    AllSpaces(t[dot + 1..]);
    TableAdded(t[dot + 1..]);
    TableFound(t, dot, "`b`");
  }

  lemma TableFound(t: string, dot: nat, x: string)
    requires var first := ReadIdent(t);
             first.name != [] && dot == first.taken + Spaces(t[first.taken..])
    requires dot < |t| && t[dot] == '.' && ReadIdent(t[dot + 1..] + x).name != []
    ensures ReadQualifiedSchema(t + x).name != []
  {
    hide ReadIdent, Spaces;
    var first := ReadIdent(t);
    IdentStable(t, x);
    assert (t + x)[first.taken..] == t[first.taken..] + x;
    SpacesStable(t[first.taken..], x);
    assert (t + x)[dot + 1..] == t[dot + 1..] + x;
  }

  lemma TableAdded(last: string)
    requires Blank(last)
    ensures ReadIdent(last + "`b`").name != []
  {
    hide ReadIdent, Blank;
    OneLetter('b');
    ReadIdentNonEmpty(last, "b", '`', "");
    assert last + Quoted("b", '`') + "" == last + "`b`";
  }

  /** An open string literal hides whatever follows, as long as it has no apostrophe and no backslash. */
  lemma {:induction false} OpenQuoteHides(x: string, inWord: bool)
    requires '\'' !in x && '\\' !in x
    ensures Extract(x, inWord, Squote) == None
    decreases |x|
  {
    if x != [] {
      OpenQuoteHides(x[1..], IsWord(x[0]));
    }
  }

  lemma {:induction false} KeywordFreeIsNone(p: string, inWord: bool, q: Quote)
    requires KeywordFree(p, inWord, q)
    ensures Extract(p, inWord, q) == None
    decreases |p|
  {
    hide KeywordLength, ReadQualifiedSchema;
    if p != [] {
      var k := if q != Normal && Escapes(p[0], q) then 2 else 1;
      var q' := if q != Normal then (if k == 2 then q else Closed(p[0], q))
                else if p[0] == '\'' then Squote else Normal;
      KeywordFreeIsNone(p[k..], IsWord(p[k - 1]), q');
    }
  }

  /** Two characters that are no letters end every word, so short code is keyword free. */
  lemma ShortIsFree(p: string)
    requires |p| <= 7 && (forall i :: 0 <= i < |p| ==> p[i] in {'`', '"', '.', 'a', 'b'})
    requires p != [] ==> !IsWord(p[|p| - 1])
    ensures forall inWord :: KeywordFree(p, inWord, Normal) || (inWord && p == [])
    decreases |p|
  {
    if p != [] {
      NoKeywordOf(p);
      ShortIsFree(p[1..]);
    }
  }

  lemma NoKeywordOf(p: string)
    requires p != [] && p[0] in {'`', '"', '.', 'a', 'b'}
    ensures KeywordLength(p) == 0
  {
    if |p| >= 4 {
      assert p[..4][0] == p[0];
      assert LowerAll(p[..4])[0] == p[0];
    }
    if |p| >= 5 {
      assert LowerAll(p[..5])[0] == p[0];
    }
    if |p| >= 6 {
      assert LowerAll(p[..6])[0] == p[0];
    }
  }

  lemma EndingsNameNothing(x: string)
    requires x in Endings()
    ensures Extract(x, false, Normal) == None
  {
    hide KeywordFree, Extract;
    ShortIsFree(x);
    KeywordFreeIsNone(x, false, Normal);
  }

  lemma NamedAtOnce()
    ensures Extract("FROM `a`.`b`", false, Normal) == Some("a")
  {
    hide Extract;
    OneLetter('a');
    OneLetter('b');
    assert SCHEMA_KEYWORDS[0] == "from";
    assert KeywordFree("", false, Normal);
    QuotedSchemaRoundTrip("", "FROM", "from", " ", "a", '`', "", "", "b", '`', "");
    assert "" + ("FROM" + (QualifiedName(" ", "a", '`', "", "", "b", '`') + "")) == "FROM `a`.`b`";
  }

  lemma OpenReadingShows(s: string, inWord: bool) returns (x: string)
    requires Sealed(s) && KeywordTurn(s, inWord, Normal) && !StopsInside(s[KeywordLength(s)..])
    ensures Extract(s + x, inWord, Normal) != Extract(x, false, Normal)
  {
    hide KeywordLength, ReadQualifiedSchema, StopsInside, IsWord, Endings;
    SealedEnd(s);
    var n := KeywordLength(s);
    KeywordStable(s, []);
    SealedTail(s, n);
    if ReadQualifiedSchema(s[n..]).name == [] {
      x := OpenReadingFinds(s[n..]);
      EndingsNameNothing(x);
    } else {
      x := [];
      assert s[n..] + [] == s[n..];
    }
    KeywordStable(s, x);
    assert (s + x)[n..] == s[n..] + x;
  }

  /** Text that is not schema free is not a blank to the scan: some continuation tells. */
  lemma {:induction false} SchemaFreeNeeded(s: string, inWord: bool, q: Quote) returns (x: string)
    requires !Scanned(s, inWord, q, Normal) && (s != [] ==> Sealed(s)) && (q == Normal || q == Squote)
    ensures Extract(s + x, inWord, q) != Extract(x, false, Normal)
    decreases |s|
  {
    hide ScanTurn, KeywordTurn, StopsInside, IsWord, KeywordLength, Extract, Sealed;
    if s == [] {
      x := OpenQuoteShows(inWord);
      assert s + x == x;
    } else if KeywordTurn(s, inWord, q) && !StopsInside(s[KeywordLength(s)..]) {
      TurnIsNormal(s, inWord, q);
      x := OpenReadingShows(s, inWord);
    } else if ScanTurn(s, inWord, q).Found? {
      x := [];
      assert s + x == s;
      FoundAtOnce(s, inWord, q);
    } else {
      var t := ScanTurn(s, inWord, q);
      var k := t.taken;
      NextQuote(s, inWord, q);
      if k < |s| {
        SealedTail(s, k);
      }
      x := SchemaFreeNeeded(s[k..], IsWord(s[k - 1]), t.next);
      SealedEnd(s);
      if KeywordTurn(s, inWord, q) {
        KeywordTurnStable(s, inWord, q, x);
      } else {
        PlainTurnStable(s, inWord, q, x);
      }
      assert (s + x)[k..] == s[k..] + x && (s + x)[k - 1] == s[k - 1];
      OneTurn(s + x, inWord, q);
    }
  }

  lemma OpenQuoteShows(inWord: bool) returns (x: string)
    ensures Extract(x, inWord, Squote) != Extract(x, false, Normal)
  {
    hide Extract;
    x := "FROM `a`.`b`";
    NamedAtOnce();
    OpenQuoteHides(x, inWord);
  }

  lemma FoundAtOnce(s: string, inWord: bool, q: Quote)
    requires s != [] && ScanTurn(s, inWord, q).Found?
    ensures Extract(s, inWord, q) != Extract([], false, Normal)
  {
    hide ScanTurn;
  }

  lemma TurnIsNormal(s: string, inWord: bool, q: Quote)
    requires KeywordTurn(s, inWord, q)
    ensures q == Normal
  {
  }

  lemma NextQuote(s: string, inWord: bool, q: Quote)
    requires s != [] && (q == Normal || q == Squote) && ScanTurn(s, inWord, q).Go?
    ensures ScanTurn(s, inWord, q).next == Normal || ScanTurn(s, inWord, q).next == Squote
  {
    hide KeywordLength, ReadQualifiedSchema;
  }

  lemma OneTurn(s: string, inWord: bool, q: Quote)
    requires s != [] && ScanTurn(s, inWord, q).Go?
    ensures var t := ScanTurn(s, inWord, q); Extract(s, inWord, q) == Extract(s[t.taken..], IsWord(s[t.taken - 1]), t.next)
  {
  }
}
