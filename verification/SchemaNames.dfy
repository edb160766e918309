/** Schema names, bare or quoted, come back as they are written. */
module SchemaNames {
  import opened Options
  import opened SqlText
  import opened LexByText
  import opened SchemaExtractor
  import opened SchemaScan

  /** How a name is written: as it is, or between quotes of one kind. */
  datatype Style = Bare | InQuotes(q: char)

  function Written(name: string, style: Style): string {
    match style
    case Bare => name
    case InQuotes(q) => Quoted(name, q)
  }

  /** A non-empty name the style can carry: name characters alone if bare, any characters between backticks or double quotes. */
  ghost predicate Fits(name: string, style: Style) {
    && name != []
    && (style.Bare? ==> forall i :: 0 <= i < |name| ==> NameChar(name[i]))
    && (style.InQuotes? ==> style.q == '`' || style.q == '"')
  }

  lemma BlanksAreBlank(ws: string)
    requires AllBlanks(ws)
    ensures Blank(ws)
  {
    forall i | 0 <= i < |ws| ensures IsSpace(ws[i]) {
      CharacterClasses(ws[i]);
    }
  }

  lemma {:induction false} BareIsRead(name: string, after: string)
    requires (forall i :: 0 <= i < |name| ==> NameChar(name[i])) && (after != [] ==> !NameChar(after[0]))
    ensures ReadBare(name + after) == Ident(name, |name|)
  {
    if name == [] {
      assert name + after == after;
      if after != [] {
        CharacterClasses(after[0]);
      }
    } else {
      CharacterClasses(name[0]);
      assert (name + after)[1..] == name[1..] + after;
      BareIsRead(name[1..], after);
      assert [name[0]] + name[1..] == name;
    }
  }

  lemma ReadIdentBare(ws: string, name: string, after: string)
    requires Blank(ws) && Fits(name, Bare) && (after != [] ==> !NameChar(after[0]))
    ensures ReadIdent(ws + name + after) == Ident(name, |ws| + |name|)
  {
    hide Spaces, ReadBare, ReadQuoted;
    var t := name + after;
    assert ws + name + after == ws + t && t[0] == name[0];
    CharacterClasses(name[0]);
    SpacesOverBlank(ws, t);
    assert (ws + t)[|ws|] == name[0] && (ws + t)[|ws|..] == t;
    BareIsRead(name, after);
  }

  /** What follows does not continue the name. */
  ghost predicate EndsName(after: string, style: Style) {
    after != [] ==> (match style case Bare => !NameChar(after[0]) case InQuotes(q) => after[0] != q)
  }

  /** A name in either style is read whole and nothing more. */
  lemma ReadIdentWritten(ws: string, name: string, style: Style, after: string)
    requires Blank(ws) && Fits(name, style) && EndsName(after, style)
    ensures ReadIdent(ws + Written(name, style) + after) == Ident(name, |ws| + |Written(name, style)|)
  {
    hide ReadIdent, Quoted;
    match style
    case Bare => ReadIdentBare(ws, name, after);
    case InQuotes(q) => ReadIdentQuoted(ws, name, q, after);
  }

  /** Whatever follows a name, something is read. */
  lemma ReadIdentSomething(ws: string, name: string, style: Style, after: string)
    requires Blank(ws) && Fits(name, style)
    ensures ReadIdent(ws + Written(name, style) + after).name != []
  {
    match style
    case InQuotes(q) =>
      hide ReadIdent;
      ReadIdentNonEmpty(ws, name, q, after);
    case Bare =>
      hide Spaces;
      var t := name + after;
      assert ws + name + after == ws + t && t[0] == name[0];
      CharacterClasses(name[0]);
      SpacesOverBlank(ws, t);
      assert (ws + t)[|ws|] == name[0] && (ws + t)[|ws|..] == t;
  }

  lemma SeparatesName(ws: string, rest: string, style: Style)
    requires AllBlanks(ws) && (style.InQuotes? ==> style.q == '`' || style.q == '"')
    ensures EndsName(ws + ("." + rest), style)
  {
    var after := ws + ("." + rest);
    assert after[0] == if ws == [] then '.' else ws[0];
  }

  lemma ReadQualifiedWritten(ws: string, schema: string, s1: Style, ws2: string, ws3: string, table: string, s2: Style, suffix: string)
    requires AllBlanks(ws) && AllBlanks(ws2) && AllBlanks(ws3) && Fits(schema, s1) && Fits(table, s2)
    ensures ReadQualifiedSchema(ws + Written(schema, s1) + (ws2 + ("." + (ws3 + Written(table, s2) + suffix)))).name == schema
  {
    hide ReadIdent, Spaces, Written, ReadQualifiedSchema, BlankChar;
    BlanksAreBlank(ws);
    BlanksAreBlank(ws2);
    BlanksAreBlank(ws3);
    var last := ws3 + Written(table, s2) + suffix;
    var head, after := ws + Written(schema, s1), ws2 + ("." + last);
    SeparatesName(ws2, last, s1);
    ReadIdentWritten(ws, schema, s1, after);
    SpacesOverBlank(ws2, "." + last);
    ReadIdentSomething(ws3, table, s2, suffix);
    ReadQualifiedParts(head, ws2, last, schema);
  }

  /** The words behind which a name is looked for. */
  predicate OneOfFive(k: string) { k == "from" || k == "into" || k == "update" || k == "join" || k == "table" }

  /** One of them, in any letter case. */
  ghost predicate SchemaKeyword(kw: string, k: string) {
    && OneOfFive(k)
    && |kw| == |k| && forall i :: 0 <= i < |k| ==> kw[i] == k[i] || kw[i] as int + 32 == k[i] as int
  }

  lemma KeywordIsKnown(kw: string, k: string)
    requires SchemaKeyword(kw, k)
    ensures k in SCHEMA_KEYWORDS && SameButCase(kw, k)
  {
    assert SCHEMA_KEYWORDS[0] == "from" && SCHEMA_KEYWORDS[1] == "into" && SCHEMA_KEYWORDS[2] == "update"
        && SCHEMA_KEYWORDS[3] == "join" && SCHEMA_KEYWORDS[4] == "table";
    assert forall i :: 0 <= i < |k| ==> 97 <= k[i] as int <= 122;
  }

  /** A keyword stands at the head of the text. */
  ghost predicate KeywordAt(s: string, k: string) {
    |k| <= |s| && SchemaKeyword(s[..|k|], k) && (|s| > |k| ==> !NameChar(s[|k|]))
  }

  lemma WordAtBySpelling(s: string, k: string)
    requires forall i :: 0 <= i < |k| ==> 97 <= k[i] as int <= 122
    ensures WordAt(s, k) <==>
            && |k| <= |s| && (|s| > |k| ==> !NameChar(s[|k|]))
            && forall i :: 0 <= i < |k| ==> s[i] == k[i] || s[i] as int + 32 == k[i] as int
  {
    if |k| <= |s| {
      if |s| > |k| {
        CharacterClasses(s[|k|]);
      }
      var w := s[..|k|];
      assert LowerAll(w) == k <==> forall i :: 0 <= i < |k| ==> Lower(w[i]) == k[i];
      assert forall i :: 0 <= i < |k| ==> (Lower(w[i]) == k[i] <==> s[i] == k[i] || s[i] as int + 32 == k[i] as int);
    }
  }

  lemma KeywordAtIsWordAt(s: string, k: string)
    requires OneOfFive(k)
    ensures KeywordAt(s, k) <==> WordAt(s, k)
  {
    hide WordAt, NameChar;
    WordAtBySpelling(s, k);
  }

  lemma OnlyFive(s: string, k: string)
    requires KeywordAt(s, k)
    ensures OneOfFive(k)
  {
  }

  lemma SomeOfFive(s: string) returns (k: string)
    requires KeywordLength(s) > 0
    ensures OneOfFive(k) && WordAt(s, k)
  {
    hide WordAt;
    k := if WordAt(s, "from") then "from" else if WordAt(s, "into") then "into" else if WordAt(s, "update") then "update"
         else if WordAt(s, "join") then "join" else "table";
  }

  /** The scan knows these five words as whole words, and no others. */
  lemma KeywordsExactly(s: string)
    ensures KeywordLength(s) > 0 <==> exists k :: KeywordAt(s, k)
    ensures forall k :: KeywordAt(s, k) ==> KeywordLength(s) == |k|
  {
    hide WordAt, KeywordAt, KeywordLength, OneOfFive;
    if KeywordLength(s) > 0 {
      var k := SomeOfFive(s);
      KeywordAtIsWordAt(s, k);
    }
    forall k | KeywordAt(s, k) ensures KeywordLength(s) == |k| > 0 {
      OnlyFive(s, k);
      KeywordAtIsWordAt(s, k);
      OneKeyword(s, k);
    }
  }

  lemma OneKeyword(s: string, k: string)
    requires WordAt(s, k) && OneOfFive(k)
    ensures KeywordLength(s) == |k| > 0
  {
    assert LowerAll(s)[..|k|] == LowerAll(s[..|k|]) == k;
    assert forall m :: 0 <= m <= |s| ==> LowerAll(s[..m]) == LowerAll(s)[..m];
  }

  /**
   For all schema and table names, each bare or quoted, behind any keyword-free text and
   any of the five keywords, blanks around the dot or not, and whatever follows: the
   schema comes back as it is written.
  */
  lemma SchemaRoundTrip(prefix: string, kw: string, k: string, ws: string, schema: string, s1: Style,
                        ws2: string, ws3: string, table: string, s2: Style, suffix: string)
    requires KeywordFree(prefix, false, Normal) && SchemaKeyword(kw, k)
    requires AllBlanks(ws) && AllBlanks(ws2) && AllBlanks(ws3) && (s1.Bare? ==> ws != [])
    requires Fits(schema, s1) && Fits(table, s2)
    ensures ExtractSchema(prefix + (kw + (ws + Written(schema, s1) + (ws2 + ("." + (ws3 + Written(table, s2) + suffix)))))) == Some(schema)
  {
    var name := ws + Written(schema, s1) + (ws2 + ("." + (ws3 + Written(table, s2) + suffix)));
    NoWordStarts(ws, schema, s1, name);
    hide KeywordLength, ReadQualifiedSchema, KeywordFree, Written, BlankChar, SchemaKeyword;
    KeywordIsKnown(kw, k);
    KeywordFound(kw, k, name);
    var x := kw + name;
    assert x[|k|..] == name && x[0] == kw[0];
    ReadQualifiedWritten(ws, schema, s1, ws2, ws3, table, s2, suffix);
    assert ScanTurn(x, false, Normal) == Found(schema);
    ExtractPasses(prefix, false, Normal, x);
  }

  lemma NoWordStarts(ws: string, schema: string, style: Style, name: string)
    requires AllBlanks(ws) && (style.Bare? ==> ws != []) && Fits(schema, style)
    requires ws + Written(schema, style) <= name
    ensures name != [] && !IsWord(name[0])
  {
    var w := ws + Written(schema, style);
    assert name[0] == w[0];
    CharacterClasses(w[0]);
  }

  /** A bare name without a dot behind it names no schema: the scan goes on behind it. */
  lemma UnqualifiedNamesNothing(prefix: string, kw: string, k: string, ws: string, name: string, rest: string)
    requires KeywordFree(prefix, false, Normal) && SchemaKeyword(kw, k)
    requires AllBlanks(ws) && ws != [] && Fits(name, Bare)
    requires rest != [] ==> !NameChar(rest[0])
    requires Spaces(rest) < |rest| ==> rest[Spaces(rest)] != '.'
    ensures ExtractSchema(prefix + (kw + (ws + name + rest))) == ExtractSchema(rest)
  {
    var t, n := ws + name + rest, |ws| + |name|;
    UnqualifiedRead(ws, name, rest);
    NoWordStarts(ws, name, Bare, t);
    hide ExtractSchema, KeywordFree, AllBlanks, Fits, SchemaKeyword, ReadQualifiedSchema, Spaces, NameChar, IsWord, ScanTurn;
    KeywordIsKnown(kw, k);
    KeywordGoesOn(kw, k, t, n);
    var x := kw + t;
    assert x[|k| + n..] == rest;
    GoesOnBehind(prefix, x, |k| + n, rest);
  }

  lemma GoesOnBehind(prefix: string, x: string, n: nat, rest: string)
    requires KeywordFree(prefix, false, Normal) && x != [] && ScanTurn(x, false, Normal) == Go(n, Normal) && 0 < n <= |x|
    requires x[n..] == rest && (rest != [] ==> !NameChar(rest[0]))
    ensures ExtractSchema(prefix + x) == ExtractSchema(rest)
  {
    hide Extract, KeywordFree, ScanTurn;
    ExtractPasses(prefix, false, Normal, x);
    OneTurn(x, false, Normal);
    WordBehindChangesNothing(rest, IsWord(x[n - 1]));
  }

  lemma KeywordGoesOn(kw: string, k: string, t: string, n: nat)
    requires k in SCHEMA_KEYWORDS && SameButCase(kw, k) && t != [] && !IsWord(t[0]) && n <= |t|
    requires ReadQualifiedSchema(t) == Ident([], n)
    ensures kw + t != [] && ScanTurn(kw + t, false, Normal) == Go(|k| + n, Normal) && |k| + n > 0
  {
    hide KeywordLength, ReadQualifiedSchema;
    KeywordFound(kw, k, t);
    var x := kw + t;
    assert x[|k|..] == t && x[0] == kw[0];
  }

  lemma UnqualifiedRead(ws: string, name: string, rest: string)
    requires AllBlanks(ws) && ws != [] && Fits(name, Bare) && (rest != [] ==> !NameChar(rest[0]))
    requires Spaces(rest) < |rest| ==> rest[Spaces(rest)] != '.'
    ensures ReadQualifiedSchema(ws + name + rest) == Ident([], |ws| + |name|)
    ensures ws + Written(name, Bare) <= ws + name + rest
  {
    hide ReadQualifiedSchema, ReadIdent, Spaces;
    var t := ws + name + rest;
    BlanksAreBlank(ws);
    ReadIdentBare(ws, name, rest);
    assert t[|t| - |rest|..] == rest;
    NothingQualified(t, name, rest);
  }

  lemma NothingQualified(t: string, name: string, rest: string)
    requires name != [] && |rest| <= |t| && t[|t| - |rest|..] == rest && ReadIdent(t) == Ident(name, |t| - |rest|)
    requires Spaces(rest) < |rest| ==> rest[Spaces(rest)] != '.'
    ensures ReadQualifiedSchema(t) == Ident([], |t| - |rest|)
  {
    hide ReadIdent, Spaces;
    var n := |t| - |rest|;
    if Spaces(rest) < |rest| {
      assert t[n + Spaces(rest)] == rest[Spaces(rest)];
    }
  }

  lemma WordBehindChangesNothing(rest: string, inWord: bool)
    requires rest != [] ==> !NameChar(rest[0])
    ensures Extract(rest, inWord, Normal) == Extract(rest, false, Normal)
  {
    if rest != [] {
      CharacterClasses(rest[0]);
      NoLetterNoMatter(rest, inWord);
      hide Extract, ScanTurn;
      OneTurn(rest, inWord, Normal);
      OneTurn(rest, false, Normal);
    } else {
      NothingNothing(inWord);
    }
  }

  lemma NothingNothing(inWord: bool)
    ensures Extract([], inWord, Normal) == None
  {
  }

  lemma NoLetterNoMatter(rest: string, inWord: bool)
    requires rest != [] && !IsAlpha(rest[0])
    ensures ScanTurn(rest, inWord, Normal) == ScanTurn(rest, false, Normal) && ScanTurn(rest, false, Normal).Go?
  {
    hide KeywordLength, ReadQualifiedSchema;
  }
}
