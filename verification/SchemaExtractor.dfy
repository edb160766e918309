/** Finding the schema a statement names: the first qualified name after FROM, INTO, UPDATE, JOIN or TABLE. */
module SchemaExtractor {
  import opened Options
  import opened SqlText

  /** How many blanks `s` begins with. */
  function Spaces(s: string): (n: nat)
    ensures n <= |s|
  {
    if s != [] && IsSpace(s[0]) then 1 + Spaces(s[1..]) else 0
  }

  /** An identifier and how many characters reading it took. */
  datatype Ident = Ident(name: string, taken: nat)

  function Extend(name: string, taken: nat, r: Ident): Ident { Ident(name + r.name, taken + r.taken) }

  /** The rest of a quoted identifier; a doubled quote stands for one. */
  function ReadQuoted(s: string, q: char): (r: Ident)
    ensures r.taken <= |s|
    decreases |s|
  {
    if s == [] then Ident([], 0)
    else if s[0] != q then Extend([s[0]], 1, ReadQuoted(s[1..], q))
    else if |s| > 1 && s[1] == q then Extend([q], 2, ReadQuoted(s[2..], q))
    else Ident([], 1)
  }

  function ReadBare(s: string): (r: Ident)
    ensures r.taken <= |s|
  {
    if s != [] && IsWord(s[0]) then Extend([s[0]], 1, ReadBare(s[1..])) else Ident([], 0)
  }

  function ReadIdent(s: string): (r: Ident)
    ensures r.taken <= |s|
  {
    var n := Spaces(s);
    if n == |s| then Ident([], n)
    else if s[n] == '`' || s[n] == '"' then Extend([], n + 1, ReadQuoted(s[n + 1..], s[n]))
    else Extend([], n, ReadBare(s[n..]))
  }

  /** The schema of a qualified name, or an empty one, and how far reading went. */
  function ReadQualifiedSchema(s: string): (r: Ident)
    ensures r.taken <= |s|
  {
    var first := ReadIdent(s);
    if first.name == [] then first
    else
      var dot := first.taken + Spaces(s[first.taken..]);
      if dot < |s| && s[dot] == '.' then
        var second := ReadIdent(s[dot + 1..]);
        Ident(if second.name != [] then first.name else [], dot + 1 + second.taken)
      else Ident([], first.taken)
  }

  /** `kw`, in any letter case, stands at the head of `s` as a whole word. */
  predicate WordAt(s: string, kw: string) {
    |kw| <= |s| && LowerAll(s[..|kw|]) == kw && (|s| > |kw| ==> !IsWord(s[|kw|]))
  }

  const SCHEMA_KEYWORDS: seq<string> := ["from", "into", "update", "join", "table"]

  /** The length of the keyword at the head of `s`, 0 if there is none. */
  function KeywordLength(s: string): (n: nat)
    ensures n <= |s|
  {
    if WordAt(s, "from") then 4
    else if WordAt(s, "into") then 4
    else if WordAt(s, "update") then 6
    else if WordAt(s, "join") then 4
    else if WordAt(s, "table") then 5
    else 0
  }

  /** One turn of the scan: a schema found, or how far to go and in which quote state. */
  datatype Turn = Found(schema: string) | Go(taken: nat, next: Quote)

  /** `inWord` says whether an identifier character stands just before `s`. */
  function ScanTurn(s: string, inWord: bool, q: Quote): (t: Turn)
    requires s != []
    ensures t.Go? ==> 1 <= t.taken <= |s|
  {
    if q != Normal then
      if Escapes(s[0], q) then Go(if |s| == 1 then 1 else 2, q) else Go(1, Closed(s[0], q))
    else if s[0] == '\'' then Go(1, Squote)
    else if inWord || !IsAlpha(s[0]) || KeywordLength(s) == 0 then Go(1, Normal)
    else
      var n := KeywordLength(s);
      var r := ReadQualifiedSchema(s[n..]);
      if r.name != [] then Found(r.name) else Go(n + r.taken, Normal)
  }

  function Extract(s: string, inWord: bool, q: Quote): Option<string>
    decreases |s|
  {
    if s == [] then None
    else
      match ScanTurn(s, inWord, q)
      case Found(schema) => Some(schema)
      case Go(k, q') => Extract(s[k..], IsWord(s[k - 1]), q')
  }

  function ExtractSchema(sql: string): Option<string> { Extract(sql, false, Normal) }

  function ExtractOr(sql: string, sessionSchema: string): string {
    match ExtractSchema(sql)
    case Some(name) => name
    case None => sessionSchema
  }

  // ---- The loops ----

  method SpacesAt(s: string, start: nat) returns (i: nat)
    requires start <= |s|
    ensures i == start + Spaces(s[start..])
  {
    i := start;
    while i < |s| && IsSpace(s[i])
      invariant start <= i <= |s|
      invariant i + Spaces(s[i..]) == start + Spaces(s[start..])
    {
      assert s[i..][1..] == s[i + 1..];
      i := i + 1;
    }
  }

  method ReadIdentAt(s: string, start: nat) returns (name: string, pos: nat)
    requires start <= |s|
    ensures start <= pos && Ident(name, pos - start) == ReadIdent(s[start..])
  {
    hide Spaces, ReadQuoted, ReadBare;
    var i := SpacesAt(s, start);
    if i >= |s| {
      return "", i;
    }
    assert s[start..][i - start..] == s[i..] && s[start..][i + 1 - start..] == s[i + 1..];
    if s[i] == '`' || s[i] == '"' {
      name, pos := ReadQuotedAt(s, i + 1, s[i]);
    } else {
      name, pos := ReadBareAt(s, i);
    }
  }

  method ReadQuotedAt(s: string, start: nat, q: char) returns (name: string, pos: nat)
    requires start <= |s|
    ensures start <= pos && Ident(name, pos - start) == ReadQuoted(s[start..], q)
  {
    name, pos := "", start;
    while pos < |s|
      invariant start <= pos <= |s|
      invariant Extend(name, pos - start, ReadQuoted(s[pos..], q)) == ReadQuoted(s[start..], q)
    {
      assert s[pos..][1..] == s[pos + 1..];
      if s[pos] != q {
        ExtendTwice(name, pos - start, [s[pos]], 1, ReadQuoted(s[pos + 1..], q));
        name, pos := name + [s[pos]], pos + 1;
      } else if pos + 1 < |s| && s[pos + 1] == q {
        assert s[pos..][2..] == s[pos + 2..];
        ExtendTwice(name, pos - start, [q], 2, ReadQuoted(s[pos + 2..], q));
        name, pos := name + [q], pos + 2;
      } else {
        pos := pos + 1;
        return;
      }
    }
  }

  lemma ExtendTwice(a: string, m: nat, b: string, n: nat, r: Ident)
    ensures Extend(a, m, Extend(b, n, r)) == Extend(a + b, m + n, r)
  {
    assert a + (b + r.name) == a + b + r.name;
  }

  method ReadBareAt(s: string, start: nat) returns (name: string, pos: nat)
    requires start <= |s|
    ensures start <= pos && Ident(name, pos - start) == ReadBare(s[start..])
  {
    name, pos := "", start;
    while pos < |s| && IsWord(s[pos])
      invariant start <= pos <= |s|
      invariant Extend(name, pos - start, ReadBare(s[pos..])) == ReadBare(s[start..])
    {
      assert s[pos..][1..] == s[pos + 1..];
      ExtendTwice(name, pos - start, [s[pos]], 1, ReadBare(s[pos + 1..]));
      name, pos := name + [s[pos]], pos + 1;
    }
  }

  method ReadQualifiedSchemaAt(s: string, start: nat) returns (schema: string, pos: nat)
    requires start <= |s|
    ensures start <= pos && Ident(schema, pos - start) == ReadQualifiedSchema(s[start..])
  {
    hide ReadIdent, Spaces;
    var first;
    first, pos := ReadIdentAt(s, start);
    if first == "" {
      return "", pos;
    }
    assert s[start..][pos - start..] == s[pos..];
    var i := SpacesAt(s, pos);
    if i < |s| && s[i] == '.' {
      assert s[start..][i + 1 - start..] == s[i + 1..];
      var second;
      second, pos := ReadIdentAt(s, i + 1);
      if second != "" {
        return first, pos;
      }
    }
    schema := "";
  }

  method ScanTurnAt(s: string, i: nat, q: Quote) returns (t: Turn)
    requires i < |s|
    ensures t == ScanTurn(s[i..], i > 0 && IsWord(s[i - 1]), q)
  {
    hide KeywordLength, ReadQualifiedSchema;
    var c := s[i];
    if q != Normal {
      if Escapes(c, q) {
        return Go(if i + 1 < |s| then 2 else 1, q);
      }
      return Go(1, Closed(c, q));
    }
    if c == '\'' {
      return Go(1, Squote);
    }
    var boundary := i == 0 || !IsWord(s[i - 1]);
    if !boundary || !IsAlpha(c) {
      return Go(1, Normal);
    }
    var n := KeywordLength(s[i..]);
    if n == 0 {
      return Go(1, Normal);
    }
    assert s[i..][n..] == s[i + n..];
    var schema, pos := ReadQualifiedSchemaAt(s, i + n);
    if schema != "" {
      return Found(schema);
    }
    t := Go(pos - i, Normal);
  }

  method ExtractScan(s: string) returns (r: Option<string>)
    ensures r == ExtractSchema(s)
  {
    hide ScanTurn;
    var q, i := Normal, 0;
    assert s[0..] == s;
    while i < |s|
      invariant 0 <= i <= |s|
      invariant Extract(s[i..], i > 0 && IsWord(s[i - 1]), q) == ExtractSchema(s)
      decreases |s| - i
    {
      var t := ScanTurnAt(s, i, q);
      match t
      case Found(schema) => return Some(schema);
      case Go(k, q') =>
        assert s[i..][k..] == s[i + k..] && s[i..][k - 1] == s[i + k - 1];
        i, q := i + k, q';
    }
    r := None;
  }

  // ---- Quoted names come back ----

  ghost predicate Blank(s: string) { forall c :: c in s ==> IsSpace(c) }

  /** A name with every quote character doubled ("Schema Object Names" in the MySQL Reference Manual). */
  function Doubled(name: string, q: char): string {
    if name == [] then [] else (if name[0] == q then [q, q] else [name[0]]) + Doubled(name[1..], q)
  }

  function Quoted(name: string, q: char): string { [q] + Doubled(name, q) + [q] }

  lemma {:induction false} ReadQuotedDoubled(name: string, q: char, after: string)
    requires after != [] ==> after[0] != q
    ensures ReadQuoted(Doubled(name, q) + [q] + after, q) == Ident(name, |Doubled(name, q)| + 1)
  {
    var s := Doubled(name, q) + [q] + after;
    if name == [] {
      assert s == [q] + after;
    } else {
      ReadQuotedDoubled(name[1..], q, after);
      var t := Doubled(name[1..], q) + [q] + after;
      if name[0] == q {
        assert s == [q, q] + t && s[2..] == t;
      } else {
        assert s == [name[0]] + t && s[1..] == t;
      }
      assert name == [name[0]] + name[1..];
    }
  }

  lemma {:induction false} SpacesOverBlank(ws: string, after: string)
    requires Blank(ws) && (after != [] ==> !IsSpace(after[0]))
    ensures Spaces(ws + after) == |ws|
  {
    if ws == [] {
      assert ws + after == after;
    } else {
      assert (ws + after)[1..] == ws[1..] + after;
      SpacesOverBlank(ws[1..], after);
    }
  }

  predicate IdentQuote(q: char) { q == '`' || q == '"' }

  lemma ReadIdentFromQuote(ws: string, q: char, t: string)
    requires Blank(ws) && IdentQuote(q)
    ensures ReadIdent(ws + ([q] + t)) == Extend([], |ws| + 1, ReadQuoted(t, q))
  {
    hide ReadQuoted, Spaces, ReadBare;
    var s := ws + ([q] + t);
    SpacesOverBlank(ws, [q] + t);
    assert s[|ws|] == q && s[|ws| + 1..] == t;
  }

  lemma ReadIdentQuoted(ws: string, name: string, q: char, after: string)
    requires Blank(ws) && IdentQuote(q) && (after != [] ==> after[0] != q)
    ensures ReadIdent(ws + Quoted(name, q) + after) == Ident(name, |ws| + |Quoted(name, q)|)
  {
    hide ReadIdent, ReadQuoted, Doubled;
    var t := Doubled(name, q) + [q] + after;
    assert ws + Quoted(name, q) + after == ws + ([q] + t);
    ReadIdentFromQuote(ws, q, t);
    ReadQuotedDoubled(name, q, after);
  }

  /** Whatever follows a non-empty quoted name, something is read. */
  lemma ReadIdentNonEmpty(ws: string, name: string, q: char, after: string)
    requires Blank(ws) && IdentQuote(q) && name != []
    ensures ReadIdent(ws + Quoted(name, q) + after).name != []
  {
    hide ReadIdent, ReadQuoted, Doubled;
    var t := Doubled(name, q) + ([q] + after);
    assert ws + Quoted(name, q) + after == ws + ([q] + t);
    ReadIdentFromQuote(ws, q, t);
    ReadQuotedNonEmpty(name, q, [q] + after);
  }

  lemma ReadQuotedNonEmpty(name: string, q: char, after: string)
    requires name != []
    ensures ReadQuoted(Doubled(name, q) + after, q).name != []
  {
    var t := Doubled(name, q) + after;
    assert t[0] == name[0] && (name[0] == q ==> t[1] == q);
  }

  /** schema, dot, table, with blanks allowed around the dot. */
  function QualifiedName(ws: string, schema: string, q: char, ws2: string, ws3: string, table: string, q2: char): string {
    ws + Quoted(schema, q) + (ws2 + "." + (ws3 + Quoted(table, q2)))
  }

  lemma ReadQualifiedQuoted(ws: string, schema: string, q: char, ws2: string, ws3: string, table: string, q2: char, suffix: string)
    requires Blank(ws) && Blank(ws2) && Blank(ws3) && IdentQuote(q) && IdentQuote(q2)
    requires schema != [] && table != []
    ensures ReadQualifiedSchema(QualifiedName(ws, schema, q, ws2, ws3, table, q2) + suffix).name == schema
  {
    hide ReadIdent, Spaces, Quoted;
    var last := ws3 + Quoted(table, q2) + suffix;
    var after := ws2 + ("." + last);
    var head := ws + Quoted(schema, q);
    assert QualifiedName(ws, schema, q, ws2, ws3, table, q2) + suffix == head + after;
    assert after[0] != q by { if ws2 != [] { assert ws2[0] in ws2; } }
    ReadIdentQuoted(ws, schema, q, after);
    SpacesOverBlank(ws2, "." + last);
    ReadIdentNonEmpty(ws3, table, q2, suffix);
    ReadQualifiedParts(head, ws2, last, schema);
  }

  /** A schema name read whole, then a dot, then some second name. */
  lemma ReadQualifiedParts(head: string, ws: string, last: string, schema: string)
    requires var after := ws + ("." + last);
             ReadIdent(head + after) == Ident(schema, |head|) && Spaces(after) == |ws|
    requires schema != [] && ReadIdent(last).name != []
    ensures ReadQualifiedSchema(head + (ws + ("." + last))).name == schema
  {
    hide ReadIdent, Spaces;
    var s := head + (ws + ("." + last));
    assert s[|head|..] == ws + ("." + last);
    var dot := |head| + |ws|;
    assert s[dot] == '.' && s[dot + 1..] == last;
  }

  // ---- The keyword ----

  lemma KeywordFound(kw: string, k: string, after: string)
    requires k in SCHEMA_KEYWORDS && SameButCase(kw, k) && (after != [] ==> !IsWord(after[0]))
    ensures KeywordLength(kw + after) == |k| && IsAlpha(kw[0])
  {
  }

  /** Text with all its strings closed, no keyword outside them, and no identifier cut at its end. */
  predicate KeywordFree(p: string, inWord: bool, q: Quote)
    decreases |p|
  {
    if p == [] then q == Normal && !inWord
    else if q != Normal then
      if Escapes(p[0], q) then |p| > 1 && KeywordFree(p[2..], IsWord(p[1]), q)
      else KeywordFree(p[1..], IsWord(p[0]), Closed(p[0], q))
    else if p[0] == '\'' then KeywordFree(p[1..], false, Squote)
    else (inWord || KeywordLength(p) == 0) && KeywordFree(p[1..], IsWord(p[0]), Normal)
  }

  lemma {:induction false} KeywordFreeEnd(p: string, inWord: bool, q: Quote)
    requires KeywordFree(p, inWord, q) && p != []
    ensures !IsWord(p[|p| - 1])
    decreases |p|
  {
    hide KeywordLength;
    var k := if q != Normal && Escapes(p[0], q) then 2 else 1;
    if k < |p| {
      var q' := if q != Normal then (if k == 2 then q else Closed(p[0], q))
                else if p[0] == '\'' then Squote else Normal;
      KeywordFreeEnd(p[k..], IsWord(p[k - 1]), q');
      assert p[k..][|p| - k - 1] == p[|p| - 1];
    }
  }

  lemma KeywordInside(p: string, x: string, kw: string)
    requires p != [] && !IsWord(p[|p| - 1]) && (forall c :: c in kw ==> IsAlpha(c)) && WordAt(p + x, kw)
    ensures WordAt(p, kw)
  {
    var s := p + x;
    forall i | 0 <= i < |kw| && i < |p| ensures IsWord(p[i]) {
      assert LowerAll(s[..|kw|])[i] == Lower(p[i]) == kw[i];
      assert kw[i] in kw;
    }
    assert |kw| < |p|;
    assert s[..|kw|] == p[..|kw|];
  }

  lemma KeywordsAreAlpha()
    ensures forall k, c :: k in SCHEMA_KEYWORDS && c in k ==> IsAlpha(c)
  {
  }

  /** No keyword appears because text was appended after the end of a word. */
  lemma NoKeywordBefore(p: string, x: string)
    requires p != [] && !IsWord(p[|p| - 1]) && KeywordLength(p) == 0
    ensures KeywordLength(p + x) == 0
  {
    hide WordAt, IsAlpha, IsWord;
    KeywordsAreAlpha();
    assert SCHEMA_KEYWORDS[0] == "from" && SCHEMA_KEYWORDS[1] == "into" && SCHEMA_KEYWORDS[2] == "update"
        && SCHEMA_KEYWORDS[3] == "join" && SCHEMA_KEYWORDS[4] == "table";
    if WordAt(p + x, "from") { KeywordInside(p, x, "from"); }
    if WordAt(p + x, "into") { KeywordInside(p, x, "into"); }
    if WordAt(p + x, "update") { KeywordInside(p, x, "update"); }
    if WordAt(p + x, "join") { KeywordInside(p, x, "join"); }
    if WordAt(p + x, "table") { KeywordInside(p, x, "table"); }
  }

  lemma {:induction false} ExtractPasses(p: string, inWord: bool, q: Quote, x: string)
    requires KeywordFree(p, inWord, q) && x != []
    ensures Extract(p + x, inWord, q) == Extract(x, false, Normal)
    decreases |p|
  {
    hide KeywordLength, ReadQualifiedSchema;
    if p == [] {
      assert p + x == x;
    } else {
      KeywordFreeEnd(p, inWord, q);
      var s := p + x;
      if q == Normal && p[0] != '\'' && !inWord {
        NoKeywordBefore(p, x);
      }
      var k := if q != Normal && Escapes(p[0], q) then 2 else 1;
      var q' := if q != Normal then (if k == 2 then q else Closed(p[0], q))
                else if p[0] == '\'' then Squote else Normal;
      assert ScanTurn(s, inWord, q) == Go(k, q');
      assert s[k..] == p[k..] + x && s[k - 1] == p[k - 1];
      ExtractPasses(p[k..], IsWord(p[k - 1]), q', x);
    }
  }

  /**
   For all non-empty schema and table names, whatever their characters, the schema
   of a quoted qualified name is extracted: behind any keyword-free text and any of
   the five keywords in any letter case, with any text after it.
  */
  lemma QuotedSchemaRoundTrip(prefix: string, kw: string, k: string, ws: string, schema: string, q: char,
                              ws2: string, ws3: string, table: string, q2: char, suffix: string)
    requires KeywordFree(prefix, false, Normal)
    requires k in SCHEMA_KEYWORDS && SameButCase(kw, k)
    requires Blank(ws) && Blank(ws2) && Blank(ws3) && IdentQuote(q) && IdentQuote(q2)
    requires schema != [] && table != []
    ensures ExtractSchema(prefix + (kw + (QualifiedName(ws, schema, q, ws2, ws3, table, q2) + suffix))) == Some(schema)
  {
    hide KeywordLength, ReadQualifiedSchema, KeywordFree;
    var name := QualifiedName(ws, schema, q, ws2, ws3, table, q2) + suffix;
    assert !IsWord(name[0]) by { if ws != [] { assert ws[0] in ws; } }
    KeywordFound(kw, k, name);
    var x := kw + name;
    assert x[|k|..] == name && x[0] == kw[0];
    ReadQualifiedQuoted(ws, schema, q, ws2, ws3, table, q2, suffix);
    assert x[0] != '\'' && IsAlpha(x[0]);
    assert ScanTurn(x, false, Normal) == Found(schema);
    ExtractPasses(prefix, false, Normal, x);
  }
}
