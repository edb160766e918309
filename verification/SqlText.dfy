/** Character tests of the C locale and the quote states shared by the SQL scanners. */
module SqlText {

  function Lower(c: char): char {
    if 'A' <= c <= 'Z' then (c as int + 32) as char else c
  }

  function Upper(c: char): char {
    if 'a' <= c <= 'z' then (c as int - 32) as char else c
  }

  predicate IsSpace(c: char) {
    c == ' ' || 9 <= c as int <= 13
  }

  predicate IsAlpha(c: char) {
    'A' <= c <= 'Z' || 'a' <= c <= 'z'
  }

  /** A character of an identifier or keyword. */
  predicate IsWord(c: char) {
    IsAlpha(c) || '0' <= c <= '9' || c == '_' || c == '$'
  }

  function LowerAll(s: string): (r: string)
    ensures |r| == |s| && forall i :: 0 <= i < |s| ==> r[i] == Lower(s[i])
  {
    seq(|s|, i requires 0 <= i < |s| => Lower(s[i]))
  }

  // ---- Quoting ----

  datatype Quote = Normal | Squote | Dquote | Btick

  function QuoteChar(q: Quote): char
    requires q != Normal
  {
    match q
    case Squote => '\''
    case Dquote => '"'
    case Btick => '`'
  }

  /** The state after an unquoted character. */
  function Opened(c: char): Quote {
    if c == '\'' then Squote else if c == '"' then Dquote else if c == '`' then Btick else Normal
  }

  /** A backslash escapes the next character in strings but not in backticked names. */
  predicate Escapes(c: char, q: Quote) { c == '\\' && q != Btick }

  /** The state after an unescaped character inside quotes. */
  function Closed(c: char, q: Quote): Quote
    requires q != Normal
  {
    if c == QuoteChar(q) then Normal else q
  }

  // ---- Letter case ----

  /** Equal up to the case of ASCII letters. */
  ghost predicate SameButCase(s: string, t: string) {
    |s| == |t| && forall i :: 0 <= i < |s| ==> Lower(s[i]) == Lower(t[i])
  }

  /** Letter case never matters to a character test. */
  lemma CaseOfChar(c: char, d: char)
    requires Lower(c) == Lower(d)
    ensures IsSpace(c) == IsSpace(d) && IsAlpha(c) == IsAlpha(d) && IsWord(c) == IsWord(d)
    ensures Opened(c) == Opened(d)
    ensures !IsAlpha(c) ==> c == d
  {
  }

  lemma CaseTail(s: string, t: string, n: nat)
    requires SameButCase(s, t) && n <= |s|
    ensures |s| == |t| && SameButCase(s[n..], t[n..]) && SameButCase(s[..n], t[..n])
  {
  }

  lemma CaseConcat(a: string, b: string, c: string, d: string)
    requires SameButCase(a, c) && SameButCase(b, d)
    ensures SameButCase(a + b, c + d)
  {
  }
}
