/**
 The session a client connection keeps: its current database, whether it is in a
 transaction and its autocommit setting, changed by statements that are
 recognised from a normalised prefix and answered locally.
*/
module SessionState {
  import opened Options
  import opened SqlText

  /** The length at which normalisation stops. */
  const PREFIX: nat := 16

  /** Upper case with blanks collapsed, at most `room` characters, from a position after a blank or not. */
  function Normalise(s: string, inSpace: bool, room: nat): string
    decreases |s|
  {
    if s == [] || room == 0 then []
    else if IsSpace(s[0]) then
      if inSpace then Normalise(s[1..], true, room) else " " + Normalise(s[1..], true, room - 1)
    else [Upper(s[0])] + Normalise(s[1..], false, room - 1)
  }

  function Prefix(sql: string): string { Normalise(sql, true, PREFIX) }

  method NormalisePrefix(sql: string) returns (out: string)
    ensures out == Prefix(sql)
  {
    out := "";
    var inSpace := true;
    assert sql[0..] == sql;
    for i := 0 to |sql|
      invariant |out| <= PREFIX && (!inSpace ==> out != "")
      invariant out + Normalise(sql[i..], inSpace, PREFIX - |out|) == Prefix(sql)
    {
      if |out| >= PREFIX {
        break;
      }
      assert sql[i..][1..] == sql[i + 1..];
      ghost var rest := Normalise(sql[i..], inSpace, PREFIX - |out|);
      if IsSpace(sql[i]) {
        if !inSpace && out != "" {
          assert out + rest == out + " " + rest[1..];
          out := out + " ";
        }
        inSpace := true;
      } else {
        assert out + rest == out + [Upper(sql[i])] + rest[1..];
        out := out + [Upper(sql[i])];
        inSpace := false;
      }
    }
  }

  predicate StartsWith(s: string, p: string) { |p| <= |s| && s[..|p|] == p }

  predicate Contains(s: string, p: string) { exists i :: 0 <= i <= |s| && StartsWith(s[i..], p) }

  // ---- What the statements do to the session ----

  datatype State = State(currentDb: string, inTransaction: bool, autocommit: bool, open: bool)

  function SkipBlanks(s: string): (r: string)
    ensures |r| <= |s|
  {
    if s != [] && (s[0] == ' ' || s[0] == '\t') then SkipBlanks(s[1..]) else s
  }

  function DropTrailing(s: string): (r: string)
    ensures |r| <= |s|
  {
    if s != [] && IsSpace(s[|s| - 1]) then DropTrailing(s[..|s| - 1]) else s
  }

  /** The name after USE: the text from the first character past position 3 that is neither blank nor tab; none throws. */
  function UseTarget(sql: string): Option<string> {
    var rest := SkipBlanks(if |sql| >= 3 then sql[3..] else []);
    if rest == [] then None else Some(DropTrailing(rest))
  }

  /** The session-local statements, in the order they are looked for. */
  datatype Local = SetLocal | UseLocal | BeginLocal | EndLocal

  function LocalKind(prefix: string): Option<Local> {
    if StartsWith(prefix, "SET ") then Some(SetLocal)
    else if StartsWith(prefix, "USE ") then Some(UseLocal)
    else if StartsWith(prefix, "BEGIN") || StartsWith(prefix, "START TRANS") then Some(BeginLocal)
    else if StartsWith(prefix, "COMMIT") || StartsWith(prefix, "ROLLBACK") then Some(EndLocal)
    else None
  }

  function QueryStep(s: State, sql: string): State {
    var prefix := Prefix(sql);
    match LocalKind(prefix)
    case Some(SetLocal) =>
      if Contains(prefix, "AUTOCOMMIT")
      then s.(autocommit := !Contains(prefix, "AUTOCOMMIT=0") && !Contains(prefix, "AUTOCOMMIT = 0")) else s
    case Some(UseLocal) => (match UseTarget(sql) case Some(db) => s.(currentDb := db) case None => s.(open := false))
    case Some(BeginLocal) => s.(inTransaction := true)
    case Some(EndLocal) => s.(inTransaction := false)
    case None => s
  }

  const COM_QUIT: int := 0x01
  const COM_INIT_DB: int := 0x02
  const COM_QUERY: int := 0x03

  /** One packet of the command loop; an empty packet or COM_QUIT ends it. */
  function CommandStep(s: State, payload: string): State {
    if !s.open then s
    else if payload == [] || payload[0] as int == COM_QUIT then s.(open := false)
    else if payload[0] as int == COM_INIT_DB then (if |payload| > 1 then s.(currentDb := payload[1..]) else s)
    else if payload[0] as int == COM_QUERY then QueryStep(s, payload[1..])
    else s
  }

  function Run(s: State, payloads: seq<string>): State
    decreases |payloads|
  {
    if payloads == [] then s else CommandStep(Run(s, payloads[..|payloads| - 1]), payloads[|payloads| - 1])
  }

  // ---- What the prefix tests mean for the statement's own text ----

  function TrimLeft(s: string): (r: string)
    ensures |r| <= |s|
  {
    if s != [] && IsSpace(s[0]) then TrimLeft(s[1..]) else s
  }

  /** `s` begins with `word` up to letter case. */
  ghost predicate Opens(s: string, word: string) {
    |word| <= |s| && forall i :: 0 <= i < |word| ==> Upper(s[i]) == word[i]
  }

  /** `s` begins with `first`, a run of blanks, and `second`. */
  ghost predicate OpensTwo(s: string, first: string, second: string) {
    Opens(s, first) && |s| > |first| && IsSpace(s[|first|]) && Opens(TrimLeft(s[|first|..]), second)
  }

  /** The statement opens a transaction: BEGIN..., or START, blanks, TRANS..., after any blanks. */
  ghost predicate Begins(sql: string) {
    var t := TrimLeft(sql);
    Opens(t, "BEGIN") || OpensTwo(t, "START", "TRANS")
  }

  ghost predicate Ends(sql: string) {
    Opens(TrimLeft(sql), "COMMIT") || Opens(TrimLeft(sql), "ROLLBACK")
  }

  ghost predicate NoBlank(word: string) { forall i :: 0 <= i < |word| ==> !IsSpace(word[i]) }

  lemma {:induction false} NormaliseTrims(s: string, room: nat)
    ensures Normalise(s, true, room) == Normalise(TrimLeft(s), true, room)
  {
    if s != [] && IsSpace(s[0]) {
      NormaliseTrims(s[1..], room);
    }
  }

  /** The normalised text begins with a word and more exactly when the text does, and then continues with what follows. */
  lemma {:induction false} NormaliseOpens(s: string, inSpace: bool, room: nat, word: string, more: string)
    requires NoBlank(word) && |word| + |more| <= room && (inSpace && s != [] ==> !IsSpace(s[0])) && word != []
    ensures StartsWith(Normalise(s, inSpace, room), word + more) <==>
            Opens(s, word) && StartsWith(Normalise(s[|word|..], false, room - |word|), more)
    decreases |word|
  {
    var n := Normalise(s, inSpace, room);
    var tail := word[1..];
    assert word + more == [word[0]] + (tail + more);
    if s != [] && !IsSpace(s[0]) {
      var next := Normalise(s[1..], false, room - 1);
      assert n == [Upper(s[0])] + next;
      HeadAndTail(Upper(s[0]), next, word[0], tail + more);
      OpensSplit(s, word);
      if tail == [] {
        assert tail + more == more;
      } else {
        NormaliseOpens(s[1..], false, room - 1, tail, more);
        if Opens(s, word) {
          assert s[1..][|tail|..] == s[|word|..];
        }
      }
    } else if s != [] {
      assert n[0] == ' ' && Upper(s[0]) == s[0];
    }
  }

  lemma HeadAndTail(c: char, s: string, d: char, p: string)
    ensures StartsWith([c] + s, [d] + p) <==> c == d && StartsWith(s, p)
  {
    if StartsWith([c] + s, [d] + p) {
      assert ([c] + s)[..1 + |p|][0] == d;
      assert ([c] + s)[..1 + |p|][1..] == s[..|p|];
      assert ([d] + p)[1..] == p;
    }
  }

  lemma OpensSplit(s: string, word: string)
    requires word != [] && s != []
    ensures Opens(s, word) <==> Upper(s[0]) == word[0] && Opens(s[1..], word[1..])
  {
    if Upper(s[0]) == word[0] && Opens(s[1..], word[1..]) {
      forall i | 0 <= i < |word| ensures Upper(s[i]) == word[i] {
        if i > 0 {
          assert s[1..][i - 1] == s[i] && word[1..][i - 1] == word[i];
        }
      }
    }
  }

  /** One word in the prefix. */
  lemma PrefixOpens(sql: string, word: string)
    requires NoBlank(word) && 0 < |word| <= PREFIX
    ensures StartsWith(Prefix(sql), word) <==> Opens(TrimLeft(sql), word)
  {
    var t := TrimLeft(sql);
    NormaliseTrims(sql, PREFIX);
    TrimmedStart(sql);
    NormaliseOpens(t, true, PREFIX, word, []);
    assert word + [] == word;
  }

  lemma {:induction false} TrimmedStart(s: string)
    ensures TrimLeft(s) != [] ==> !IsSpace(TrimLeft(s)[0])
  {
    if s != [] && IsSpace(s[0]) {
      TrimmedStart(s[1..]);
    }
  }

  /** After a word, a blank in the prefix stands for a run of blanks in the text. */
  lemma NormaliseBlank(s: string, room: nat, second: string)
    requires NoBlank(second) && 1 + |second| <= room
    ensures StartsWith(Normalise(s, false, room), " " + second) <==>
            s != [] && IsSpace(s[0]) && Opens(TrimLeft(s), second)
  {
    if s != [] && IsSpace(s[0]) {
      var rest := TrimLeft(s);
      assert rest == TrimLeft(s[1..]);
      NormaliseTrims(s[1..], room - 1);
      TrimmedStart(s);
      HeadAndTail(' ', Normalise(rest, true, room - 1), ' ', second);
      if second != [] {
        NormaliseOpens(rest, true, room - 1, second, []);
        assert second + [] == second;
      }
    } else if s != [] {
      HeadAndTail(Upper(s[0]), Normalise(s[1..], false, room - 1), ' ', second);
    }
  }

  /** Two words in the prefix, the second possibly empty. */
  lemma PrefixOpensTwo(sql: string, first: string, second: string)
    requires NoBlank(first) && NoBlank(second) && 0 < |first| && |first| + 1 + |second| <= PREFIX
    ensures StartsWith(Prefix(sql), first + " " + second) <==> OpensTwo(TrimLeft(sql), first, second)
  {
    var t := TrimLeft(sql);
    NormaliseTrims(sql, PREFIX);
    TrimmedStart(sql);
    assert first + " " + second == first + (" " + second);
    NormaliseOpens(t, true, PREFIX, first, " " + second);
    if Opens(t, first) {
      NormaliseBlank(t[|first|..], PREFIX - |first|, second);
    }
  }

  lemma KindByPrefix(p: string)
    ensures LocalKind(p) == Some(SetLocal) <==> StartsWith(p, "SET ")
    ensures LocalKind(p) == Some(UseLocal) <==> StartsWith(p, "USE ")
    ensures LocalKind(p) == Some(BeginLocal) <==> StartsWith(p, "BEGIN") || StartsWith(p, "START TRANS")
    ensures LocalKind(p) == Some(EndLocal) <==> StartsWith(p, "COMMIT") || StartsWith(p, "ROLLBACK")
  {
    if |p| >= 4 {
      var q := p[..2];
      assert StartsWith(p, "SET ") ==> q == "SE" by { assert StartsWith(p, "SET ") ==> p[..4][..2] == q; }
      assert StartsWith(p, "USE ") ==> q == "US" by { assert StartsWith(p, "USE ") ==> p[..4][..2] == q; }
      assert StartsWith(p, "BEGIN") ==> q == "BE" by { assert StartsWith(p, "BEGIN") ==> p[..5][..2] == q; }
      assert StartsWith(p, "START TRANS") ==> q == "ST" by { assert StartsWith(p, "START TRANS") ==> p[..11][..2] == q; }
      assert StartsWith(p, "COMMIT") ==> q == "CO" by { assert StartsWith(p, "COMMIT") ==> p[..6][..2] == q; }
      assert StartsWith(p, "ROLLBACK") ==> q == "RO" by { assert StartsWith(p, "ROLLBACK") ==> p[..8][..2] == q; }
    }
  }

  /** Which text each session-local statement has. */
  lemma KindByText(sql: string)
    ensures LocalKind(Prefix(sql)) == Some(SetLocal) <==> OpensTwo(TrimLeft(sql), "SET", "")
    ensures LocalKind(Prefix(sql)) == Some(UseLocal) <==> OpensTwo(TrimLeft(sql), "USE", "")
    ensures LocalKind(Prefix(sql)) == Some(BeginLocal) <==> Begins(sql)
    ensures LocalKind(Prefix(sql)) == Some(EndLocal) <==> Ends(sql)
  {
    hide Normalise, StartsWith, TrimLeft, LocalKind, Opens;
    KindByPrefix(Prefix(sql));
    assert "SET" + " " + "" == "SET " && "USE" + " " + "" == "USE ";
    PrefixOpensTwo(sql, "SET", "");
    PrefixOpensTwo(sql, "USE", "");
    PrefixOpens(sql, "BEGIN");
    assert "START" + " " + "TRANS" == "START TRANS";
    PrefixOpensTwo(sql, "START", "TRANS");
    PrefixOpens(sql, "COMMIT");
    PrefixOpens(sql, "ROLLBACK");
  }

  // ---- Transactions over whole command histories ----

  ghost predicate BeginCommand(payload: string) {
    payload != [] && payload[0] as int == 3 && Begins(payload[1..])
  }

  ghost predicate EndCommand(payload: string) {
    payload != [] && payload[0] as int == 3 && Ends(payload[1..])
  }

  /** Some command began a transaction and none after it ended one. */
  ghost predicate OpenTransaction(h: seq<string>) {
    exists i :: 0 <= i < |h| && BeginCommand(h[i]) && forall j :: i < j < |h| ==> !EndCommand(h[j])
  }

  lemma OpenTransactionStep(h: seq<string>, c: string)
    ensures OpenTransaction(h + [c]) <==> BeginCommand(c) || (OpenTransaction(h) && !EndCommand(c))
  {
    hide BeginCommand, EndCommand;
    var k := h + [c];
    if OpenTransaction(k) {
      var i :| 0 <= i < |k| && BeginCommand(k[i]) && forall j :: i < j < |k| ==> !EndCommand(k[j]);
      if i < |h| {
        assert k[|h|] == c;
        assert forall j :: i < j < |h| ==> k[j] == h[j];
      }
    }
    if BeginCommand(c) {
      assert k[|h|] == c;
    } else if OpenTransaction(h) && !EndCommand(c) {
      var i :| 0 <= i < |h| && BeginCommand(h[i]) && forall j :: i < j < |h| ==> !EndCommand(h[j]);
      assert k[i] == h[i];
      assert forall j :: i < j < |k| ==> k[j] == if j < |h| then h[j] else c;
    }
  }

  lemma CommandTransaction(s: State, c: string)
    requires CommandStep(s, c).open
    ensures s.open && CommandStep(s, c).inTransaction == (BeginCommand(c) || (s.inTransaction && !EndCommand(c)))
  {
    hide Normalise, LocalKind, Begins, Ends, Contains;
    if c != [] && c[0] as int == COM_QUERY {
      KindByText(c[1..]);
    }
  }

  /** A live session is in a transaction exactly when its history has a begin with no later commit or rollback. */
  lemma {:induction false} InTransactionExactly(s: State, h: seq<string>)
    requires !s.inTransaction && Run(s, h).open
    ensures Run(s, h).inTransaction <==> OpenTransaction(h)
    decreases |h|
  {
    hide CommandStep, BeginCommand, EndCommand;
    if h != [] {
      var before, c := h[..|h| - 1], h[|h| - 1];
      assert h == before + [c];
      CommandTransaction(Run(s, before), c);
      InTransactionExactly(s, before);
      OpenTransactionStep(before, c);
    }
  }

  lemma {:induction false} TrimLeftKeeps(s: string, rest: string)
    requires TrimLeft(s) != []
    ensures TrimLeft(s + rest) == TrimLeft(s) + rest
  {
    if IsSpace(s[0]) {
      assert (s + rest)[1..] == s[1..] + rest;
      TrimLeftKeeps(s[1..], rest);
    }
  }

  lemma OpensKeeps(t: string, word: string, rest: string)
    requires Opens(t, word)
    ensures Opens(t + rest, word)
  {
  }

  lemma OpensTwoKeeps(t: string, first: string, second: string, rest: string)
    requires OpensTwo(t, first, second)
    ensures OpensTwo(t + rest, first, second)
  {
    OpensKeeps(t, first, rest);
    var n := |first|;
    assert (t + rest)[n] == t[n] && (t + rest)[n..] == t[n..] + rest;
    if second != [] {
      TrimLeftKeeps(t[n..], rest);
      OpensKeeps(TrimLeft(t[n..]), second, rest);
    }
  }

  /**
   A batch whose first statement is answered locally is answered locally as a whole:
   whatever stands behind it, writes included, is never routed.
  */
  lemma LocalBatchIsNotRouted(sql: string, rest: string)
    requires LocalKind(Prefix(sql)).Some?
    ensures LocalKind(Prefix(sql + rest)) == LocalKind(Prefix(sql))
  {
    hide Normalise, LocalKind, TrimLeft, Opens;
    KindByText(sql);
    KindByText(sql + rest);
    var t := TrimLeft(sql);
    LocalTextIsNotEmpty(sql);
    TrimLeftKeeps(sql, rest);
    match LocalKind(Prefix(sql)).value
    case SetLocal => OpensTwoKeeps(t, "SET", "", rest);
    case UseLocal => OpensTwoKeeps(t, "USE", "", rest);
    case BeginLocal =>
      if Opens(t, "BEGIN") { OpensKeeps(t, "BEGIN", rest); } else { OpensTwoKeeps(t, "START", "TRANS", rest); }
    case EndLocal =>
      if Opens(t, "COMMIT") { OpensKeeps(t, "COMMIT", rest); } else { OpensKeeps(t, "ROLLBACK", rest); }
  }

  lemma LocalTextIsNotEmpty(sql: string)
    requires LocalKind(Prefix(sql)).Some?
    ensures TrimLeft(sql) != []
  {
    hide Normalise, LocalKind, TrimLeft;
    KindByText(sql);
    match LocalKind(Prefix(sql)).value
    case SetLocal => assert OpensTwo(TrimLeft(sql), "SET", "");
    case UseLocal => assert OpensTwo(TrimLeft(sql), "USE", "");
    case BeginLocal => assert Begins(sql);
    case EndLocal => assert Ends(sql);
  }

  // ---- Autocommit ----

  lemma {:induction false} NormaliseLength(s: string, inSpace: bool, room: nat)
    ensures |Normalise(s, inSpace, room)| <= room
    decreases |s|
  {
    if s != [] && room > 0 {
      if IsSpace(s[0]) && inSpace {
        NormaliseLength(s[1..], true, room);
      } else {
        NormaliseLength(s[1..], IsSpace(s[0]), room - 1);
      }
    }
  }

  lemma FoundInPrefix(p: string, x: string)
    requires StartsWith(p, "SET ") && |p| <= PREFIX && |x| >= 12 && x[0] == 'A'
    ensures Contains(p, x) <==> |x| == 12 && p == "SET " + x
  {
    assert p[..4] == "SET ";
    assert forall k :: 0 <= k < 4 ==> p[k] == p[..4][k] != 'A';
    assert p == p[..4] + p[4..];
    if Contains(p, x) {
      var i :| 0 <= i <= |p| && StartsWith(p[i..], x);
      assert p[i] == p[i..][..|x|][0] == 'A';
      assert i >= 4;
      assert p[i..] == x;
    }
    if |x| == 12 && p == "SET " + x {
      assert p[4..] == x;
      assert StartsWith(p[4..], x);
    }
  }

  /** Autocommit is turned off exactly by SET, blanks, AUTOCOMMIT=0; every other SET whose prefix names it turns it on. */
  lemma AutocommitExactly(s: State, sql: string)
    requires LocalKind(Prefix(sql)) == Some(SetLocal)
    ensures QueryStep(s, sql).autocommit ==
            if Contains(Prefix(sql), "AUTOCOMMIT") then !OpensTwo(TrimLeft(sql), "SET", "AUTOCOMMIT=0") else s.autocommit
  {
    var p := Prefix(sql);
    NormaliseLength(sql, true, PREFIX);
    hide Normalise, Contains;
    FoundInPrefix(p, "AUTOCOMMIT=0");
    FoundInPrefix(p, "AUTOCOMMIT = 0");
    assert "SET" + " " + "AUTOCOMMIT=0" == "SET AUTOCOMMIT=0" == "SET " + "AUTOCOMMIT=0";
    PrefixOpensTwo(sql, "SET", "AUTOCOMMIT=0");
    assert StartsWith(p, "SET AUTOCOMMIT=0") <==> p == "SET AUTOCOMMIT=0";
  }

  /** No other statement touches it, and SET touches nothing else. */
  lemma OnlySetTouchesAutocommit(s: State, sql: string)
    ensures !OpensTwo(TrimLeft(sql), "SET", "") ==> QueryStep(s, sql).autocommit == s.autocommit
    ensures OpensTwo(TrimLeft(sql), "SET", "") ==> QueryStep(s, sql) == s.(autocommit := QueryStep(s, sql).autocommit)
  {
    hide Prefix, LocalKind, Contains, OpensTwo;
    KindByText(sql);
  }

  lemma SpacedAutocommitPrefix(rest: string)
    ensures var sql := "SET autocommit " + rest;
            StartsWith(Prefix(sql), "SET AUTOCOMMIT") && !OpensTwo(TrimLeft(sql), "SET", "AUTOCOMMIT=0")
  {
    hide Normalise;
    var sql := "SET autocommit " + rest;
    assert TrimLeft(sql) == sql;
    var t := sql[3..];
    assert t[1..][0] == 'a';
    assert TrimLeft(t) == t[1..];
    assert "SET" + " " + "AUTOCOMMIT" == "SET AUTOCOMMIT";
    PrefixOpensTwo(sql, "SET", "AUTOCOMMIT");
    assert t[1..][10] == ' ';
  }

  /** A blank before the equals sign is enough for a request to turn it off to turn it on. */
  lemma SpacedAutocommitTurnsOn(s: State, rest: string)
    ensures QueryStep(s, "SET autocommit " + rest).autocommit
  {
    hide Prefix, OpensTwo, TrimLeft, QueryStep;
    SpacedAutocommitPrefix(rest);
    var sql := "SET autocommit " + rest;
    var p := Prefix(sql);
    assert p[..4] == p[..14][..4] == "SET ";
    assert p[4..][..10] == p[..14][4..] == "AUTOCOMMIT";
    assert StartsWith(p[4..], "AUTOCOMMIT");
    AutocommitExactly(s, sql);
  }

  // ---- USE ----

  ghost predicate AllSpace(s: string) { forall c :: c in s ==> IsSpace(c) }

  /** Only the two characters that USE skips. */
  ghost predicate AllBlank(s: string) { forall i :: 0 <= i < |s| ==> s[i] == ' ' || s[i] == '\t' }

  lemma {:induction false} SkipBlanksOver(x: string, y: string)
    ensures AllBlank(x) ==> SkipBlanks(x + y) == SkipBlanks(y)
    ensures !AllBlank(x) ==> SkipBlanks(x + y) == SkipBlanks(x) + y && SkipBlanks(x) != []
  {
    if x == [] {
      assert x + y == y;
    } else {
      assert x == [x[0]] + x[1..];
      assert (x + y)[0] == x[0] && (x + y)[1..] == x[1..] + y;
      SkipBlanksOver(x[1..], y);
    }
  }

  lemma {:induction false} DropTrailingOver(a: string, tail: string)
    requires AllSpace(tail) && a != [] && !IsSpace(a[|a| - 1])
    ensures DropTrailing(a + tail) == a
    decreases |tail|
  {
    if tail == [] {
      assert a + tail == a;
    } else {
      var n := |tail| - 1;
      assert (a + tail)[..|a| + n] == a + tail[..n];
      assert (a + tail)[|a| + n] == tail[n];
      DropTrailingOver(a, tail[..n]);
    }
  }

  lemma {:induction false} TrimLeftOver(lead: string, t: string)
    requires AllSpace(lead) && t != [] && !IsSpace(t[0])
    ensures TrimLeft(lead + t) == t
  {
    if lead == [] {
      assert lead + t == t;
    } else {
      assert (lead + t)[1..] == lead[1..] + t;
      TrimLeftOver(lead[1..], t);
    }
  }

  /** The text of a USE statement: blanks, the keyword in any case, blanks, the name, blanks. */
  ghost predicate UseParts(lead: string, use: string, gap: string, db: string, tail: string) {
    && AllSpace(lead) && AllSpace(gap) && AllSpace(tail)
    && |use| == 3 && Opens(use, "USE")
    && gap != [] && db != [] && !IsSpace(db[0]) && !IsSpace(db[|db| - 1])
  }

  lemma UseIsLocal(lead: string, use: string, gap: string, db: string, tail: string)
    requires UseParts(lead, use, gap, db, tail)
    ensures LocalKind(Prefix(lead + use + gap + db + tail)) == Some(UseLocal)
  {
    hide Normalise, LocalKind, TrimLeft;
    var t := use + gap + db + tail;
    assert lead + use + gap + db + tail == lead + t;
    TrimLeftOver(lead, t);
    KindByText(lead + t);
    assert t[3] == gap[0];
    assert forall i :: 0 <= i < 3 ==> t[i] == use[i];
  }

  lemma SkippedPart(lead: string, use: string, gap: string)
    requires |use| == 3 && Opens(use, "USE")
    ensures AllBlank((lead + use + gap)[3..]) <==> lead == [] && AllBlank(gap)
  {
    var x := (lead + use + gap)[3..];
    if lead == [] {
      assert x == gap;
    } else {
      var i := |lead| - 1;
      assert x[i] == use[2];
    }
  }

  /** USE switches to the database it names exactly when nothing precedes the keyword and only spaces and tabs follow it. */
  lemma UseSwitchesExactlyWhen(s: State, lead: string, use: string, gap: string, db: string, tail: string)
    requires UseParts(lead, use, gap, db, tail)
    ensures QueryStep(s, lead + use + gap + db + tail).currentDb == db <==> lead == [] && AllBlank(gap)
    ensures QueryStep(s, lead + use + gap + db + tail).open == s.open
  {
    hide Prefix, LocalKind, SkipBlanks, DropTrailing, AllBlank;
    UseIsLocal(lead, use, gap, db, tail);
    var sql, x := lead + use + gap + db + tail, (lead + use + gap)[3..];
    assert sql[3..] == x + (db + tail);
    SkippedPart(lead, use, gap);
    SkipBlanksOver(x, db + tail);
    if AllBlank(x) {
      SkipNothing(db + tail);
      DropTrailingOver(db, tail);
    } else {
      var kept := SkipBlanks(x) + db;
      assert SkipBlanks(x) + (db + tail) == kept + tail;
      DropTrailingOver(kept, tail);
      assert |kept| > |db|;
    }
  }

  lemma SkipNothing(s: string)
    requires s != [] && !IsSpace(s[0])
    ensures SkipBlanks(s) == s
  {
  }

  /** The loops of the USE branch. */
  method FindUseTarget(sql: string) returns (r: Option<string>)
    requires |sql| >= 3
    ensures r == UseTarget(sql)
  {
    var i := 3;
    while i < |sql| && (sql[i] == ' ' || sql[i] == '\t')
      invariant 3 <= i <= |sql|
      invariant SkipBlanks(sql[i..]) == SkipBlanks(sql[3..])
    {
      assert sql[i..][1..] == sql[i + 1..];
      i := i + 1;
    }
    if i == |sql| {
      return None;
    }
    var db := sql[i..];
    while db != [] && IsSpace(db[|db| - 1])
      invariant DropTrailing(db) == DropTrailing(sql[i..])
    {
      db := db[..|db| - 1];
    }
    r := Some(db);
  }

  lemma {:induction false} NormaliseShorter(s: string, inSpace: bool, room: nat)
    ensures |Normalise(s, inSpace, room)| <= |s|
    decreases |s|
  {
    if s != [] && room > 0 {
      if IsSpace(s[0]) && inSpace {
        NormaliseShorter(s[1..], true, room);
      } else {
        NormaliseShorter(s[1..], IsSpace(s[0]), room - 1);
      }
    }
  }

  // ---- The current database over whole command histories ----

  lemma {:induction false} NothingBehindBlanks(s: string)
    ensures SkipBlanks(s) == [] <==> AllBlank(s)
  {
    if s != [] {
      assert s == [s[0]] + s[1..];
      NothingBehindBlanks(s[1..]);
    }
  }

  /** The packet asks for a database: command 2 with a name, or a USE statement, which takes what stands behind its third character. */
  ghost predicate NamesDb(payload: string, db: string) {
    || (|payload| > 1 && payload[0] as int == 2 && db == payload[1..])
    || (|payload| > 4 && payload[0] as int == 3 && OpensTwo(TrimLeft(payload[1..]), "USE", "")
        && !AllBlank(payload[4..]) && db == DropTrailing(SkipBlanks(payload[4..])))
  }

  /** The packet ends the session: it is empty, command 1, or a USE statement with nothing but blanks behind its third character. */
  ghost predicate EndsSession(payload: string) {
    || payload == [] || payload[0] as int == 1
    || (payload[0] as int == 3 && OpensTwo(TrimLeft(payload[1..]), "USE", "") && |payload| >= 4 && AllBlank(payload[4..]))
  }

  lemma UseIsLongEnough(sql: string)
    requires OpensTwo(TrimLeft(sql), "USE", "")
    ensures |sql| > 3
  {
  }

  /** What one packet does to the database and to the life of the session. */
  lemma CommandByCode(s: State, payload: string)
    requires s.open
    ensures CommandStep(s, payload).open <==> !EndsSession(payload)
    ensures forall db :: NamesDb(payload, db) ==> CommandStep(s, payload).currentDb == db
    ensures (forall db :: !NamesDb(payload, db)) ==> CommandStep(s, payload).currentDb == s.currentDb
  {
    hide Prefix, LocalKind, Contains, OpensTwo, TrimLeft, DropTrailing, AllBlank;
    if payload != [] && payload[0] as int == 3 {
      var sql := payload[1..];
      KindByText(sql);
      if OpensTwo(TrimLeft(sql), "USE", "") {
        UseIsLongEnough(sql);
        assert sql[3..] == payload[4..];
        NothingBehindBlanks(payload[4..]);
        var db := DropTrailing(SkipBlanks(payload[4..]));
        assert !AllBlank(payload[4..]) ==> NamesDb(payload, db);
      }
    } else if |payload| > 1 && payload[0] as int == 2 {
      assert NamesDb(payload, payload[1..]);
    }
  }

  /** The last packet that asks for a database decides it; until one does it is the one of the start. */
  lemma {:induction false} CurrentDbExactly(s: State, h: seq<string>, i: nat, db: string)
    requires Run(s, h).open && i <= |h| && forall j, d :: i <= j < |h| ==> !NamesDb(h[j], d)
    requires if i == 0 then db == s.currentDb else NamesDb(h[i - 1], db)
    ensures Run(s, h).currentDb == db
    decreases |h|
  {
    hide CommandStep, NamesDb, EndsSession;
    if h != [] {
      var n := |h| - 1;
      var before, c := h[..n], h[n];
      LiveBefore(Run(s, before), c);
      CommandByCode(Run(s, before), c);
      if i <= n {
        assert forall j, d :: i <= j < n ==> !NamesDb(before[j], d) && before[j] == h[j];
        assert i > 0 ==> before[i - 1] == h[i - 1];
        CurrentDbExactly(s, before, i, db);
      }
    }
  }

  lemma LiveBefore(s: State, c: string)
    requires CommandStep(s, c).open
    ensures s.open
  {
    hide Prefix, LocalKind, Contains;
  }
}
