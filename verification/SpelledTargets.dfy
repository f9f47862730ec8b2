/**
 How addresses are spelled (target.go): what every token denotes, byte by byte, and
 that the sections read and the sections printed are those.
 */
module SpelledTargets {
  import opened Ipfw
  import opened Lex
  import opened Targets
  import opened SpelledGroups

  // -------------------------------------------------------------------- one address

  /** Bytes of names, a dot and a letter among them. */
  predicate IsHost(t: string) {
    && (forall k :: 0 <= k < |t| ==>
          'a' <= t[k] <= 'z' || 'A' <= t[k] <= 'Z' || '0' <= t[k] <= '9' || t[k] == '.' || t[k] == '-' || t[k] == '_')
    && (exists k :: 0 <= k < |t| && t[k] == '.')
    && exists k :: 0 <= k < |t| && ('a' <= t[k] <= 'z' || 'A' <= t[k] <= 'Z')
  }

  /** Nothing but digits, slashes and dots. */
  predicate IsFour(t: string) {
    t != "" && forall k :: 0 <= k < |t| ==> '0' <= t[k] <= '9' || t[k] == '.' || t[k] == '/'
  }

  /** Hexadecimal digits, slashes, dots and at least one colon. */
  predicate IsSix(t: string) {
    && (forall k :: 0 <= k < |t| ==>
          '0' <= t[k] <= '9' || 'a' <= t[k] <= 'f' || 'A' <= t[k] <= 'F' || t[k] == ':' || t[k] == '.' || t[k] == '/')
    && exists k :: 0 <= k < |t| && t[k] == ':'
  }

  /** What goes on with a token. */
  predicate InToken(c: char) {
    c != ' ' && c != '\t' && c != '\r' && c != '\U{0C}' && c != '\n' && c != '}' && c != ','
  }

  predicate NameOfTable(t: string) {
    t != "" && forall k :: 0 <= k < |t| ==> InToken(t[k]) && t[k] != ')'
  }

  /** A value may hold commas and braces. */
  predicate ValueOfTable(t: string) {
    t != "" && forall k :: 0 <= k < |t| ==> !Blank(t[k]) && t[k] != ')'
  }

  /** A table, or a table and the value to find in it. */
  predicate IsLookup(text: string) {
    || NameOfTable(text)
    || exists k :: 0 <= k < |text| && text[k] == ',' && NameOfTable(text[..k]) && ValueOfTable(text[k + 1..])
  }

  predicate IsCustom(t: string) {
    && t != "" && (forall k :: 0 <= k < |t| ==> InToken(t[k]))
    && t != "any" && t != "me" && t != "me6" && t != "not" && t[0] != '{' && t[0] != '`'
    && !IsHost(t) && !IsFour(t) && !IsSix(t) && !("table(" <= t && ')' in t)
  }

  /** The spellings of an address of every kind. */
  predicate Spells(token: string, kind: TargetKind, text: string) {
    match kind
    case TargetAny => token == "any" && text == ""
    case TargetMe => token == "me" && text == ""
    case TargetMe6 => token == "me6" && text == ""
    case TargetTable => IsLookup(text) && token == "table(" + text + ")"
    case TargetNetwork4 => IsFour(text) && token == text
    case TargetNetwork6 => IsSix(text) && token == text
    case TargetHostname => IsHost(text) && (token == text || token == "`" + text + "'")
    case TargetCustom => IsCustom(text) && token == text
    case TargetNone => false
  }

  lemma HostIs(t: string)
    ensures IsHost(t) <==> HostnameText(t)
  {
  }

  lemma FourIs(t: string)
    ensures IsFour(t) <==> Network4Text(t)
  {
  }

  lemma SixIs(t: string)
    ensures IsSix(t) <==> Network6Text(t)
  {
  }

  lemma NoTable(token: string)
    requires !("table(" <= token && ')' in token)
    ensures ClassifyTable(token).None?
  {
    if "table(" <= token {
      var inside := token[6..];
      assert ')' in inside ==> ')' in token;
    }
  }

  /** Every spelling is classified as its kind and text. */
  lemma SpelledIsClassified(token: string, kind: TargetKind, text: string)
    requires Spells(token, kind, text)
    ensures Classify(token) == Ok((kind, text))
  {
    hide IsHost, HostnameText, IsFour, Network4Text, IsSix, Network6Text, ClassifyTable, ClassifyQuoted, IsLookup;
    HostIs(text);
    FourIs(token);
    SixIs(token);
    match kind {
      case TargetTable => LookupIsClassified(text);
      case TargetHostname =>
        PlainShapes(text);
        assert token != text ==> token[0] == '`';
        NotATable(token);
        if token != text {
          QuotedIsClassified(text);
        }
      case TargetNetwork4 | TargetNetwork6 =>
        PlainShapes(text);
        NotATable(token);
      case TargetCustom => NoTable(text);
      case _ =>
    }
  }

  lemma QuotedIsClassified(text: string)
    requires HostnameText(text)
    ensures ClassifyQuoted("`" + text + "'") == Ok(text)
    ensures !Network4Text("`" + text + "'") && !Network6Text("`" + text + "'")
  {
    var token := "`" + text + "'";
    assert token[1..|token| - 1] == text;
    assert token[0] == '`';
  }

  lemma LookupIsClassified(text: string)
    requires IsLookup(text)
    ensures ClassifyTable("table(" + text + ")") == Some(Ok(text))
  {
    hide IsLookup, IndexOf, TableName;
    LookupHoldsNoClose(text);
    TableNameIs(text, "");
    assert "table(" + text + ")" + "" == "table(" + text + ")";
  }

  lemma LookupHoldsNoClose(text: string)
    requires IsLookup(text)
    ensures text != "" && forall k :: 0 <= k < |text| ==> text[k] != ')'
    ensures var comma := IndexOf(text, ','); comma > 0 && comma + 1 != |text|
  {
    if NameOfTable(text) {
      assert forall k :: 0 <= k < |text| ==> InToken(text[k]);
    } else {
      var n :| 0 <= n < |text| && text[n] == ',' && NameOfTable(text[..n]) && ValueOfTable(text[n + 1..]);
      PartsHoldNoClose(text, n);
      FirstIndex(text, ',', n);
    }
  }

  lemma PartsHoldNoClose(text: string, n: nat)
    requires n < |text| && text[n] == ',' && NameOfTable(text[..n]) && ValueOfTable(text[n + 1..])
    ensures 0 < n < |text| - 1
    ensures forall k :: 0 <= k < |text| ==> text[k] != ')'
    ensures forall k :: 0 <= k < n ==> text[k] != ','
  {
    assert forall k :: 0 <= k < n ==> text[k] == text[..n][k];
    assert forall k :: n < k < |text| ==> text[k] == text[n + 1..][k - n - 1];
  }

  /** The tokens that are no address, and what is wrong with them. */
  lemma BadTokens(token: string)
    ensures token == "" || token[0] == '{' || token == "not" ==> Classify(token) == Err(ShapeError(ExpectedTarget, 0))
    ensures token != "" && token[0] == '`' && (|token| == 1 || token[|token| - 1] != '\'') ==>
              Classify(token) == Err(ShapeError(ExpectedHostnameEscapeClose, 0))
    ensures |token| > 1 && token[0] == '`' && token[|token| - 1] == '\'' && !IsHost(token[1..|token| - 1]) ==>
              Classify(token) == Err(ShapeError(ExpectedHostname, 0))
  {
    hide Network4Text, Network6Text, HostnameText, IsHost;
    if token != "" && token[0] == '`' {
      NotATable(token);
      BackquoteIsNoNetwork(token);
      if |token| > 1 {
        HostIs(token[1..|token| - 1]);
      }
    }
  }

  lemma BackquoteIsNoNetwork(token: string)
    requires token != "" && token[0] == '`'
    ensures !Network4Text(token) && !Network6Text(token)
  {
  }

  /** A closed lookup, `c` being where its first comma stands or its end: it needs a
      name, a value when it has a comma, and nothing behind it, in this order. */
  lemma BadLookups(inside: string, after: string, c: nat)
    requires forall k :: 0 <= k < |inside| ==> inside[k] != ')'
    requires c <= |inside| && (forall k :: 0 <= k < c ==> inside[k] != ',') && (c < |inside| ==> inside[c] == ',')
    ensures Classify("table(" + inside + ")" + after) ==
            if c == 0 then Err(ShapeError(ExpectedTableName, 0))
            else if c + 1 == |inside| then Err(ShapeError(ExpectedTableValue, |inside| + 6))
            else if after != "" then Err(ShapeError(ExpectedTarget, |inside| + 7))
            else Ok((TargetTable, inside))
  {
    hide IndexOf, TableName;
    var token := "table(" + inside + ")" + after;
    TableNameIs(inside, after);
    CommaIs(inside, c);
    assert token[0] == 't' && token[3] == 'l';
  }

  lemma CommaIs(inside: string, c: nat)
    requires c <= |inside| && (forall k :: 0 <= k < c ==> inside[k] != ',') && (c < |inside| ==> inside[c] == ',')
    ensures IndexOf(inside, ',') == c
  {
    if c < |inside| {
      FirstIndex(inside, ',', c);
    }
  }

  lemma TableNameIs(inside: string, after: string)
    requires forall k :: 0 <= k < |inside| ==> inside[k] != ')'
    ensures TableName("table(" + inside + ")" + after) == Some((inside, |inside| + 7))
  {
    hide IndexOf;
    var tail := inside + (")" + after);
    assert ("table(" + inside + ")" + after)[6..] == tail;
    assert tail[|inside|] == ')';
    FirstIndex(tail, ')', |inside|);
    assert tail[..|inside|] == inside;
  }

  /** Any other token without white space, comma or closing brace is custom text. */
  lemma OtherTokens(token: string)
    requires token != "" && (forall k :: 0 <= k < |token| ==> InToken(token[k])) && token != "not" && token[0] != '{' && token[0] != '`'
    requires forall kind, text :: kind != TargetCustom ==> !Spells(token, kind, text)
    requires !("table(" <= token && ')' in token)
    ensures Classify(token) == Ok((TargetCustom, token))
  {
    hide IsHost, IsFour, IsSix;
    assert !Spells(token, TargetAny, "") && !Spells(token, TargetMe, "") && !Spells(token, TargetMe6, "");
    assert !Spells(token, TargetNetwork4, token) && !Spells(token, TargetNetwork6, token) && !Spells(token, TargetHostname, token);
    assert Spells(token, TargetCustom, token);
    SpelledIsClassified(token, TargetCustom, token);
  }

  // ------------------------------------------------------------------------- a list

  /** An address as text: the token, and what it denotes. */
  datatype Word = Word(token: string, kind: TargetKind, text: string)

  /** The kinds a comma may join: names, networks and custom text that opens no lookup. */
  predicate Joins(w: Word) {
    || w.kind == TargetHostname || w.kind == TargetNetwork4 || w.kind == TargetNetwork6
    || (w.kind == TargetCustom && !("table(" <= w.text))
  }

  /** Networks of one family do not follow one of the other. */
  predicate Mixes(first: Word, w: Word) {
    || (first.kind == TargetNetwork4 && w.kind == TargetNetwork6)
    || (first.kind == TargetNetwork6 && w.kind == TargetNetwork4)
  }

  predicate IsWord(w: Word) { Spells(w.token, w.kind, w.text) }

  /** Addresses behind others, with what stands before each, and what follows them. */
  function MoreText(ws: seq<Word>, gaps: seq<string>, end: string): string
    requires |gaps| == |ws|
  {
    if ws == [] then end else "," + (gaps[0] + (ws[0].token + MoreText(ws[1..], gaps[1..], end)))
  }

  /** Whether a list may go on with such addresses. Their first bytes are not taken by
      the comma. */
  predicate MoreWords(first: Word, ws: seq<Word>, gaps: seq<string>) {
    && |gaps| == |ws|
    && (forall i :: 0 <= i < |ws| ==>
          ws[i].token != "" && IsWord(ws[i]) && Joins(ws[i]) && !Mixes(first, ws[i]) && ws[i].token[0] != VERTICAL_TAB)
    && (forall i :: 0 <= i < |ws| ==> CommaGap(gaps[i]))
    && (ws != [] ==> Joins(first))
  }

  /** What follows an element: no more of a token, and a comma only before the end of a
      line. */
  predicate EndsWords(w: Word, tail: string, rest: string) {
    if tail == "" then rest == "" || (!InToken(rest[0]) && rest[0] != ',')
    else Joins(w) && tail[0] == ',' && CommaGap(tail[1..]) && (rest == "" || rest[0] == '\n')
  }

  function TargetsOf(ws: seq<Word>, neg: bool, pattern: uint16): (ts: seq<Target>)
    ensures |ts| == |ws| && forall i :: 0 <= i < |ws| ==> ts[i] == Target(neg, pattern, ws[i].kind, ws[i].text)
  {
    seq(|ws|, i requires 0 <= i < |ws| => Target(neg, pattern, ws[i].kind, ws[i].text))
  }

  /** The bytes of a token, a lookup aside. */
  lemma TokenIsWhole(w: Word)
    requires IsWord(w) && w.kind != TargetTable
    ensures w.token != "" && All(w.token, IsTargetByte)
    ensures w.token != "not" && w.token[0] != '{'
  {
    hide IsHost, HostnameText, IsFour, Network4Text, IsSix, Network6Text;
    HostIs(w.text);
    FourIs(w.text);
    SixIs(w.text);
    match w.kind {
      case TargetHostname =>
        PlainShapes(w.text);
        assert w.token != w.text ==> w.token == "`" + w.text + "'" && w.token[0] == '`';
      case TargetNetwork4 | TargetNetwork6 => PlainShapes(w.text);
      case TargetCustom => assert forall k :: 0 <= k < |w.token| ==> InToken(w.token[k]);
      case _ =>
    }
  }

  /** A member of a list. */
  lemma MemberIsRead(first: Word, w: Word, next: string, ctx: Ctx, tokens: seq<Target>)
    requires IsWord(w) && Joins(w) && !Mixes(first, w) && (next == "" || !InToken(next[0]))
    ensures var target := Target(ctx.neg, ctx.pattern, w.kind, w.text);
            ListMember(w.token + next, ctx, first.kind, tokens) ==
              if ctx.refuses(tokens, target) then Err(Fail(StateFailure, w.token + next)) else Ok((target, next))
  {
    hide Spells, Classify, InToken;
    JoinsNoTable(w);
    TokenIsWhole(w);
    EndsToken(next);
    ScanStops(w.token, next);
    SpelledIsClassified(w.token, w.kind, w.text);
  }

  lemma JoinsNoTable(w: Word)
    requires Joins(w)
    ensures w.kind != TargetTable
  {
  }

  lemma EndsToken(next: string)
    ensures next == "" || !InToken(next[0]) <==> EndsTarget(next)
  {
  }

  /** The addresses behind the first of a list are read one by one, up to the first that
      the state refuses. */
  lemma {:induction false} MembersAreRead(
    first: Word, ws: seq<Word>, gaps: seq<string>, tail: string, rest: string, ctx: Ctx, tokens: seq<Target>, k: nat)
    requires MoreWords(first, ws, gaps) && EndsWords(first, tail, rest)
    requires TakesUpTo(ctx.refuses, tokens, TargetsOf(ws, ctx.neg, ctx.pattern), k)
    ensures var ts := TargetsOf(ws, ctx.neg, ctx.pattern);
            Members(MoreText(ws, gaps, tail + rest), ctx, first.kind, tokens) ==
              if k == |ws| then Parsed(tokens + ts, Ok(rest))
              else Parsed(tokens + ts[..k], Err(Fail(StateFailure, ws[k].token + MoreText(ws[k + 1..], gaps[k + 1..], tail + rest))))
    decreases |ws|
  {
    hide Members, MoreText, TakesUpTo, TargetsOf, EndsWords, Joins, IsWord, CommaGap, Mixes;
    var ts := TargetsOf(ws, ctx.neg, ctx.pattern);
    HasTaken(ctx.refuses, tokens, ts, k);
    if ws == [] {
      NoneIsRead(first, tail, rest, ctx, tokens);
      assert tokens + ts == tokens;
    } else {
      FirstTarget(ws, ctx.neg, ctx.pattern);
      TakesFirst(ctx.refuses, tokens, ts, k);
      NextIsRead(first, ws, gaps, tail, rest, ctx, tokens);
      if k == 0 {
        assert tokens + ts[..0] == tokens;
      } else {
        MembersAreRead(first, ws[1..], gaps[1..], tail, rest, ctx, tokens + [ts[0]], k - 1);
        LaterOnes(tokens, ts, k);
        assert k < |ws| ==> ws[1..][k - 1 + 1..] == ws[k + 1..] && gaps[1..][k - 1 + 1..] == gaps[k + 1..] && ws[1..][k - 1] == ws[k];
      }
    }
  }

  lemma FirstTarget(ws: seq<Word>, neg: bool, pattern: uint16)
    requires ws != []
    ensures TargetsOf(ws, neg, pattern)[0] == Target(neg, pattern, ws[0].kind, ws[0].text)
    ensures TargetsOf(ws, neg, pattern)[1..] == TargetsOf(ws[1..], neg, pattern)
  {
  }

  lemma NoneIsRead(first: Word, tail: string, rest: string, ctx: Ctx, tokens: seq<Target>)
    requires EndsWords(first, tail, rest)
    ensures Members(MoreText([], [], tail + rest), ctx, first.kind, tokens) == Parsed(tokens, Ok(rest))
  {
    hide AfterComma;
    if tail == "" {
      assert tail + rest == rest;
      NoComma(rest);
    } else {
      CommaTakes(tail[1..], rest);
      assert tail + rest == "," + (tail[1..] + rest);
    }
  }

  lemma NextIsRead(first: Word, ws: seq<Word>, gaps: seq<string>, tail: string, rest: string, ctx: Ctx, tokens: seq<Target>)
    requires ws != [] && MoreWords(first, ws, gaps) && EndsWords(first, tail, rest)
    ensures var target := Target(ctx.neg, ctx.pattern, ws[0].kind, ws[0].text);
            var next := MoreText(ws[1..], gaps[1..], tail + rest);
            Members(MoreText(ws, gaps, tail + rest), ctx, first.kind, tokens) ==
              if ctx.refuses(tokens, target) then Parsed(tokens, Err(Fail(StateFailure, ws[0].token + next)))
              else Members(next, ctx, first.kind, tokens + [target])
  {
    hide AfterComma, Joins, IsWord, CommaGap, Mixes, ListMember, InToken;
    var next := MoreText(ws[1..], gaps[1..], tail + rest);
    MoreEnds(first, ws[1..], gaps[1..], tail, rest);
    MemberIsRead(first, ws[0], next, ctx, tokens);
    JoinsNoTable(ws[0]);
    WordBegins(ws[0], next);
    CommaTakes(gaps[0], ws[0].token + next);
  }

  lemma MoreEnds(first: Word, ws: seq<Word>, gaps: seq<string>, tail: string, rest: string)
    requires |gaps| == |ws| && EndsWords(first, tail, rest)
    ensures var next := MoreText(ws, gaps, tail + rest); next == "" || !InToken(next[0])
  {
  }

  lemma WordBegins(w: Word, next: string)
    requires IsWord(w) && w.kind != TargetTable && w.token != "" && w.token[0] != VERTICAL_TAB
    ensures NotTaken(w.token + next) && !ListEnded(w.token + next)
  {
    TokenIsWhole(w);
    assert (w.token + next)[0] == w.token[0];
  }

  // --------------------------------------------------------------------- an element

  /** The first token of an element is scanned whole, a lookup with a value too. */
  lemma FirstIsScanned(w: Word, next: string)
    requires IsWord(w) && (next == "" || !InToken(next[0])) && ("," <= next ==> Joins(w))
    ensures ElementToken(w.token + next) == (w.token, next)
  {
    hide InToken, ElementToken;
    EndsToken(next);
    if w.kind == TargetTable {
      LookupIsScanned(w.text, next);
    } else {
      TokenIsWhole(w);
      if Joins(w) {
        OpensNoLookup(w);
      }
      WholeToken(w.token, next);
    }
  }

  lemma OpensNoLookup(w: Word)
    requires IsWord(w) && Joins(w)
    ensures !("table(" <= w.token)
  {
    HostIs(w.text);
    FourIs(w.text);
    SixIs(w.text);
    if w.kind != TargetCustom {
      PlainShapes(w.text);
      assert w.token != w.text ==> w.token[0] == '`';
    }
  }

  lemma LookupIsScanned(text: string, next: string)
    requires IsLookup(text) && EndsTarget(next) && !("," <= next)
    ensures ElementToken("table(" + text + ")" + next) == ("table(" + text + ")", next)
  {
    hide ElementToken, NameOfTable, ValueOfTable, EndsTarget, All;
    if NameOfTable(text) {
      NameIsWhole(text);
      WholeToken("table(" + text + ")", next);
    } else {
      var k :| 0 <= k < |text| && text[k] == ',' && NameOfTable(text[..k]) && ValueOfTable(text[k + 1..]);
      ValueIsScanned(text[..k], text[k + 1..], next);
      assert text == text[..k] + "," + text[k + 1..];
    }
  }

  lemma ValueIsScanned(name: string, value: string, next: string)
    requires NameOfTable(name) && ValueOfTable(value) && EndsTarget(next)
    ensures var token := "table(" + (name + "," + value) + ")"; ElementToken(token + next) == (token, next)
  {
    hide ElementToken, NameOfTable, ValueOfTable, EndsTarget, All;
    NameIsWhole(name);
    ValueIsWhole(value);
    ClosedToken("table(" + name, value, next);
    assert "table(" + (name + "," + value) + ")" == "table(" + name + "," + value + ")";
  }

  lemma NameIsWhole(name: string)
    requires NameOfTable(name)
    ensures All("table(" + name, IsTargetByte) && All("table(" + name + ")", IsTargetByte)
  {
  }

  lemma ValueIsWhole(value: string)
    requires ValueOfTable(value)
    ensures All(value, IsTableValueByte)
  {
  }

  lemma NotIsTaken(not: string, w: Word, next: string)
    requires IsNot(not) && IsWord(w) && (next == "" || !InToken(next[0]))
    ensures TargetNot(not + (w.token + next)) == (w.token + next, not != "")
  {
    hide IsWord, InToken;
    var s := w.token + next;
    if not == "" {
      assert not + s == s;
      NoWordIsNot(w, next);
      EndsNot(s);
    } else {
      WordStarts(w, next);
      TokenBytes(s[0]);
      SpacesBehindNot(not[3..], s);
      assert not + s == "not" + (not[3..] + s);
    }
  }

  lemma TokenBytes(c: char)
    ensures InToken(c) ==> !IsASCIISpace(c) && c != '}' && c != ','
  {
  }

  lemma EndsNot(s: string)
    requires "not" <= s ==> |s| > 3 && InToken(s[3])
    ensures TargetNot(s) == (s, false)
  {
  }

  lemma SpacesBehindNot(spaces: string, s: string)
    requires spaces != "" && Spaces(spaces) && s != "" && !IsASCIISpace(s[0])
    ensures TargetNot("not" + (spaces + s)) == (s, true)
  {
    assert ("not" + (spaces + s))[3..] == spaces + s;
    assert All(spaces, IsWS);
    RunOf(spaces, s, IsWS);
  }

  lemma WordStarts(w: Word, next: string)
    requires IsWord(w)
    ensures var s := w.token + next; s != "" && s[0] == w.token[0] && InToken(s[0]) && s[0] != '{'
  {
    if w.kind != TargetTable {
      TokenIsWhole(w);
    }
  }

  lemma NoWordIsNot(w: Word, next: string)
    requires IsWord(w) && (next == "" || !InToken(next[0]))
    ensures var s := w.token + next; "not" <= s ==> |s| > 3 && InToken(s[3])
  {
    var s := w.token + next;
    WordStarts(w, next);
    assert w.kind != TargetTable ==> forall k :: 0 <= k < |w.token| ==> s[k] == w.token[k];
    assert next != "" ==> s[|w.token|] == next[0];
    if w.kind != TargetTable {
      TokenIsWhole(w);
      assert s[..|w.token|] == w.token;
    }
  }

  /** An element: a negation, an address and those a comma joins to it. The targets share
      the negation and the pattern. */
  lemma ElementIsRead(
    not: string, w: Word, ws: seq<Word>, gaps: seq<string>, tail: string, rest: string, pattern: uint16,
    refuses: (seq<Target>, Target) -> bool, tokens: seq<Target>, k: nat)
    requires IsNot(not) && IsWord(w) && MoreWords(w, ws, gaps) && EndsWords(w, tail, rest)
    requires TakesUpTo(refuses, tokens, TargetsOf([w] + ws, not != "", pattern), k)
    ensures var ts := TargetsOf([w] + ws, not != "", pattern);
            var text := w.token + MoreText(ws, gaps, tail + rest);
            Element(not + text, pattern, refuses, tokens) ==
              if k == |ts| then Parsed(tokens + ts, Ok(rest))
              else Parsed(tokens + ts[..k], Err(Fail(StateFailure,
                if k == 0 then text else ws[k - 1].token + MoreText(ws[k..], gaps[k..], tail + rest))))
  {
    hide TargetNot, ElementToken, Classify, Members, MoreText, TakesUpTo, TargetsOf, EndsWords, IsWord, IsNot, IsListTarget, Joins, CommaGap, Mixes;
    var next := MoreText(ws, gaps, tail + rest);
    var ts := TargetsOf([w] + ws, not != "", pattern);
    var ctx := Ctx(not != "", pattern, refuses);
    NextEnds(w, ws, gaps, tail, rest);
    NotIsTaken(not, w, next);
    FirstIsScanned(w, next);
    FirstIs(w, ctx);
    FirstTarget([w] + ws, not != "", pattern);
    assert ([w] + ws)[1..] == ws;
    HasTaken(refuses, tokens, ts, k);
    TakesFirst(refuses, tokens, ts, k);
    if k == 0 {
      assert tokens + ts[..0] == tokens;
    } else {
      LaterOnes(tokens, ts, k);
      if Joins(w) {
        MembersAreRead(w, ws, gaps, tail, rest, ctx, tokens + [ts[0]], k - 1);
      } else {
        StandsAlone(w, ws, gaps, tail, rest);
      }
    }
  }

  lemma FirstIs(w: Word, ctx: Ctx)
    requires IsWord(w)
    ensures Classify(w.token) == Ok((w.kind, w.text))
    ensures IsListTarget(TargetOf(ctx, w.kind, w.text)) <==> Joins(w)
    ensures TargetOf(ctx, w.kind, w.text) == Target(ctx.neg, ctx.pattern, w.kind, w.text)
  {
    hide Classify, Spells;
    SpelledIsClassified(w.token, w.kind, w.text);
  }

  lemma NextEnds(w: Word, ws: seq<Word>, gaps: seq<string>, tail: string, rest: string)
    requires MoreWords(w, ws, gaps) && EndsWords(w, tail, rest)
    ensures var next := MoreText(ws, gaps, tail + rest); (next == "" || !InToken(next[0])) && ("," <= next ==> Joins(w))
  {
    hide IsWord, Joins, Mixes, CommaGap;
    MoreEnds(w, ws, gaps, tail, rest);
    assert ws == [] && tail == "" ==> tail + rest == rest;
  }

  lemma StandsAlone(w: Word, ws: seq<Word>, gaps: seq<string>, tail: string, rest: string)
    requires !Joins(w) && MoreWords(w, ws, gaps) && EndsWords(w, tail, rest)
    ensures ws == [] && MoreText(ws, gaps, tail + rest) == rest
  {
    assert tail + rest == rest;
  }

  /** A negation with no address behind it is refused where that would stand. */
  lemma NotAlone(spaces: string, rest: string, pattern: uint16, refuses: (seq<Target>, Target) -> bool, tokens: seq<Target>)
    requires Spaces(spaces) && (rest == "" || (!InToken(rest[0]) && rest[0] != ',' && rest[0] != ' ' && rest[0] != '\t'))
    ensures Element("not" + (spaces + rest), pattern, refuses, tokens) == Parsed(tokens, Err(Fail(ExpectedTarget, rest)))
  {
    hide Classify, ElementToken;
    var s := "not" + (spaces + rest);
    assert s[3..] == spaces + rest;
    assert All(spaces, IsWS);
    RunOf(spaces, rest, IsWS);
    assert TargetNot(s) == (rest, true);
    NoToken(rest);
    BadTokens("");
  }

  lemma NoToken(rest: string)
    requires rest == "" || !InToken(rest[0])
    ensures ElementToken(rest) == ("", rest) && rest[0..] == rest
  {
    EndsToken(rest);
    assert "" + rest == rest;
    WholeToken("", rest);
  }

  /** What stands in a list and cannot, be it of the wrong family or kind, is refused
      where it starts. */
  lemma MemberIsRefused(first: Word, w: Word, next: string, ctx: Ctx, tokens: seq<Target>)
    requires IsWord(w) && w.kind != TargetTable && (!Joins(w) || Mixes(first, w)) && (next == "" || !InToken(next[0]))
    ensures ListMember(w.token + next, ctx, first.kind, tokens) == Err(Fail(ExpectedTarget, w.token + next))
  {
    hide IsWord, Classify, InToken;
    TokenIsWhole(w);
    EndsToken(next);
    ScanStops(w.token, next);
    FirstIs(w, ctx);
  }

  /** A token that is no address refuses its element, where the classifier says. */
  lemma BadElement(not: string, token: string, next: string, pattern: uint16, refuses: (seq<Target>, Target) -> bool, tokens: seq<Target>)
    requires TargetNot(not + (token + next)) == (token + next, not != "")
    requires (forall k :: 0 <= k < |token| ==> InToken(token[k])) && (next == "" || (!InToken(next[0]) && next[0] != ','))
    requires Classify(token).Err?
    ensures Element(not + (token + next), pattern, refuses, tokens) ==
            Parsed(tokens, Err(Fail(Classify(token).error.kind, (token + next)[Classify(token).error.at..])))
  {
    hide Classify, TargetNot, ElementToken;
    EndsToken(next);
    assert All(token, IsTargetByte);
    WholeToken(token, next);
  }

  // ---------------------------------------------------------------------- a section

  /** An element of a section. */
  datatype Spelled = Spelled(not: string, w: Word, ws: seq<Word>, gaps: seq<string>)

  predicate ElementFits(e: Spelled) {
    IsNot(e.not) && IsWord(e.w) && MoreWords(e.w, e.ws, e.gaps)
  }

  function ElementText(e: Spelled, end: string): string
    requires |e.gaps| == |e.ws|
  {
    e.not + (e.w.token + MoreText(e.ws, e.gaps, end))
  }

  function ElementTargets(e: Spelled, pattern: uint16): seq<Target> {
    TargetsOf([e.w] + e.ws, e.not != "", pattern)
  }

  predicate GroupFits(es: seq<Spelled>, joints: seq<Joint>) {
    && es != [] && |joints| == |es| - 1
    && (forall i :: 0 <= i < |es| ==> ElementFits(es[i]))
    && forall i :: 0 <= i < |joints| ==> IsJoint(joints[i], HeaderPosition) && joints[i].before != ""
  }

  /** The text of a group behind its brace, up to an end. */
  function GroupText(es: seq<Spelled>, joints: seq<Joint>, end: string): string
    requires GroupFits(es, joints)
    decreases |es|, 1
  {
    ElementText(es[0], BehindFirst(es, joints, end))
  }

  function BehindFirst(es: seq<Spelled>, joints: seq<Joint>, end: string): string
    requires GroupFits(es, joints)
    decreases |es|, 0
  {
    if |es| == 1 then end else joints[0].before + joints[0].separator + joints[0].behind + GroupText(es[1..], joints[1..], end)
  }

  /** The targets of a group, a pattern for each element, the number wrapping at 2^16. */
  function GroupTargets(es: seq<Spelled>, pattern: uint16): seq<Target>
    requires es != []
  {
    ElementTargets(es[0], pattern) + if |es| == 1 then [] else GroupTargets(es[1..], (pattern + 1) % 65536)
  }

  lemma AllAreTaken(refuses: (seq<Target>, Target) -> bool, tokens: seq<Target>, more: seq<Target>)
    requires TakesAll(refuses)
    ensures TakesUpTo(refuses, tokens, more, |more|)
  {
  }

  lemma OneElement(e: Spelled, tail: string, rest: string, pattern: uint16, refuses: (seq<Target>, Target) -> bool, tokens: seq<Target>)
    requires ElementFits(e) && EndsWords(e.w, tail, rest) && TakesAll(refuses)
    ensures Element(ElementText(e, tail + rest), pattern, refuses, tokens) == Parsed(tokens + ElementTargets(e, pattern), Ok(rest))
    ensures var s := ElementText(e, tail + rest); Begins(s) && !("{" <= s)
  {
    hide Element, MoreText, TakesUpTo, TargetsOf, EndsWords, IsWord, Joins, CommaGap, Mixes, InToken;
    var ts := ElementTargets(e, pattern);
    AllAreTaken(refuses, tokens, ts);
    ElementIsRead(e.not, e.w, e.ws, e.gaps, tail, rest, pattern, refuses, tokens, |ts|);
    ElementBegins(e, tail + rest);
  }

  lemma ElementBegins(e: Spelled, end: string)
    requires IsNot(e.not) && IsWord(e.w) && |e.gaps| == |e.ws|
    ensures var s := ElementText(e, end); Begins(s) && !("{" <= s)
  {
    hide MoreText, IsWord;
    WordStarts(e.w, MoreText(e.ws, e.gaps, end));
  }

  lemma {:induction false} GroupIsRead(
    es: seq<Spelled>, joints: seq<Joint>, before: string, rest: string, pattern: uint16,
    refuses: (seq<Target>, Target) -> bool, tokens: seq<Target>)
    requires GroupFits(es, joints) && Gap(before) && TakesAll(refuses)
    ensures Elements(Group(true, HeaderPosition), GroupText(es, joints, before + "}" + rest), pattern, refuses, tokens) ==
            Parsed(tokens + GroupTargets(es, pattern), Ok(rest))
    decreases |es|
  {
    hide Element, ElementText, ElementFits, ElementTargets, Next, IsSeparator, Gap, EndsWords;
    var g, end := Group(true, HeaderPosition), before + "}" + rest;
    var own := ElementTargets(es[0], pattern);
    var behind := BehindFirst(es, joints, end);
    BehindEnds(es, joints, before, rest);
    assert "" + behind == behind;
    OneElement(es[0], "", behind, pattern, refuses, tokens);
    if |es| == 1 {
      GroupCloses(HeaderPosition, before, rest);
      assert own + [] == own;
    } else {
      var next := GroupText(es[1..], joints[1..], end);
      GroupStarts(es[1..], joints[1..], end);
      GroupGoesOn(HeaderPosition, joints[0].before, joints[0].separator, joints[0].behind, next);
      GroupIsRead(es[1..], joints[1..], before, rest, ToUint16(pattern + 1), refuses, tokens + own);
      var more := GroupTargets(es[1..], ToUint16(pattern + 1));
      assert tokens + own + more == tokens + (own + more);
    }
  }

  lemma BehindEnds(es: seq<Spelled>, joints: seq<Joint>, before: string, rest: string)
    requires GroupFits(es, joints) && Gap(before)
    ensures EndsWords(es[0].w, "", BehindFirst(es, joints, before + "}" + rest))
  {
    hide ElementFits, ElementText, Joins;
    if |es| > 1 {
      assert joints[0].before[0] == BehindFirst(es, joints, before + "}" + rest)[0];
    }
  }

  lemma GroupStarts(es: seq<Spelled>, joints: seq<Joint>, end: string)
    requires GroupFits(es, joints)
    ensures Begins(GroupText(es, joints, end))
  {
    hide IsWord, ElementText, Joins, Mixes, CommaGap;
    ElementBegins(es[0], BehindFirst(es, joints, end));
  }

  /** A section that is one element. */
  lemma SectionIsRead(e: Spelled, tail: string, rest: string, refuses: (seq<Target>, Target) -> bool)
    requires ElementFits(e) && EndsWords(e.w, tail, rest) && TakesAll(refuses)
    ensures Section(ElementText(e, tail + rest), refuses, []) == Parsed(ElementTargets(e, 0), Ok(rest))
  {
    hide Element, ElementText, ElementTargets, EndsWords, OpenGroup, IsWord, Joins, Mixes, CommaGap;
    var s := ElementText(e, tail + rest);
    OneElement(e, tail, rest, 0, refuses, []);
    NothingOpens(HeaderPosition, s);
    assert Section(s, refuses, []) == AfterElement(Group(false, HeaderPosition), Element(s, 0, refuses, []), 0, refuses);
    AloneEnds(HeaderPosition, rest);
    assert [] + ElementTargets(e, 0) == ElementTargets(e, 0);
  }

  /** A section in braces. */
  lemma GroupSectionIsRead(
    behind: string, es: seq<Spelled>, joints: seq<Joint>, before: string, rest: string, refuses: (seq<Target>, Target) -> bool)
    requires GroupFits(es, joints) && Gap(behind) && Gap(before) && TakesAll(refuses)
    ensures Section("{" + behind + GroupText(es, joints, before + "}" + rest), refuses, []) == Parsed(GroupTargets(es, 0), Ok(rest))
  {
    hide Elements, GroupText, ElementFits, IsJoint, GroupTargets, OpenGroup, Gap;
    GroupStarts(es, joints, before + "}" + rest);
    GroupOpens(HeaderPosition, behind, GroupText(es, joints, before + "}" + rest));
    GroupIsRead(es, joints, before, rest, 0, refuses, []);
    assert [] + GroupTargets(es, 0) == GroupTargets(es, 0);
  }

  // --------------------------------------------------------------- what is printed

  /** The address the printer writes for a target. A lookup has no number sign in it and
      a hostname no quotes. */
  lemma PrintedAddress(t: Target)
    requires PrintTarget(t).Ok?
    ensures Spells(PrintTarget(t).value, t.kind, t.text)
    ensures t.kind != TargetTable && t.kind != TargetAny && t.kind != TargetMe && t.kind != TargetMe6 ==> PrintTarget(t).value == t.text
    ensures '#' !in PrintTarget(t).value
  {
    hide IsHost, HostnameText, IsFour, Network4Text, IsSix, Network6Text, LookupText, IsLookup, TableName;
    HostIs(t.text);
    FourIs(t.text);
    SixIs(t.text);
    match t.kind {
      case TargetTable =>
        LookupReads(t.text);
        LookupIs(t.text);
      case TargetCustom => CustomIs(t.text);
      case TargetHostname | TargetNetwork4 | TargetNetwork6 => PlainShapes(t.text);
      case _ =>
    }
  }

  lemma LookupIs(text: string)
    requires LookupText(text)
    ensures IsLookup(text)
  {
    var comma := IndexOf(text, ',');
    assert comma == |text| ==> text[..comma] == text;
  }

  lemma CustomIs(text: string)
    requires CustomTargetText(text)
    ensures IsCustom(text)
  {
    hide Network4Text, Network6Text, HostnameText, IsHost, IsFour, IsSix;
    HostIs(text);
    FourIs(text);
    SixIs(text);
    if "table(" <= text && ')' in text {
      CloseIsFound(text);
    }
  }

  lemma CloseIsFound(text: string)
    requires "table(" <= text && ')' in text
    ensures TableName(text).Some?
  {
    assert text == "table(" + text[6..];
    assert ')' in text[6..];
  }

  /** Whatever can be spelled without a number sign is printed. */
  lemma AddressIsPrinted(t: Target, token: string)
    requires Spells(token, t.kind, t.text) && '#' !in t.text
    ensures PrintTarget(t).Ok?
  {
    hide IsHost, HostnameText, IsFour, Network4Text, IsSix, Network6Text, LookupText, CustomTargetText;
    HostIs(t.text);
    FourIs(t.text);
    SixIs(t.text);
    match t.kind {
      case TargetTable => LookupIsText(t.text);
      case TargetCustom => CustomIsText(t.text);
      case _ =>
    }
  }

  lemma LookupIsText(text: string)
    requires IsLookup(text) && '#' !in text
    ensures LookupText(text)
  {
    if NameOfTable(text) {
      assert IndexOf(text, ',') == |text| && text[..|text|] == text by {
        assert forall k :: 0 <= k < |text| ==> InToken(text[k]);
      }
    } else {
      var n :| 0 <= n < |text| && text[n] == ',' && NameOfTable(text[..n]) && ValueOfTable(text[n + 1..]);
      PartsHoldNoClose(text, n);
      FirstIndex(text, ',', n);
      assert '#' !in text[..n] && '#' !in text[n + 1..];
    }
  }

  lemma CustomIsText(text: string)
    requires IsCustom(text) && '#' !in text
    ensures CustomTargetText(text)
  {
    hide Network4Text, Network6Text, HostnameText, IsHost, IsFour, IsSix;
    HostIs(text);
    FourIs(text);
    SixIs(text);
    if TableName(text).Some? {
      TableIsClosed(text);
    }
  }

  lemma TableIsClosed(text: string)
    requires TableName(text).Some?
    ensures "table(" <= text && ')' in text
  {
    assert ')' in text[6..];
  }

  /** Why a target is not printed. */
  lemma AddressIsRefused(t: Target)
    requires PrintTarget(t).Err?
    ensures PrintTarget(t).error == if t.kind == TargetNone then UnknownTargetKind else InvalidName
    ensures forall token :: Spells(token, t.kind, t.text) ==> '#' in t.text
  {
    hide Spells;
    forall token | Spells(token, t.kind, t.text) ensures '#' in t.text {
      if '#' !in t.text {
        AddressIsPrinted(t, token);
      }
    }
  }

  predicate StartsPattern(ts: seq<Target>, i: nat)
    requires i < |ts|
  {
    i == 0 || ts[i].pattern != ts[i - 1].pattern
  }

  /** When a target cannot stand behind the first of the pattern before it: the pattern
      is neither the same nor the next, one of them is of no list, they differ in their
      negation, or they are of two families. */
  lemma LinkIsRefused(ts: seq<Target>, i: nat, head: nat)
    requires head < i < |ts|
    ensures var first, t := ts[head], ts[i];
            var same := t.pattern == first.pattern;
            var members := (forall x: Target :: x == t || x == first ==>
                              || x.kind == TargetHostname || x.kind == TargetNetwork4 || x.kind == TargetNetwork6
                              || (x.kind == TargetCustom && !("table(" <= x.text)));
            var mixed := (first.kind == TargetNetwork4 && t.kind == TargetNetwork6)
                         || (first.kind == TargetNetwork6 && t.kind == TargetNetwork4);
            && (Targets.Link(ts, i, head) == Err(BrokenOrChain) <==>
                  if same then !members || (t.neg == first.neg && mixed) else t.pattern != (first.pattern + 1) % 65536)
            && (Targets.Link(ts, i, head) == Err(InconsistentNegation) <==> same && members && t.neg != first.neg)
            && (Targets.Link(ts, i, head).Err? ==> Targets.Link(ts, i, head).error in {BrokenOrChain, InconsistentNegation})
  {
    assert IsListTarget(ts[i]) && IsListTarget(ts[head]) ==> forall x: Target :: x == ts[i] || x == ts[head] ==> IsListTarget(x);
  }

  /** The targets from one to another: a comma between those of one pattern, an `or`
      between the others, and the negation in front of the first of each pattern. */
  function Printed(ts: seq<Target>, tokens: seq<string>, i: nat, n: nat): string
    requires i <= n <= |ts| == |tokens|
    decreases n - i
  {
    if i == n then "" else Before(ts, i) + tokens[i] + Printed(ts, tokens, i + 1, n)
  }

  function Before(ts: seq<Target>, i: nat): string
    requires i < |ts|
  {
    (if i == 0 then "" else if StartsPattern(ts, i) then " or " else ",") + (if StartsPattern(ts, i) && ts[i].neg then "not " else "")
  }

  lemma {:induction false} PrintedFrom(ts: seq<Target>, i: nat, head: nat, tokens: seq<string>)
    requires head <= i <= |ts| == |tokens| && PrintFrom(ts, i, head).Ok? && (head == i ==> i == 0)
    requires forall k :: head <= k < i ==> ts[k].pattern == ts[head].pattern
    requires forall k :: 0 <= k < |ts| && PrintTarget(ts[k]).Ok? ==> tokens[k] == PrintTarget(ts[k]).value
    ensures PrintFrom(ts, i, head).value == Printed(ts, tokens, i, |ts|)
    ensures forall k :: i <= k < |ts| ==> PrintTarget(ts[k]).Ok?
    decreases |ts| - i
  {
    hide PrintTarget, Targets.Link, Before;
    if i < |ts| {
      PrintedFrom(ts, i + 1, NextHead(ts, i, head), tokens);
      LinkIs(ts, i, head);
    }
  }

  /** Where printing from a target on breaks off, `first` being the first target of the
      pattern before that, and what was written up to there. */
  lemma {:induction false} PrintedUpTo(ts: seq<Target>, i: nat, head: nat, tokens: seq<string>) returns (n: nat, first: nat)
    requires head <= i <= |ts| == |tokens| && PrintFrom(ts, i, head).Err? && (head == i ==> i == 0)
    requires forall k :: head <= k < i ==> ts[k].pattern == ts[head].pattern
    requires forall k :: 0 <= k < |ts| && PrintTarget(ts[k]).Ok? ==> tokens[k] == PrintTarget(ts[k]).value
    ensures first <= n < |ts| && i <= n && (first == n ==> n == 0) && forall k :: first <= k < n ==> ts[k].pattern == ts[first].pattern
    ensures first == 0 || first == head || ts[first - 1].pattern != ts[first].pattern
    ensures forall k :: i <= k < n ==> PrintTarget(ts[k]).Ok?
    ensures var link := Targets.Link(ts, n, first);
            if link.Err? then PrintFrom(ts, i, head) == Err(link.error) && PartFrom(ts, i, head) == Printed(ts, tokens, i, n)
            else
              && PrintTarget(ts[n]).Err? && PrintFrom(ts, i, head) == Err(PrintTarget(ts[n]).error)
              && PartFrom(ts, i, head) == Printed(ts, tokens, i, n) + Before(ts, n)
    decreases |ts| - i
  {
    hide PrintTarget, Targets.Link, Before;
    n, first := i, head;
    var link := Targets.Link(ts, i, head);
    if link.Ok? {
      LinkIs(ts, i, head);
      if PrintTarget(ts[i]).Ok? {
        n, first := PrintedUpTo(ts, i + 1, NextHead(ts, i, head), tokens);
      }
    }
  }

  lemma LinkIs(ts: seq<Target>, i: nat, head: nat)
    requires head <= i < |ts| && Targets.Link(ts, i, head).Ok? && (head == i ==> i == 0)
    requires i > 0 ==> ts[i - 1].pattern == ts[head].pattern
    ensures Targets.Link(ts, i, head).value == Before(ts, i)
  {
    hide IsListTarget, MixedFamilies;
  }

  /** The printed section, its braces there exactly when some target starts a pattern of
      its own behind another. */
  lemma PrintedTargetsAre(ts: seq<Target>) returns (tokens: seq<string>)
    requires PrintTargets(ts).Ok?
    ensures |tokens| == |ts| && forall i :: 0 <= i < |ts| ==> Spells(tokens[i], ts[i].kind, ts[i].text) && '#' !in tokens[i]
    ensures var braced := exists i :: 0 < i < |ts| && StartsPattern(ts, i);
            PrintTargets(ts).value == (if braced then "{ " else "") + Printed(ts, tokens, 0, |ts|) + (if braced then " }" else "")
  {
    hide PrintTarget, Spells, PrintFrom;
    tokens := seq(|ts|, i requires 0 <= i < |ts| => if PrintTarget(ts[i]).Ok? then PrintTarget(ts[i]).value else "");
    PrintedFrom(ts, 0, 0, tokens);
    forall i | 0 <= i < |ts| ensures Spells(tokens[i], ts[i].kind, ts[i].text) && '#' !in tokens[i] {
      PrintedAddress(ts[i]);
    }
    BracedIs(ts);
  }

  lemma BracedIs(ts: seq<Target>)
    ensures Braced(ts) <==> exists i :: 0 < i < |ts| && StartsPattern(ts, i)
  {
    if Braced(ts) {
      var i :| 0 < i < |ts| && ts[i].pattern != ts[i - 1].pattern;
      assert StartsPattern(ts, i);
    }
  }

  /** A section that is not printed has a conflict or an unsound target somewhere, behind
      the text of the targets before it. */
  lemma SectionIsRefused(ts: seq<Target>) returns (tokens: seq<string>, n: nat, first: nat)
    requires PrintTargets(ts).Err?
    ensures if ts == [] || ts[0].pattern != 0 then PrintTargets(ts) == Err(BrokenOrChain) && PartOfTargets(ts) == ""
            else
              && |tokens| == |ts| && first <= n < |ts| && (first == n ==> n == 0)
              && (forall k :: first <= k < n ==> ts[k].pattern == ts[first].pattern)
              && (first == 0 || ts[first - 1].pattern != ts[first].pattern)
              && (forall k :: 0 <= k < n ==> Spells(tokens[k], ts[k].kind, ts[k].text))
              && var opening := if exists i :: 0 < i < |ts| && StartsPattern(ts, i) then "{ " else "";
                 if Targets.Link(ts, n, first).Err? then
                   PrintTargets(ts) == Err(Targets.Link(ts, n, first).error) && PartOfTargets(ts) == opening + Printed(ts, tokens, 0, n)
                 else
                   && PrintTarget(ts[n]).Err? && PrintTargets(ts) == Err(PrintTarget(ts[n]).error)
                   && PartOfTargets(ts) == opening + (Printed(ts, tokens, 0, n) + Before(ts, n))
  {
    hide PrintTarget, Spells, PrintFrom, PartFrom, Targets.Link, Before;
    tokens := seq(|ts|, i requires 0 <= i < |ts| => if PrintTarget(ts[i]).Ok? then PrintTarget(ts[i]).value else "");
    n, first := 0, 0;
    if ts != [] && ts[0].pattern == 0 {
      n, first := PrintedUpTo(ts, 0, 0, tokens);
      forall k | 0 <= k < n ensures Spells(tokens[k], ts[k].kind, ts[k].text) {
        PrintedAddress(ts[k]);
      }
      BracedIs(ts);
    }
  }
}
