/**
 Whatever a target section reads as (target.go) is what the formatter takes
 (format.go), and its text reads back the same.
 */
module TargetsRead {
  import opened Ipfw
  import opened Lex
  import opened Targets

  /** The first target of the pattern a target belongs to. */
  function HeadOf(ts: seq<Target>, k: nat): (r: nat)
    requires k < |ts|
    ensures r <= k && ts[r].pattern == ts[k].pattern
  {
    if k == 0 || ts[k].pattern != ts[k - 1].pattern then k else HeadOf(ts, k - 1)
  }

  /** A target that prints, but for the byte that starts a comment of the line. */
  ghost predicate Shaped(t: Target) { '#' !in t.text ==> PrintTarget(t).Ok? }

  /** A target as it follows the one before it: as a member of its list or as the
      next pattern. */
  ghost predicate Linked(ts: seq<Target>, k: nat)
    requires k < |ts|
  {
    if k == 0 then ts[0].pattern == 0
    else if ts[k].pattern != ts[k - 1].pattern then ts[k].pattern == ToUint16(ts[k - 1].pattern + 1)
    else
      var head := ts[HeadOf(ts, k)];
      && IsListTarget(ts[k]) && IsListTarget(head) && ts[k].neg == head.neg
      && !MixedFamilies(head.kind, ts[k].kind) && !StartsWithTab(ts[k])
  }

  ghost predicate Sound(ts: seq<Target>) {
    forall k: nat :: k < |ts| ==> Linked(ts, k) && Shaped(ts[k])
  }

  lemma {:induction false} HeadOfPrefix(ts: seq<Target>, t: Target, k: nat)
    requires k < |ts|
    ensures HeadOf(ts + [t], k) == HeadOf(ts, k)
  {
    if k > 0 && ts[k].pattern == ts[k - 1].pattern {
      HeadOfPrefix(ts, t, k - 1);
    }
  }

  lemma LinkedStays(ts: seq<Target>, t: Target, k: nat)
    requires k < |ts| && Linked(ts, k)
    ensures Linked(ts + [t], k)
  {
    hide IsListTarget, MixedFamilies, StartsWithTab, HeadOf;
    HeadOfPrefix(ts, t, k);
    var r := HeadOf(ts, k);
    assert (ts + [t])[r] == ts[r] && (ts + [t])[k] == ts[k];
  }

  lemma SoundGrows(ts: seq<Target>, t: Target)
    requires Sound(ts) && Linked(ts + [t], |ts|) && Shaped(t)
    ensures Sound(ts + [t])
  {
    hide Shaped, Linked;
    forall k: nat | k < |ts| ensures Linked(ts + [t], k) && Shaped((ts + [t])[k]) {
      LinkedStays(ts, t, k);
    }
  }

  // --------------------------------------------------------- tokens that are read

  lemma NoHashBytes(t: string)
    requires All(t, IsTargetByte) && '#' !in t && ')' !in t && t != ""
    ensures TableRefText(t)
  {
  }

  /** A scanned token classifies as a target that prints. */
  lemma ScannedPrints(token: string, t: Target)
    requires All(token, IsTargetByte) && Classify(token) == Ok((t.kind, t.text))
    ensures Shaped(t)
  {
    hide Network4Text, Network6Text, HostnameText, TableRefText;
    if t.kind == TargetTable && '#' !in t.text {
      LookupIsToken(token, t.text);
      assert forall k :: 0 <= k < |t.text| ==> t.text[k] == token[k + 6];
      NoHashBytes(t.text);
      var comma := IndexOf(t.text, ',');
      assert comma == |t.text| && t.text[..comma] == t.text;
    }
  }

  /** What a table lookup of a whole token holds. */
  lemma LookupIsToken(token: string, text: string)
    requires ClassifyTable(token) == Some(Ok(text))
    ensures token == "table(" + text + ")" && text != "" && ')' !in text
    ensures IndexOf(text, ',') != 0 && IndexOf(text, ',') + 1 != |text|
  {
    hide TableName, IndexOf;
    assert TableName(token) == Some((text, |token|));
    WholeLookup(token, text);
  }

  lemma WholeLookup(token: string, text: string)
    requires TableName(token) == Some((text, |token|))
    ensures token == "table(" + text + ")" && ')' !in text
  {
    var inside := token[6..];
    assert IndexOf(inside, ')') == |inside| - 1;
    assert inside == text + ")";
    assert token == token[..6] + inside;
  }

  /** A lookup that was scanned again past the comma of its value prints too. */
  lemma RescannedPrints(token: string, first: string, value: string, more: string, t: Target)
    requires token == first + "," + value + ")" + more && "table(" <= first
    requires All(first, IsTargetByte) && All(value, IsTableValueByte)
    requires Classify(token) == Ok((t.kind, t.text))
    ensures Shaped(t)
  {
    hide Network4Text, Network6Text, HostnameText, TableRefText, ClassifyTable;
    ClosedIsTable(token, first, value, more);
    if '#' !in t.text {
      LookupIsToken(token, t.text);
      LookupParts(token, first, value, more, t.text);
    }
  }

  lemma ClosedIsTable(token: string, first: string, value: string, more: string)
    requires token == first + "," + value + ")" + more && "table(" <= first
    ensures token != "" && token[0] == 't' && token !in {"any", "me", "me6", "not"} && ClassifyTable(token).Some?
  {
    assert "table(" <= token;
    assert ')' in token[6..] by { assert token[6..][|first| - 6 + 1 + |value|] == ')'; }
    assert token[0] == 't' && |token| > 6;
  }

  lemma LookupParts(token: string, first: string, value: string, more: string, text: string)
    requires token == first + "," + value + ")" + more && "table(" <= first
    requires All(first, IsTargetByte) && All(value, IsTableValueByte)
    requires token == "table(" + text + ")" && ')' !in text && '#' !in text
    requires text != "" && IndexOf(text, ',') != 0 && IndexOf(text, ',') + 1 != |text|
    ensures LookupText(text)
  {
    hide LookupText, IndexOf, IsTargetByte, IsTableValueByte;
    var name := SplitLookup(token, first, value, more, text);
    assert forall k :: 0 <= k < |name| ==> name[k] == first[k + 6];
    PartsOf(text, name, value);
  }

  lemma SplitLookup(token: string, first: string, value: string, more: string, text: string) returns (name: string)
    requires token == first + "," + value + ")" + more && "table(" <= first
    requires token == "table(" + text + ")" && ')' !in text
    ensures first == "table(" + name && text == name + "," + value
  {
    name := first[6..];
    var tail := (name + "," + value) + ")" + more;
    assert first == "table(" + name;
    assert token == "table(" + tail;
    assert token[6..] == tail;
    assert token[6..] == text + ")";
    CutAtClose(name + "," + value, more, text);
  }

  lemma CutAtClose(a: string, more: string, text: string)
    requires a + ")" + more == text + ")" && ')' !in text
    ensures text == a
  {
    var s := text + ")";
    assert s[|a|] == ')';
    assert forall k :: 0 <= k < |text| ==> s[k] == text[k] && text[k] in text;
    assert s[..|text|] == text && s[..|a|] == a;
  }

  lemma PartsOf(text: string, name: string, value: string)
    requires text == name + "," + value && All(name, IsTargetByte) && All(value, IsTableValueByte)
    requires ')' !in text && '#' !in text
    requires text != "" && IndexOf(text, ',') != 0 && IndexOf(text, ',') + 1 != |text|
    ensures LookupText(text)
  {
    FirstIndex(text, ',', |name|);
    assert text[..|name|] == name && text[|name| + 1..] == value;
    assert forall c :: c in name || c in value ==> c in text;
    NoHashBytes(name);
  }

  lemma ElementPrints(s: string, t: Target)
    requires Classify(ElementToken(s).0) == Ok((t.kind, t.text))
    ensures Shaped(t)
  {
    hide Classify, Shaped;
    var (token, after) := ScanToken(s);
    if ElementToken(s).0 == token {
      ScannedPrints(token, t);
    } else {
      var value, more := Rescan(s);
      RescannedPrints(ElementToken(s).0, token, value, more, t);
    }
  }

  /** A run of bytes after its first. */
  lemma RunTail(s: string, f: char -> bool) returns (taken: string)
    requires s != "" && f(s[0])
    ensures s == [s[0]] + taken + After(s, f) && All(taken, f)
  {
    var n := Run(s, f);
    assert n > 0;
    taken := s[1..n];
    assert forall k :: 0 <= k < |taken| ==> taken[k] == s[..n][k + 1];
  }

  /** The parts of a token that was scanned again. */
  lemma Rescan(s: string) returns (value: string, more: string)
    requires ElementToken(s).0 != ScanToken(s).0
    ensures var first := ScanToken(s).0;
            && ElementToken(s).0 == first + "," + value + ")" + more
            && All(value, IsTableValueByte) && All(first, IsTargetByte) && "table(" <= first
  {
    hide Run, After;
    var (first, after) := ScanToken(s);
    var afterValue := After(after, IsTableValueByte);
    var end := After(afterValue, IsTargetByte);
    value := RunTail(after, IsTableValueByte);
    more := RunTail(afterValue, IsTargetByte);
    assert s == (first + "," + value + ")" + more) + end;
  }

  // --------------------------------------------------------------- the tokens link

  /** A list that can go on: the first of its pattern is a list target of it. */
  ghost predicate InList(ts: seq<Target>, ctx: Ctx, family: TargetKind) {
    ts != [] && var head := ts[HeadOf(ts, |ts| - 1)];
      IsListTarget(head) && head.neg == ctx.neg && head.pattern == ctx.pattern && head.kind == family
  }

  lemma MemberGrows(rest: string, ctx: Ctx, family: TargetKind, ts: seq<Target>)
    requires Sound(ts) && InList(ts, ctx, family) && rest != "" && rest[0] != VERTICAL_TAB
    requires ListMember(rest, ctx, family, ts).Ok?
    ensures var more := ts + [ListMember(rest, ctx, family, ts).value.0]; Sound(more) && InList(more, ctx, family)
  {
    hide Classify, IsListTarget, MixedFamilies, Sound, Shaped, StartsWithTab;
    var t := ListMember(rest, ctx, family, ts).value.0;
    MemberStart(rest, ctx, family, ts);
    ScannedPrints(ScanToken(rest).0, t);
    HeadOfPrefix(ts, t, |ts| - 1);
    assert HeadOf(ts + [t], |ts|) == HeadOf(ts, |ts| - 1);
    SoundGrows(ts, t);
  }

  lemma {:induction false} MembersSound(s: string, ctx: Ctx, family: TargetKind, ts: seq<Target>)
    ensures Sound(ts) && InList(ts, ctx, family) ==>
            var r := Members(s, ctx, family, ts).tokens; Sound(r) && InList(r, ctx, family)
    decreases |s|
  {
    hide ListMember, Sound, InList;
    var rest := AfterComma(s);
    if Sound(ts) && InList(ts, ctx, family) && rest.Some? && !ListEnded(rest.value) {
      var m := ListMember(rest.value, ctx, family, ts);
      if m.Ok? {
        MemberGrows(rest.value, ctx, family, ts);
        MembersSound(m.value.1, ctx, family, ts + [m.value.0]);
      }
    }
  }

  /** The number the next pattern has. */
  ghost predicate NextPattern(ts: seq<Target>, pattern: uint16) {
    if ts == [] then pattern == 0 else pattern == ToUint16(ts[|ts| - 1].pattern + 1)
  }

  lemma ElementSound(s: string, pattern: uint16, refuses: (seq<Target>, Target) -> bool, ts: seq<Target>)
    requires Sound(ts) && NextPattern(ts, pattern)
    ensures var e := Element(s, pattern, refuses, ts);
            Sound(e.tokens) && (e.outcome.Ok? ==> NextPattern(e.tokens, ToUint16(pattern + 1)))
  {
    hide Classify, IsListTarget, Sound, Shaped, ElementToken, Members, MixedFamilies;
    var (rest, neg) := TargetNot(s);
    var ctx := Ctx(neg, pattern, refuses);
    var shape := Classify(ElementToken(rest).0);
    if shape.Ok? {
      var t := TargetOf(ctx, shape.value.0, shape.value.1);
      ElementPrints(rest, t);
      SoundGrows(ts, t);
      if IsListTarget(t) {
        assert HeadOf(ts + [t], |ts|) == |ts|;
        MembersSound(ElementToken(rest).1, ctx, t.kind, ts + [t]);
      }
    }
  }

  lemma {:induction false} ElementsSound(
    g: Group, s: string, pattern: uint16, refuses: (seq<Target>, Target) -> bool, ts: seq<Target>)
    requires Sound(ts) && NextPattern(ts, pattern)
    ensures Sound(Elements(g, s, pattern, refuses, ts).tokens)
    decreases |s|
  {
    hide Element, Sound, NextPattern, Next;
    ElementSound(s, pattern, refuses, ts);
    var e := Element(s, pattern, refuses, ts);
    if e.outcome.Ok? {
      var next := Next(g, e.outcome.value);
      if next.More? {
        ElementsSound(g, next.rest, ToUint16(pattern + 1), refuses, e.tokens);
      }
    }
  }

  lemma SectionSound(s: string, refuses: (seq<Target>, Target) -> bool)
    ensures Sound(Section(s, refuses, []).tokens)
  {
    var (g, start) := OpenGroup(s, HeaderPosition);
    ElementsSound(g, start, 0, refuses, []);
  }

  // --------------------------------------------------------- and so they are printed

  /** Linked targets print exactly when none of them holds the byte that starts a
      comment of the line. */
  lemma {:induction false} SoundPrints(ts: seq<Target>, i: nat, head: nat)
    requires Sound(ts) && head <= i <= |ts| && ts != []
    requires head == if i == 0 then 0 else HeadOf(ts, i - 1)
    ensures PrintFrom(ts, i, head).Ok? <==> forall k :: i <= k < |ts| ==> '#' !in ts[k].text
    decreases |ts| - i
  {
    hide Linked, Shaped, Piece, HeadOf, NextHead;
    if i < |ts| {
      PiecePrints(ts, i, head);
      SoundPrints(ts, i + 1, NextHead(ts, i, head));
    }
  }

  lemma PiecePrints(ts: seq<Target>, i: nat, head: nat)
    requires head <= i < |ts| && Linked(ts, i) && Shaped(ts[i])
    requires head == if i == 0 then 0 else HeadOf(ts, i - 1)
    ensures Piece(ts, i, head).Ok? <==> '#' !in ts[i].text
    ensures NextHead(ts, i, head) == HeadOf(ts, i)
  {
    hide PrintTarget, IsListTarget, MixedFamilies;
    if PrintTarget(ts[i]).Ok? {
      PrintedHasNoHash(ts[i]);
    }
  }

  lemma PrintedHasNoHash(t: Target)
    requires PrintTarget(t).Ok?
    ensures '#' !in t.text
  {
    hide LookupText, Network4Text, Network6Text, HostnameText, TableName;
    match t.kind {
      case TargetTable => LookupReads(t.text);
      case TargetNetwork4 | TargetNetwork6 | TargetHostname => PlainShapes(t.text);
      case _ =>
    }
  }

  /** Whatever a section reads as, up to its end or to a failure, prints exactly when
      none of its texts holds the byte that starts a comment of the line, and then
      reads back the same. */
  lemma ReadTargetsPrintAndReadBack(
    s: string, rest: string, refuses: (seq<Target>, Target) -> bool, again: (seq<Target>, Target) -> bool)
    ensures var ts := Section(s, refuses, []).tokens;
            ts != [] ==>
              && (PrintTargets(ts).Ok? <==> forall k :: 0 <= k < |ts| ==> '#' !in ts[k].text)
              && (PrintTargets(ts).Ok? && TakesAll(again) && (!Braced(ts) ==> EndsTargets(rest)) ==>
                    Section(PrintTargets(ts).value + rest, again, []) == Parsed(ts, Ok(rest)))
  {
    hide Elements, Braced, PrintFrom, TakesAll;
    SectionSound(s, refuses);
    var ts := Section(s, refuses, []).tokens;
    if ts != [] {
      assert Linked(ts, 0);
      SoundPrints(ts, 0, 0);
      if PrintTargets(ts).Ok? && TakesAll(again) && (!Braced(ts) ==> EndsTargets(rest)) {
        SoundHasNoTab(ts);
        PrintedTargetsReadBackIff(ts, rest, again);
      }
    }
  }

  lemma SoundHasNoTab(ts: seq<Target>)
    requires Sound(ts)
    ensures NoLaterTab(ts, 0)
  {
    forall k: nat | k < |ts| && Later(ts, k) ensures !StartsWithTab(ts[k]) {
      assert Linked(ts, k);
    }
  }
}
