/**
 What a mask looks like (ifmask.go): every way to spell a list of tokens, and that
 reading a mask is the inverse of spelling one. And what a list of tokens takes, a name
 being cut into one part for each token.
 */
module SpelledMasks {
  import opened Ipfw
  import opened Glob

  // --------------------------------------------------------------------- spelling

  /** How a member of a class is spelled: one byte or two around a dash, each behind a
      backslash or not. */
  datatype ItemSpelling = Single(escaped: bool) | Pair(loEscaped: bool, hiEscaped: bool)

  datatype Spelling = Bare | Escaped | Bracketed(sign: string, items: seq<ItemSpelling>)

  function ByteText(c: char, escaped: bool): string {
    if escaped then ['\\', c] else [c]
  }

  function ItemText(item: Item, s: ItemSpelling): string {
    match s
    case Single(escaped) => ByteText(item.lo, escaped)
    case Pair(loEscaped, hiEscaped) => ByteText(item.lo, loEscaped) + "-" + ByteText(item.hi, hiEscaped)
  }

  function ItemsText(items: seq<Item>, s: seq<ItemSpelling>): string
    requires |items| == |s|
  {
    if items == [] then "" else ItemText(items[0], s[0]) + ItemsText(items[1..], s[1..])
  }

  /** A byte that has to be escaped unless it is the first of its class. */
  predicate MayBePlain(c: char, first: bool) {
    c != '\\' && (c == ']' ==> first)
  }

  /** Whether a text would make a range of the byte before it. */
  predicate StartsRange(rest: string) {
    |rest| >= 2 && rest[0] == '-' && rest[1] != ']'
  }

  predicate ItemsSpelled(items: seq<Item>, s: seq<ItemSpelling>, first: bool) {
    |items| == |s| &&
    (items != [] ==>
       && (match s[0]
           case Single(escaped) =>
             && items[0].lo == items[0].hi && (!escaped ==> MayBePlain(items[0].lo, first))
             && !StartsRange(ItemsText(items[1..], s[1..]) + "]")
           case Pair(loEscaped, hiEscaped) =>
             (!loEscaped ==> MayBePlain(items[0].lo, first)) && (!hiEscaped ==> MayBePlain(items[0].hi, false)))
       && ItemsSpelled(items[1..], s[1..], false))
  }

  function ClassText(members: Class, sign: string, s: seq<ItemSpelling>): string
    requires |members.items| == |s|
  {
    sign + ItemsText(members.items, s) + "]"
  }

  /** A class has members, and a sign exactly when it is negated. */
  predicate ClassSpelled(members: Class, sign: string, s: seq<ItemSpelling>) {
    && members.items != [] && |members.items| == |s| && ItemsSpelled(members.items, s, true)
    && if members.negate then sign == "!" || sign == "^"
       else sign == "" && ItemsText(members.items, s)[..1] != "!" && ItemsText(members.items, s)[..1] != "^"
  }

  /** Whether a class is spelled behind an opening bracket. */
  ghost predicate OpensClass(rest: string) {
    exists members: Class, sign: string, s: seq<ItemSpelling> ::
      |members.items| == |s| && ClassSpelled(members, sign, s) && ClassText(members, sign, s) <= rest
  }

  /** Whether a token can be spelled so before a text. A bare bracket is literal when no
      class is spelled behind it, and a bare backslash at the end. */
  ghost predicate TokenSpelled(t: Token, s: Spelling, rest: string) {
    match t
    case AnyByte => s == Bare
    case Star => s == Bare
    case Literal(c) =>
      || s == Escaped
      || (s == Bare && c != '?' && c != '*' && (c == '[' ==> !OpensClass(rest)) && (c == '\\' ==> rest == ""))
    case OneOf(members) => s.Bracketed? && ClassSpelled(members, s.sign, s.items)
  }

  function TokenText(t: Token, s: Spelling): string {
    match t
    case AnyByte => "?"
    case Star => "*"
    case Literal(c) => if s == Escaped then ['\\', c] else [c]
    case OneOf(members) => if s.Bracketed? && |members.items| == |s.items| then "[" + ClassText(members, s.sign, s.items) else ""
  }

  function Text(ts: seq<Token>, s: seq<Spelling>): string
    requires |ts| == |s|
  {
    if ts == [] then "" else TokenText(ts[0], s[0]) + Text(ts[1..], s[1..])
  }

  ghost predicate Spelled(ts: seq<Token>, s: seq<Spelling>) {
    |ts| == |s| && (ts != [] ==> TokenSpelled(ts[0], s[0], Text(ts[1..], s[1..])) && Spelled(ts[1..], s[1..]))
  }

  // ------------------------------------------------------- what is spelled is read

  lemma ByteReads(p: string, i: nat, c: char, escaped: bool, tail: string)
    requires i <= |p| && p[i..] == ByteText(c, escaped) + tail && (c == '\\' ==> escaped)
    ensures ByteAt(p, i) == Some((c, |p| - |tail|)) && p[|p| - |tail|..] == tail
  {
    assert p[i] == p[i..][0];
    assert escaped ==> p[i + 1] == p[i..][1];
    assert p[i..][|ByteText(c, escaped)|..] == tail;
  }

  lemma ItemReads(p: string, i: nat, item: Item, s: ItemSpelling, first: bool, tail: string)
    requires i <= |p| && p[i..] == ItemText(item, s) + tail
    requires match s
             case Single(escaped) => item.lo == item.hi && (!escaped ==> MayBePlain(item.lo, first)) && !StartsRange(tail)
             case Pair(loEscaped, hiEscaped) => (!loEscaped ==> MayBePlain(item.lo, first)) && (!hiEscaped ==> MayBePlain(item.hi, false))
    ensures FrontAt(p, i, first) == Member(item, |p| - |tail|) && p[|p| - |tail|..] == tail
  {
    match s
    case Single(escaped) =>
      assert p[i..] == ByteText(item.lo, escaped) + tail;
      SingleReads(p, i, item.lo, escaped, first, tail);
    case Pair(loEscaped, hiEscaped) =>
      assert p[i..] == ByteText(item.lo, loEscaped) + ("-" + (ByteText(item.hi, hiEscaped) + tail));
      PairReads(p, i, item, loEscaped, hiEscaped, first, tail);
  }

  /** A byte that is not the closing bracket of its class. */
  lemma NotClosing(p: string, i: nat, c: char, escaped: bool, first: bool, tail: string)
    requires i <= |p| && p[i..] == ByteText(c, escaped) + tail && (!escaped ==> MayBePlain(c, first))
    ensures i < |p| && (p[i] == ']' ==> first) && (c == '\\' ==> escaped)
  {
    assert p[i] == p[i..][0];
  }

  lemma SingleReads(p: string, i: nat, c: char, escaped: bool, first: bool, tail: string)
    requires i <= |p| && p[i..] == ByteText(c, escaped) + tail && (!escaped ==> MayBePlain(c, first)) && !StartsRange(tail)
    ensures FrontAt(p, i, first) == Member(Item(c, c), |p| - |tail|) && p[|p| - |tail|..] == tail
  {
    hide ByteText, ByteAt, MayBePlain;
    NotClosing(p, i, c, escaped, first, tail);
    ByteReads(p, i, c, escaped, tail);
    var n := |p| - |tail|;
    assert n < |p| ==> p[n] == tail[0];
    assert n + 1 < |p| ==> p[n + 1] == tail[1];
  }

  lemma PairReads(p: string, i: nat, item: Item, loEscaped: bool, hiEscaped: bool, first: bool, tail: string)
    requires i <= |p| && p[i..] == ByteText(item.lo, loEscaped) + ("-" + (ByteText(item.hi, hiEscaped) + tail))
    requires (!loEscaped ==> MayBePlain(item.lo, first)) && (!hiEscaped ==> MayBePlain(item.hi, false))
    ensures FrontAt(p, i, first) == Member(item, |p| - |tail|) && p[|p| - |tail|..] == tail
  {
    hide ByteText, ByteAt, MayBePlain;
    var hi := ByteText(item.hi, hiEscaped) + tail;
    NotClosing(p, i, item.lo, loEscaped, first, "-" + hi);
    ByteReads(p, i, item.lo, loEscaped, "-" + hi);
    var n := |p| - |hi| - 1;
    assert p[n] == p[n..][0] == '-';
    assert p[n + 1..] == p[n..][1..] == hi;
    NotClosing(p, n + 1, item.hi, hiEscaped, false, tail);
    ByteReads(p, n + 1, item.hi, hiEscaped, tail);
  }

  lemma {:induction false} ItemsRead(p: string, i: nat, items: seq<Item>, s: seq<ItemSpelling>, first: bool, tail: string)
    requires i <= |p| && ItemsSpelled(items, s, first) && (first ==> items != [])
    requires p[i..] == ItemsText(items, s) + "]" + tail
    ensures ParseItems(p, i, first) == Some((items, |p| - |tail|))
    decreases |items|
  {
    hide FrontAt, ItemText, StartsRange, MayBePlain;
    if items == [] {
      ClosingReads(p, i, tail);
    } else {
      var rest := ItemsText(items[1..], s[1..]) + "]" + tail;
      assert p[i..] == ItemText(items[0], s[0]) + rest;
      TailStartsNoRange(ItemsText(items[1..], s[1..]), tail);
      ItemReads(p, i, items[0], s[0], first, rest);
      ItemsRead(p, |p| - |rest|, items[1..], s[1..], false, tail);
      assert [items[0]] + items[1..] == items;
    }
  }

  lemma ClosingReads(p: string, i: nat, tail: string)
    requires i <= |p| && p[i..] == "" + "]" + tail
    ensures ParseItems(p, i, false) == Some(([], |p| - |tail|))
  {
    assert p[i] == p[i..][0];
  }

  lemma TailStartsNoRange(text: string, tail: string)
    ensures StartsRange(text + "]" + tail) == StartsRange(text + "]")
  {
  }

  lemma ClassReads(p: string, i: nat, members: Class, sign: string, s: seq<ItemSpelling>, tail: string)
    requires i <= |p| && ClassSpelled(members, sign, s) && p[i..] == ClassText(members, sign, s) + tail
    ensures ParseClass(p, i) == Some((members, |p| - |tail|))
  {
    hide ItemsSpelled, ParseItems;
    var text := ItemsText(members.items, s);
    var body := text + "]" + tail;
    assert p[i..] == sign + body;
    assert sign == "" ==> text == "" || text[0] == p[i..][0];
    assert i < |p| && p[i] == p[i..][0];
    var from := i + |sign|;
    assert p[from..] == p[i..][|sign|..] == body;
    assert sign == "" && text != "" ==> text[..1] == [p[i]];
    assert sign == "" ==> text != "" by { ItemsHaveText(members.items, s); }
    assert Negated(p, i) == members.negate;
    ItemsRead(p, from, members.items, s, true, tail);
  }

  lemma ItemsHaveText(items: seq<Item>, s: seq<ItemSpelling>)
    requires |items| == |s| && items != []
    ensures ItemsText(items, s) != ""
  {
    assert ItemText(items[0], s[0]) != "";
  }

  lemma TokenReads(p: string, i: nat, t: Token, s: Spelling, tail: string)
    requires i <= |p| && TokenSpelled(t, s, tail) && p[i..] == TokenText(t, s) + tail
    ensures i < |p| && TokenAt(p, i) == (t, |p| - |tail|) && p[|p| - |tail|..] == tail
  {
    hide ClassText, ClassSpelled, ParseClass, OpensClass;
    var text := TokenText(t, s);
    if t.OneOf? {
      SpelledSizes(t.members, s.sign, s.items);
    }
    TextThen(p, i, text, tail);
    match t {
      case OneOf(members) =>
        assert p[i + 1..] == p[i..][1..] == ClassText(members, s.sign, s.items) + tail;
        ClassReads(p, i + 1, members, s.sign, s.items, tail);
      case Literal(c) =>
        if s != Escaped && c == '[' {
          assert p[i + 1..] == tail;
          NoClassOpens(p, i + 1);
        }
      case _ =>
    }
  }

  lemma TextThen(p: string, i: nat, text: string, tail: string)
    requires i <= |p| && text != "" && p[i..] == text + tail
    ensures i + |text| == |p| - |tail| && p[i + |text|..] == tail && p[i] == text[0] && (|text| > 1 ==> p[i + 1] == text[1])
  {
    assert p[i..][0] == p[i] && p[i..][|text|..] == tail;
    assert |text| > 1 ==> p[i..][1] == p[i + 1];
  }

  lemma SpelledSizes(members: Class, sign: string, s: seq<ItemSpelling>)
    requires ClassSpelled(members, sign, s)
    ensures |members.items| == |s|
  {
  }

  /** Reading a mask gives back the tokens it spells. */
  lemma {:induction false} TextReads(p: string, i: nat, ts: seq<Token>, s: seq<Spelling>)
    requires i <= |p| && Spelled(ts, s) && p[i..] == Text(ts, s)
    ensures Tokens(p, i) == ts
    decreases |ts|
  {
    hide TokenSpelled, TokenText, TokenAt;
    if ts != [] {
      var tail := Text(ts[1..], s[1..]);
      TokenReads(p, i, ts[0], s[0], tail);
      TextReads(p, |p| - |tail|, ts[1..], s[1..]);
      assert [ts[0]] + ts[1..] == ts;
    }
  }

  lemma SpelledMask(ts: seq<Token>, s: seq<Spelling>)
    requires Spelled(ts, s)
    ensures Tokens(Text(ts, s), 0) == ts
  {
    var p := Text(ts, s);
    assert p[0..] == p;
    TextReads(p, 0, ts, s);
  }

  // -------------------------------------------------------- what is read is spelled

  lemma SpellByte(p: string, i: nat) returns (escaped: bool)
    requires i <= |p| && ByteAt(p, i).Some?
    ensures var (c, n) := ByteAt(p, i).value;
            p[i..n] == ByteText(c, escaped) && (!escaped ==> c == p[i] != '\\') && (escaped ==> p[i] == '\\')
  {
    escaped := p[i] == '\\';
  }

  lemma SpellItem(p: string, i: nat, first: bool) returns (s: ItemSpelling)
    requires i <= |p| && FrontAt(p, i, first).Member?
    ensures var (item, n) := (FrontAt(p, i, first).item, FrontAt(p, i, first).next);
            && p[i..n] == ItemText(item, s)
            && match s
               case Single(escaped) =>
                 && item.lo == item.hi && (!escaped ==> MayBePlain(item.lo, first))
                 && !(n + 1 < |p| && p[n] == '-' && p[n + 1] != ']')
               case Pair(loEscaped, hiEscaped) => (!loEscaped ==> MayBePlain(item.lo, first)) && (!hiEscaped ==> MayBePlain(item.hi, false))
  {
    hide ByteAt, ByteText;
    var loEscaped := SpellByte(p, i);
    var (lo, n) := ByteAt(p, i).value;
    if n + 1 < |p| && p[n] == '-' && p[n + 1] != ']' {
      var hiEscaped := SpellByte(p, n + 1);
      var next := ByteAt(p, n + 1).value.1;
      JoinedByDash(p, i, n, next);
      s := Pair(loEscaped, hiEscaped);
    } else {
      s := Single(loEscaped);
    }
  }

  lemma JoinedByDash(p: string, i: nat, n: nat, next: nat)
    requires i <= n < next <= |p| && p[n] == '-'
    ensures p[i..next] == p[i..n] + "-" + p[n + 1..next]
  {
  }

  lemma {:induction false} SpellItems(p: string, i: nat, first: bool) returns (s: seq<ItemSpelling>)
    requires i <= |p| && ParseItems(p, i, first).Some?
    ensures var (items, next) := ParseItems(p, i, first).value;
            |items| == |s| && ItemsSpelled(items, s, first) && p[i..next] == ItemsText(items, s) + "]" && (first ==> items != [])
    decreases |p| - i
  {
    hide FrontAt, ItemText, MayBePlain, StartsRange, ItemsText, ItemsSpelled;
    match FrontAt(p, i, first) {
      case Closing =>
        s := [];
        ClosingIs(p, i, first);
      case Member(item, n) =>
        var own := SpellItem(p, i, first);
        var rest := SpellItems(p, n, false);
        var (items, next) := ParseItems(p, n, false).value;
        s := [own] + rest;
        SameStart(p, n, next, ItemsText(items, rest));
        OneItemMore(item, own, items, rest, first);
        assert p[i..next] == p[i..n] + p[n..next];
    }
  }

  lemma SameStart(p: string, n: nat, next: nat, text: string)
    requires n < next <= |p| && p[n..next] == text + "]"
    ensures StartsRange(text + "]") <==> n + 1 < |p| && p[n] == '-' && p[n + 1] != ']'
  {
    assert p[n..next][0] == p[n];
    assert next > n + 1 ==> p[n..next][1] == p[n + 1];
  }

  lemma OneItemMore(item: Item, own: ItemSpelling, items: seq<Item>, rest: seq<ItemSpelling>, first: bool)
    requires |items| == |rest| && ItemsSpelled(items, rest, false)
    requires match own
             case Single(escaped) =>
               item.lo == item.hi && (!escaped ==> MayBePlain(item.lo, first)) && !StartsRange(ItemsText(items, rest) + "]")
             case Pair(loEscaped, hiEscaped) => (!loEscaped ==> MayBePlain(item.lo, first)) && (!hiEscaped ==> MayBePlain(item.hi, false))
    ensures ItemsSpelled([item] + items, [own] + rest, first)
    ensures ItemsText([item] + items, [own] + rest) == ItemText(item, own) + ItemsText(items, rest)
  {
    hide ItemText, MayBePlain, StartsRange;
    assert ([item] + items)[1..] == items && ([own] + rest)[1..] == rest;
  }

  lemma ClosingIs(p: string, i: nat, first: bool)
    requires i <= |p| && FrontAt(p, i, first).Closing?
    ensures i < |p| && p[i..i + 1] == ItemsText([], []) + "]" && !first && ItemsSpelled([], [], first)
  {
  }

  lemma SpellClass(p: string, i: nat) returns (sign: string, s: seq<ItemSpelling>)
    requires i <= |p| && ParseClass(p, i).Some?
    ensures var (members, next) := ParseClass(p, i).value;
            |members.items| == |s| && ClassSpelled(members, sign, s) && p[i..next] == ClassText(members, sign, s)
  {
    hide ItemsSpelled, ParseItems, ItemsText;
    var from := if Negated(p, i) then i + 1 else i;
    s := SpellItems(p, from, true);
    sign := p[i..from];
    var (items, next) := ParseItems(p, from, true).value;
    assert p[i..next] == sign + p[from..next];
    ItemsHaveText(items, s);
    if !Negated(p, i) {
      assert ItemsText(items, s)[0] == p[i..next][0] == p[i];
    }
  }

  /** A bracket is literal exactly when no class is spelled behind it. */
  lemma NoClassOpens(p: string, i: nat)
    requires i <= |p|
    ensures OpensClass(p[i..]) <==> ParseClass(p, i).Some?
  {
    hide ClassText, ClassSpelled;
    if ParseClass(p, i).Some? {
      var sign, s := SpellClass(p, i);
      var (members, next) := ParseClass(p, i).value;
      assert p[i..][..next - i] == p[i..next];
    }
    if OpensClass(p[i..]) {
      var members: Class, sign: string, s: seq<ItemSpelling> :|
        |members.items| == |s| && ClassSpelled(members, sign, s) && ClassText(members, sign, s) <= p[i..];
      var tail := p[i..][|ClassText(members, sign, s)|..];
      ClassReads(p, i, members, sign, s, tail);
    }
  }

  lemma SpellToken(p: string, i: nat) returns (s: Spelling)
    requires i < |p|
    ensures var (t, n) := TokenAt(p, i); TokenSpelled(t, s, p[n..]) && TokenText(t, s) == p[i..n]
  {
    hide ClassText, ClassSpelled, ParseClass, OpensClass;
    s := Bare;
    if p[i] == '\\' && i + 1 < |p| {
      s := Escaped;
    } else if p[i] == '[' {
      NoClassOpens(p, i + 1);
      if ParseClass(p, i + 1).Some? {
        var sign, items := SpellClass(p, i + 1);
        s := Bracketed(sign, items);
        var next := ParseClass(p, i + 1).value.1;
        assert p[i..next] == "[" + p[i + 1..next];
      }
    }
  }

  /** Every mask spells the tokens it is read as, so that they are all it can mean. */
  lemma {:induction false} MaskIsSpelled(p: string, i: nat) returns (s: seq<Spelling>)
    requires i <= |p|
    ensures |Tokens(p, i)| == |s| && Spelled(Tokens(p, i), s) && Text(Tokens(p, i), s) == p[i..]
    decreases |p| - i
  {
    hide TokenSpelled, TokenText, TokenAt;
    if i == |p| {
      s := [];
    } else {
      var n := TokenAt(p, i).1;
      var own := SpellToken(p, i);
      var rest := MaskIsSpelled(p, n);
      s := [own] + rest;
      assert Tokens(p, i)[1..] == Tokens(p, n) && s[1..] == rest;
      assert p[i..] == p[i..n] + p[n..];
    }
  }

  // ---------------------------------------------------------- what a mask takes

  function Joined(parts: seq<string>): string {
    if parts == [] then "" else parts[0] + Joined(parts[1..])
  }

  /** What one token takes: a star any bytes, any other exactly one. */
  predicate PartFits(t: Token, part: string) {
    match t
    case Star => true
    case AnyByte => |part| == 1
    case Literal(c) => part == [c]
    case OneOf(members) =>
      |part| == 1 && (exists k :: 0 <= k < |members.items| && members.items[k].lo <= part[0] <= members.items[k].hi) != members.negate
  }

  /** A name that can be cut into one part for each token. */
  ghost predicate Cut(ts: seq<Token>, name: string) {
    exists parts: seq<string> :: |parts| == |ts| && Joined(parts) == name && forall k :: 0 <= k < |ts| ==> PartFits(ts[k], parts[k])
  }

  /** Tokens match exactly the names they cut. */
  lemma {:induction false} MatchingIsCutting(ts: seq<Token>, name: string)
    ensures Matches(ts, name) <==> Cut(ts, name)
    decreases |ts|
  {
    hide Matches, Cut, PartFits, Joined;
    if ts == [] {
      NothingIsCut(name);
    } else {
      if Matches(ts, name) {
        var part := FirstPart(ts, name);
        MatchingIsCutting(ts[1..], name[|part|..]);
        PartsJoin(ts, name, part);
      }
      if Cut(ts, name) {
        var part := FirstCut(ts, name);
        MatchingIsCutting(ts[1..], name[|part|..]);
        PartMatches(ts, name, part);
      }
    }
  }

  /** What a mask takes, by its spelling alone: the names that can be cut into one part
      for each of its tokens. */
  lemma MaskTakes(ts: seq<Token>, s: seq<Spelling>, name: string)
    requires Spelled(ts, s)
    ensures Matches(Tokens(Text(ts, s), 0), name) <==> Cut(ts, name)
  {
    SpelledMask(ts, s);
    MatchingIsCutting(ts, name);
  }

  lemma NothingIsCut(name: string)
    ensures Matches([], name) <==> Cut([], name)
  {
    var none: seq<string> := [];
    assert |none| == 0 && Joined(none) == "";
  }

  lemma FirstCut(ts: seq<Token>, name: string) returns (part: string)
    requires ts != [] && Cut(ts, name)
    ensures part <= name && PartFits(ts[0], part) && Cut(ts[1..], name[|part|..])
  {
    hide PartFits;
    var parts: seq<string> :| |parts| == |ts| && Joined(parts) == name && forall k :: 0 <= k < |ts| ==> PartFits(ts[k], parts[k]);
    part := parts[0];
    assert name[|part|..] == Joined(parts[1..]);
    assert forall k :: 0 <= k < |ts[1..]| ==> PartFits(ts[1..][k], parts[1..][k]);
  }

  lemma FirstPart(ts: seq<Token>, name: string) returns (part: string)
    requires ts != [] && Matches(ts, name)
    ensures part <= name && PartFits(ts[0], part) && Matches(ts[1..], name[|part|..])
  {
    if ts[0].Star? {
      var k :| 0 <= k <= |name| && Matches(ts[1..], name[k..]);
      part := name[..k];
    } else {
      part := name[..1];
    }
  }

  lemma PartMatches(ts: seq<Token>, name: string, part: string)
    requires ts != [] && part <= name && PartFits(ts[0], part) && Matches(ts[1..], name[|part|..])
    ensures Matches(ts, name)
  {
    assert part != "" ==> part[0] == name[0];
  }

  lemma PartsJoin(ts: seq<Token>, name: string, part: string)
    requires ts != [] && part <= name && PartFits(ts[0], part) && Cut(ts[1..], name[|part|..])
    ensures Cut(ts, name)
  {
    hide PartFits;
    var parts: seq<string> :|
      && |parts| == |ts[1..]| && Joined(parts) == name[|part|..]
      && forall k :: 0 <= k < |ts[1..]| ==> PartFits(ts[1..][k], parts[k]);
    var all := [part] + parts;
    assert all[1..] == parts && part + name[|part|..] == name;
    forall k | 0 <= k < |ts| ensures PartFits(ts[k], all[k]) {
      if k > 0 {
        assert ts[1..][k - 1] == ts[k];
      }
    }
    assert Joined(all) == name;
  }
}
