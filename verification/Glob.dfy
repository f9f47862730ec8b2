/**
 The interface-mask matcher (ifmask.go).

 A mask denotes a list of glob tokens, and a token list denotes a set of names
 by the usual recursive definition. `MatchIfMask` is the scan that keeps only
 the last star to backtrack to and caches where a class is known not to close.
 It is proved to decide exactly the denotation.
 */
module Glob {

  import opened Ipfw

  /** One member of a class, `lo` and `hi` equal for a single byte. */
  datatype Item = Item(lo: char, hi: char)

  /** A `[...]` class. */
  datatype Class = Class(negate: bool, items: seq<Item>)

  datatype Token = Literal(c: char) | AnyByte | Star | OneOf(members: Class)

  // ---------------------------------------------------------------- denotation

  predicate Holds(items: seq<Item>, c: char) {
    exists k :: 0 <= k < |items| && items[k].lo <= c <= items[k].hi
  }

  predicate InClass(members: Class, c: char) {
    Holds(members.items, c) != members.negate
  }

  /** Whether a token other than a star takes the byte. */
  predicate Takes(t: Token, c: char) {
    match t
    case Literal(l) => l == c
    case AnyByte => true
    case OneOf(members) => InClass(members, c)
    case Star => false
  }

  /** The declarative glob: a star is any run, every other token one byte. */
  predicate Matches(tokens: seq<Token>, name: string)
    decreases |tokens|
  {
    if tokens == [] then name == ""
    else if tokens[0].Star? then exists k :: 0 <= k <= |name| && Matches(tokens[1..], name[k..])
    else name != "" && Takes(tokens[0], name[0]) && Matches(tokens[1..], name[1..])
  }

  // -------------------------------------------------------------------- syntax

  /** What stands at an index inside a class: nothing that could end it, the
      closing bracket, or a member and the index past it. In front of all
      members a closing bracket is one of them. */
  datatype Front = Unclosed | Closing | Member(item: Item, next: nat)

  /** A byte of a class, a backslash making the next one literal, and the index past it. */
  function ByteAt(p: string, i: nat): (r: Option<(char, nat)>)
    requires i <= |p|
    ensures r.Some? ==> i < r.value.1 <= |p|
  {
    if i == |p| then None
    else if p[i] != '\\' then Some((p[i], i + 1))
    else if i + 1 == |p| then None
    else Some((p[i + 1], i + 2))
  }

  function FrontAt(p: string, i: nat, first: bool): (r: Front)
    requires i <= |p|
    ensures r.Closing? ==> i < |p|
    ensures r.Member? ==> i < r.next <= |p|
  {
    if i < |p| && p[i] == ']' && !first then Closing
    else
      match ByteAt(p, i)
      case None => Unclosed
      case Some((lo, n)) =>
        if n + 1 < |p| && p[n] == '-' && p[n + 1] != ']' then
          match ByteAt(p, n + 1)
          case None => Unclosed
          case Some((hi, next)) => Member(Item(lo, hi), next)
        else
          Member(Item(lo, lo), n)
  }

  /** The members of a class and the index past its closing bracket, none when it
      never closes. */
  function ParseItems(p: string, i: nat, first: bool): (r: Option<(seq<Item>, nat)>)
    requires i <= |p|
    ensures r.Some? ==> i < r.value.1 <= |p|
    decreases |p| - i
  {
    match FrontAt(p, i, first)
    case Unclosed => None
    case Closing => Some(([], i + 1))
    case Member(item, next) => PrependAll([item], ParseItems(p, next, false))
  }

  function PrependAll(items: seq<Item>, r: Option<(seq<Item>, nat)>): Option<(seq<Item>, nat)> {
    if r.None? then None else Some((items + r.value.0, r.value.1))
  }

  lemma ItemsUnfold(p: string, i: nat, first: bool)
    requires i <= |p|
    ensures match FrontAt(p, i, first)
            case Unclosed => ParseItems(p, i, first) == None
            case Closing => ParseItems(p, i, first) == Some(([], i + 1))
            case Member(item, next) => ParseItems(p, i, first) == PrependAll([item], ParseItems(p, next, false))
  {
  }

  predicate Negated(p: string, i: nat) {
    i < |p| && (p[i] == '!' || p[i] == '^')
  }

  /** The class whose opening bracket ends at `i`, none when it is malformed. */
  function ParseClass(p: string, i: nat): (r: Option<(Class, nat)>)
    requires i <= |p|
    ensures r.Some? ==> i < r.value.1 <= |p|
  {
    var items := ParseItems(p, if Negated(p, i) then i + 1 else i, true);
    if items.None? then None else Some((Class(Negated(p, i), items.value.0), items.value.1))
  }

  /** The token at an index and the index past it: a class that never closes and a
      trailing backslash are literal. */
  function TokenAt(p: string, i: nat): (r: (Token, nat))
    requires i < |p|
    ensures i < r.1 <= |p|
  {
    match p[i]
    case '?' => (AnyByte, i + 1)
    case '*' => (Star, i + 1)
    case '\\' => if i + 1 == |p| then (Literal('\\'), i + 1) else (Literal(p[i + 1]), i + 2)
    case '[' =>
      (match ParseClass(p, i + 1)
       case None => (Literal('['), i + 1)
       case Some((members, next)) => (OneOf(members), next))
    case c => (Literal(c), i + 1)
  }

  /** The tokens of a mask from an index on. */
  function Tokens(p: string, i: nat): seq<Token>
    requires i <= |p|
    decreases |p| - i
  {
    if i == |p| then [] else [TokenAt(p, i).0] + Tokens(p, TokenAt(p, i).1)
  }

  // ------------------------------------------------------ closing of a class

  /** Whether an unescaped closing bracket stands at or past an index. */
  predicate HasClose(p: string, i: nat)
    requires i <= |p|
    decreases |p| - i
  {
    if i == |p| then false
    else if p[i] == '\\' then i + 1 < |p| && HasClose(p, i + 2)
    else p[i] == ']' || HasClose(p, i + 1)
  }

  /** Past its first member, a class closes exactly when a closing bracket is left. */
  lemma {:induction false} ClosesLater(p: string, i: nat)
    requires i <= |p|
    ensures ParseItems(p, i, false).Some? <==> HasClose(p, i)
    decreases |p| - i
  {
    if i < |p| && !(p[i] == '\\' && i + 1 == |p|) {
      var n := if p[i] == '\\' then i + 2 else i + 1;
      assert p[i] != ']' ==> HasClose(p, i) == HasClose(p, n);
      match FrontAt(p, i, false)
      case Member(_, next) =>
        if n < next {
          assert HasClose(p, n) == HasClose(p, n + 1) == HasClose(p, next);
        }
        ClosesLater(p, next);
      case Unclosed =>
        assert HasClose(p, n) == HasClose(p, n + 1) == false;
      case Closing =>
    }
  }

  /** A class with no unescaped closing bracket left is malformed. */
  lemma OpensInVain(p: string, i: nat)
    requires i <= |p| && !HasClose(p, i)
    ensures ParseClass(p, i).None?
  {
    var body := if Negated(p, i) then i + 1 else i;
    assert !HasClose(p, body);
    assert FrontAt(p, body, true) == FrontAt(p, body, false);
    assert ParseItems(p, body, true) == ParseItems(p, body, false);
    ClosesLater(p, body);
  }

  /** A malformed class leaves no closing bracket past the first byte of its inside. */
  lemma Exhausted(p: string, i: nat)
    requires i < |p| && ParseItems(p, i, true).None?
    ensures !HasClose(p, if p[i] == ']' then i + 1 else i)
  {
    if p[i] != ']' {
      assert ParseItems(p, i, true) == ParseItems(p, i, false);
      ClosesLater(p, i);
    } else {
      match FrontAt(p, i, true)
      case Member(_, next) =>
        if i + 1 < next {
          assert HasClose(p, i + 1) == HasClose(p, i + 2) == HasClose(p, next);
        }
        ClosesLater(p, next);
      case Unclosed =>
        assert HasClose(p, i + 1) == HasClose(p, i + 2) == false;
    }
  }

  // ----------------------------------------------------------- token boundaries

  /** Whether a token of `p` starts, or the text ends, at `i` when a token starts at `from`. */
  predicate Boundary(p: string, from: nat, i: nat)
    requires from <= |p|
    decreases |p| - from
  {
    from == i || (from < i && from < |p| && Boundary(p, TokenAt(p, from).1, i))
  }

  lemma {:induction false} BoundaryStep(p: string, from: nat, i: nat)
    requires from <= |p| && i < |p| && Boundary(p, from, i)
    ensures Boundary(p, from, TokenAt(p, i).1)
    decreases |p| - from
  {
    if from < i {
      BoundaryStep(p, TokenAt(p, from).1, i);
    } else {
      assert Boundary(p, TokenAt(p, i).1, TokenAt(p, i).1);
    }
  }

  lemma {:induction false} BoundaryOrder(p: string, from: nat, i: nat, j: nat)
    requires from <= i <= j && i <= |p|
    requires Boundary(p, from, i) && Boundary(p, from, j)
    ensures Boundary(p, i, j)
    decreases |p| - from
  {
    if from < i {
      BoundaryOrder(p, TokenAt(p, from).1, i, j);
    }
  }

  /** Where no closing bracket is left, every later token boundary has none left either. */
  lemma {:induction false} NoneClosesAfter(p: string, from: nat, i: nat)
    requires from <= i < |p| && !HasClose(p, from) && Boundary(p, from, i)
    ensures !HasClose(p, i)
    decreases |p| - from
  {
    if from < i {
      if p[from] == '[' {
        OpensInVain(p, from + 1);
      }
      NoneClosesAfter(p, TokenAt(p, from).1, i);
    }
  }

  /** The justification of the cache: after an unclosable bracket at a token
      boundary, every bracket at a later boundary is unclosable too. */
  lemma LaterBracketsAreLiteral(p: string, at: nat, i: nat)
    requires at <= i < |p| && p[at] == '[' && ParseClass(p, at + 1).None?
    requires Boundary(p, at, i) && p[i] == '['
    ensures ParseClass(p, i + 1).None?
  {
    if at < i {
      assert Boundary(p, at + 1, i);
      var body := if Negated(p, at + 1) then at + 2 else at + 1;
      assert Boundary(p, body, i);
      Exhausted(p, body);
      var from := if p[body] == ']' then body + 1 else body;
      assert Boundary(p, from, i);
      NoneClosesAfter(p, from, i);
      OpensInVain(p, i + 1);
    }
  }

  // ------------------------------------------------------------------ the class

  /** A class reads the same in a suffix of the mask, which is what the scan of it is given. */
  lemma {:induction false} ItemsShift(p: string, k: nat, i: nat, first: bool)
    requires k <= |p| && i <= |p| - k
    ensures Shifted(ParseItems(p[k..], i, first), ParseItems(p, k + i, first), k)
    decreases |p| - i
  {
    FrontShift(p, k, i, first);
    match FrontAt(p, k + i, first)
    case Member(item, next) => ItemsShift(p, k, next - k, false);
    case Unclosed =>
    case Closing =>
  }

  lemma FrontShift(p: string, k: nat, i: nat, first: bool)
    requires k <= |p| && i <= |p| - k
    ensures match FrontAt(p, k + i, first)
            case Member(item, next) => k <= next && FrontAt(p[k..], i, first) == Member(item, next - k)
            case other => FrontAt(p[k..], i, first) == other
  {
    var q := p[k..];
    assert forall j :: 0 <= j < |q| ==> q[j] == p[k + j];
  }

  ghost predicate Shifted(r: Option<(seq<Item>, nat)>, s: Option<(seq<Item>, nat)>, k: nat) {
    if r.None? then s.None? else s.Some? && s.value == (r.value.0, r.value.1 + k)
  }

  /** What is inside the class a suffix of the mask starts in, its negation aside. */
  function Inside(s: string): string {
    if Negated(s, 0) then s[1..] else s
  }

  lemma ClassShift(p: string, k: nat)
    requires k <= |p|
    ensures var inside := Inside(p[k..]);
            var items := ParseItems(inside, 0, true);
            match ParseClass(p, k)
            case None => items.None?
            case Some((members, next)) =>
              items.Some? && members == Class(Negated(p[k..], 0), items.value.0)
              && next == |p| - (|inside| - items.value.1)
  {
    var start := if Negated(p, k) then k + 1 else k;
    assert Inside(p[k..]) == p[start..];
    ItemsShift(p, start, 0, true);
  }

  datatype RangeMatchResult = RangeMalformed | RangeMismatch | RangeMatched

  /** What the scan of a class reports: the text past it only on a match. */
  function Outcome(inside: string, negate: bool, items: Option<(seq<Item>, nat)>, c: char): (string, RangeMatchResult)
    requires items.Some? ==> items.value.1 <= |inside|
  {
    match items
    case None => ("", RangeMalformed)
    case Some((members, next)) =>
      if Holds(members, c) != negate then (inside[next..], RangeMatched) else ("", RangeMismatch)
  }

  /** Scans the class after an opening bracket for the byte. Whether the class
      is malformed does not depend on the byte. */
  method RangeMatch(p: string, c: char) returns (rest: string, result: RangeMatchResult)
    ensures (rest, result) == Outcome(Inside(p), Negated(p, 0), ParseItems(Inside(p), 0, true), c)
  {
    hide ParseItems, Holds, PrependAll;
    var negate := false;
    var pattern := p;
    if pattern != "" && (pattern[0] == '!' || pattern[0] == '^') {
      pattern := pattern[1..];
      negate := true;
    }
    assert pattern == Inside(p) && negate == Negated(p, 0);
    ghost var all := ParseItems(pattern, 0, true);
    ghost var seen: seq<Item> := [];
    var matched := false;
    var idx: nat := 0;
    PrependNone(all);
    assert !Holds(seen, c) by { HoldsNothing(c); }
    while true
      invariant idx <= |pattern|
      invariant matched == Holds(seen, c)
      invariant all == PrependAll(seen, ParseItems(pattern, idx, idx == 0))
      decreases |pattern| - idx
    {
      ghost var front := FrontAt(pattern, idx, idx == 0);
      ItemsUnfold(pattern, idx, idx == 0);
      PrependEnd(seen, idx + 1);
      var byte := ByteAt(pattern, idx);
      if byte.None? {
        return "", RangeMalformed;
      }
      var escaped := pattern[idx] == '\\';
      var lo := byte.value.0;
      idx := byte.value.1;
      // `FrontAt` reads `Closing` here: something of the class was read before.
      if !escaped && lo == ']' && idx > 1 {
        assert all == Some((seen, idx));
        if matched != negate {
          return pattern[idx..], RangeMatched;
        }
        return "", RangeMismatch;
      }
      var hi := lo;
      if idx < |pattern| && pattern[idx] == '-' && idx + 1 < |pattern| && pattern[idx + 1] != ']' {
        byte := ByteAt(pattern, idx + 1);
        if byte.None? {
          return "", RangeMalformed;
        }
        hi := byte.value.0;
        idx := byte.value.1;
        if lo <= c && c <= hi {
          matched := true;
        }
      } else if lo == c {
        matched := true;
      }
      assert front == Member(Item(lo, hi), idx);
      HoldsOneMore(seen, Item(lo, hi), c);
      PrependAllStep(seen, Item(lo, hi), ParseItems(pattern, idx, false));
      seen := seen + [Item(lo, hi)];
    }
  }

  lemma PrependNone(r: Option<(seq<Item>, nat)>)
    ensures PrependAll([], r) == r
  {
    if r.Some? {
      assert [] + r.value.0 == r.value.0;
    }
  }

  lemma PrependEnd(items: seq<Item>, next: nat)
    ensures PrependAll(items, Some(([], next))) == Some((items, next))
    ensures PrependAll(items, None) == None
  {
    assert items + [] == items;
  }

  lemma PrependAllStep(items: seq<Item>, item: Item, r: Option<(seq<Item>, nat)>)
    ensures PrependAll(items, PrependAll([item], r)) == PrependAll(items + [item], r)
  {
    if r.Some? {
      assert items + ([item] + r.value.0) == (items + [item]) + r.value.0;
    }
  }

  lemma HoldsNothing(c: char)
    ensures !Holds([], c)
  {
  }

  lemma HoldsOneMore(items: seq<Item>, item: Item, c: char)
    ensures Holds(items + [item], c) <==> Holds(items, c) || item.lo <= c <= item.hi
  {
    var more := items + [item];
    if Holds(items, c) {
      var k :| 0 <= k < |items| && items[k].lo <= c <= items[k].hi;
      assert more[k] == items[k];
    }
    if item.lo <= c <= item.hi {
      assert more[|items|] == item;
    }
  }

  // ------------------------------------------------------------------ the scan

  /** Tokens other than a star taking one byte each. */
  predicate TakesAll(tokens: seq<Token>, name: string) {
    |tokens| == |name| && forall k :: 0 <= k < |tokens| ==> Takes(tokens[k], name[k])
  }

  /** A run of single-byte tokens takes exactly its length. */
  lemma {:induction false} MatchesFixed(fixed: seq<Token>, rest: seq<Token>, name: string)
    requires forall k :: 0 <= k < |fixed| ==> !fixed[k].Star?
    ensures Matches(fixed + rest, name) <==>
            |fixed| <= |name| && TakesAll(fixed, name[..|fixed|]) && Matches(rest, name[|fixed|..])
    decreases |fixed|
  {
    if fixed == [] {
      assert fixed + rest == rest;
      assert name[0..] == name;
    } else {
      var tokens := fixed + rest;
      assert tokens[1..] == fixed[1..] + rest;
      if name != "" {
        MatchesFixed(fixed[1..], rest, name[1..]);
        if |fixed| <= |name| {
          assert name[1..][|fixed[1..]|..] == name[|fixed|..];
          var head := name[..|fixed|];
          assert name[1..][..|fixed[1..]|] == head[1..];
          assert TakesAll(fixed, head) <==> Takes(fixed[0], head[0]) && TakesAll(fixed[1..], head[1..]) by {
            if Takes(fixed[0], head[0]) && TakesAll(fixed[1..], head[1..]) {
              forall k | 0 <= k < |fixed| ensures Takes(fixed[k], head[k]) {
                if k > 0 {
                  assert Takes(fixed[1..][k - 1], head[1..][k - 1]);
                }
              }
            }
          }
        }
      }
    }
  }

  /** Whether the tokens match some suffix of the name, which is what a star
      before them asks. */
  predicate MatchesSuffix(tokens: seq<Token>, name: string) {
    exists k :: 0 <= k <= |name| && Matches(tokens, name[k..])
  }

  lemma SuffixUnfold(tokens: seq<Token>, name: string, at: nat)
    requires at < |name|
    ensures MatchesSuffix(tokens, name[at..]) <==>
            Matches(tokens, name[at..]) || MatchesSuffix(tokens, name[at + 1..])
  {
    var here, next := name[at..], name[at + 1..];
    if MatchesSuffix(tokens, here) {
      var k :| 0 <= k <= |here| && Matches(tokens, here[k..]);
      if k == 0 {
        assert here[0..] == here;
      } else {
        assert here[k..] == next[k - 1..];
      }
    }
    if Matches(tokens, here) {
      assert here[0..] == here;
    }
    if MatchesSuffix(tokens, next) {
      var k :| 0 <= k <= |next| && Matches(tokens, next[k..]);
      assert here[k + 1..] == next[k..];
    }
  }

  /** Why one star to come back to is enough: once the tokens between two stars
      took a run of bytes, the earlier star has nothing left to offer. */
  lemma LaterStarSubsumes(fixed: seq<Token>, rest: seq<Token>, name: string)
    requires forall k :: 0 <= k < |fixed| ==> !fixed[k].Star?
    requires |fixed| <= |name| && TakesAll(fixed, name[..|fixed|])
    ensures MatchesSuffix(fixed + ([Star] + rest), name) <==> MatchesSuffix(rest, name[|fixed|..])
  {
    var tokens := fixed + ([Star] + rest);
    var after := name[|fixed|..];
    assert ([Star] + rest)[1..] == rest;
    if MatchesSuffix(rest, after) {
      assert Matches([Star] + rest, after);
      MatchesFixed(fixed, [Star] + rest, name);
      assert name[0..] == name;
    }
    if MatchesSuffix(tokens, name) {
      var k :| 0 <= k <= |name| && Matches(tokens, name[k..]);
      MatchesFixed(fixed, [Star] + rest, name[k..]);
      var tail := name[k..][|fixed|..];
      assert Matches([Star] + rest, tail);
      var m :| 0 <= m <= |tail| && Matches(rest, tail[m..]);
      assert after[k + m..] == tail[m..];
    }
  }

  /** The tokens do not fit in a name shorter than the run they took. */
  lemma NoShorterMatch(fixed: seq<Token>, rest: seq<Token>, name: string)
    requires forall k :: 0 <= k < |fixed| ==> !fixed[k].Star?
    requires |fixed| == |name| && TakesAll(fixed, name)
    ensures MatchesSuffix(fixed + rest, name) <==> Matches(rest, "")
  {
    if MatchesSuffix(fixed + rest, name) {
      var k :| 0 <= k <= |name| && Matches(fixed + rest, name[k..]);
      MatchesFixed(fixed, rest, name[k..]);
      assert k == 0 && name[k..][|fixed|..] == "";
    }
    if Matches(rest, "") {
      MatchesFixed(fixed, rest, name);
      assert name[|fixed|..] == "" && name[..|fixed|] == name && name[0..] == name;
    }
  }

  lemma {:induction false} OnlyStarsMatchNothing(p: string, i: nat)
    requires i <= |p|
    ensures Matches(Tokens(p, i), "") <==> forall k :: i <= k < |p| ==> p[k] == '*'
    decreases |p| - i
  {
    if i < |p| {
      var tokens := Tokens(p, i);
      if p[i] == '*' {
        OnlyStarsMatchNothing(p, i + 1);
        assert tokens[1..] == Tokens(p, i + 1);
        assert tokens[0] == Star;
        if Matches(tokens, "") {
          var k :| 0 <= k <= 0 && Matches(tokens[1..], ""[k..]);
          assert ""[k..] == "";
        } else {
          assert !Matches(tokens[1..], ""[0..]);
          assert ""[0..] == "";
        }
      } else {
        assert !tokens[0].Star?;
      }
    }
  }

  /** Every bracket that starts a token at or past the index is literal. */
  predicate CacheSound(p: string, literalBracketIdx: nat) {
    forall i :: literalBracketIdx <= i < |p| && Boundary(p, 0, i) && p[i] == '[' ==> ParseClass(p, i + 1).None?
  }

  /** Where the scan stands: what is left of the mask and, when a star is behind,
      what follows that star, where it resumed and what was taken since. */
  datatype Scan =
    | Plain(here: seq<Token>, nameIdx: nat)
    | Starred(afterStar: seq<Token>, resumeIdx: nat, fixed: seq<Token>, here: seq<Token>, nameIdx: nat)

  /** What the scan knows: with no star behind it the answer is that of what is
      left, and with one it is whether what follows the star matches some suffix,
      the tokens since the star having taken the bytes since its resume point. */
  ghost predicate Known(goal: bool, name: string, scan: Scan) {
    && scan.nameIdx <= |name|
    && match scan
       case Plain(here, nameIdx) => goal == Matches(here, name[nameIdx..])
       case Starred(afterStar, resumeIdx, fixed, here, nameIdx) =>
         && resumeIdx <= nameIdx
         && (forall k :: 0 <= k < |fixed| ==> !fixed[k].Star?)
         && TakesAll(fixed, name[resumeIdx..nameIdx])
         && afterStar == fixed + here
         && goal == MatchesSuffix(afterStar, name[resumeIdx..])
  }

  function Taken(scan: Scan): Scan
    requires scan.here != []
  {
    match scan
    case Plain(here, nameIdx) => Plain(here[1..], nameIdx + 1)
    case Starred(afterStar, resumeIdx, fixed, here, nameIdx) =>
      Starred(afterStar, resumeIdx, fixed + [here[0]], here[1..], nameIdx + 1)
  }

  /** Taking a byte keeps what is known. */
  lemma Take(goal: bool, name: string, scan: Scan)
    requires Known(goal, name, scan)
    requires scan.here != [] && scan.nameIdx < |name| && Takes(scan.here[0], name[scan.nameIdx])
    ensures Known(goal, name, Taken(scan))
  {
    var here, nameIdx := scan.here, scan.nameIdx;
    match scan
    case Plain(_, _) =>
      assert name[nameIdx..][1..] == name[nameIdx + 1..];
    case Starred(afterStar, resumeIdx, fixed, _, _) =>
      var before, run := name[resumeIdx..nameIdx], name[resumeIdx..nameIdx + 1];
      assert run == before + [name[nameIdx]];
      assert fixed + here == (fixed + [here[0]]) + here[1..];
  }

  /** A new star takes over from the last one. */
  lemma NewStar(goal: bool, name: string, scan: Scan)
    requires Known(goal, name, scan) && scan.here != [] && scan.here[0].Star?
    ensures Known(goal, name, Starred(scan.here[1..], scan.nameIdx, [], scan.here[1..], scan.nameIdx))
  {
    var rest, nameIdx := scan.here[1..], scan.nameIdx;
    assert [] + rest == rest;
    if scan.Starred? {
      var left := name[scan.resumeIdx..];
      var size := |scan.fixed|;
      assert left[..size] == name[scan.resumeIdx..nameIdx] && left[size..] == name[nameIdx..];
      assert scan.here == [Star] + rest;
      LaterStarSubsumes(scan.fixed, rest, left);
    }
  }

  /** Coming back to the last star one byte further on, when what is left cannot match. */
  lemma Backtrack(goal: bool, name: string, scan: Scan)
    requires Known(goal, name, scan) && scan.Starred?
    requires scan.nameIdx < |name| && !Matches(scan.here, name[scan.nameIdx..])
    ensures Known(goal, name, Starred(scan.afterStar, scan.resumeIdx + 1, [], scan.afterStar, scan.resumeIdx + 1))
  {
    var left := name[scan.resumeIdx..];
    var size := |scan.fixed|;
    assert left[..size] == name[scan.resumeIdx..scan.nameIdx] && left[size..] == name[scan.nameIdx..];
    MatchesFixed(scan.fixed, scan.here, left);
    SuffixUnfold(scan.afterStar, name, scan.resumeIdx);
    assert [] + scan.afterStar == scan.afterStar;
  }

  /** At the end of the name only the rest of the mask decides. */
  lemma AtEnd(goal: bool, name: string, scan: Scan)
    requires Known(goal, name, scan) && scan.nameIdx == |name|
    ensures goal == Matches(scan.here, "")
  {
    assert name[|name|..] == "";
    if scan.Starred? {
      assert name[scan.resumeIdx..scan.nameIdx] == name[scan.resumeIdx..];
      NoShorterMatch(scan.fixed, scan.here, name[scan.resumeIdx..]);
    }
  }

  /** The front of what is left of the mask. */
  lemma NextToken(p: string, at: nat)
    requires at < |p| && Boundary(p, 0, at)
    ensures Tokens(p, at) != [] && Tokens(p, at)[0] == TokenAt(p, at).0
    ensures Tokens(p, at)[1..] == Tokens(p, TokenAt(p, at).1)
    ensures Boundary(p, 0, TokenAt(p, at).1)
  {
    BoundaryStep(p, 0, at);
  }

  lemma Stuck(here: seq<Token>, name: string, nameIdx: nat)
    requires nameIdx < |name|
    requires here == [] || (!here[0].Star? && !Takes(here[0], name[nameIdx]))
    ensures !Matches(here, name[nameIdx..])
  {
  }

  lemma NoTokens(p: string)
    ensures Tokens(p, |p|) == []
  {
  }

  lemma GiveUp(goal: bool, name: string, scan: Scan)
    requires Known(goal, name, scan) && scan.Plain? && !Matches(scan.here, name[scan.nameIdx..])
    ensures !goal
  {
  }

  lemma CacheStep(p: string, at: nat)
    requires at < |p| && p[at] == '[' && Boundary(p, 0, at) && ParseClass(p, at + 1).None?
    ensures CacheSound(p, at)
  {
    forall i | at <= i < |p| && Boundary(p, 0, i) && p[i] == '['
      ensures ParseClass(p, i + 1).None?
    {
      BoundaryOrder(p, 0, at, i);
      LaterBracketsAreLiteral(p, at, i);
    }
  }

  lemma CacheUse(p: string, literalBracketIdx: nat, at: nat)
    requires CacheSound(p, literalBracketIdx) && literalBracketIdx <= at < |p|
    requires Boundary(p, 0, at) && p[at] == '['
    ensures ParseClass(p, at + 1).None?
  {
  }

  lemma Start(p: string, name: string)
    ensures Known(Matches(Tokens(p, 0), name), name, Plain(Tokens(p, 0), 0))
    ensures Boundary(p, 0, 0) && CacheSound(p, |p|)
  {
    assert name[0..] == name;
  }

  /** The scan of a name against a mask, backtracking to the last star only. */
  method MatchIfMask(pattern: string, name: string) returns (r: bool)
    ensures r == Matches(Tokens(pattern, 0), name)
  {
    hide Tokens, Boundary, Known, Matches, ParseClass, ParseItems, CacheSound, Takes, TokenAt, Outcome;
    var patternIdx: nat, nameIdx: nat := 0, 0;
    var starIdx, resumeIdx := -1, -1;
    var literalBracketIdx: nat := |pattern|;
    ghost var goal := Matches(Tokens(pattern, 0), name);
    ghost var scan := Plain(Tokens(pattern, 0), 0);
    Start(pattern, name);
    while nameIdx < |name|
      invariant patternIdx <= |pattern| && nameIdx <= |name| && Boundary(pattern, 0, patternIdx)
      invariant -1 <= resumeIdx <= nameIdx
      invariant Known(goal, name, scan)
      invariant scan.here == Tokens(pattern, patternIdx) && scan.nameIdx == nameIdx
      invariant starIdx == -1 <==> scan.Plain?
      invariant starIdx != -1 ==>
        && 0 <= starIdx < |pattern| && Boundary(pattern, 0, starIdx + 1)
        && scan.resumeIdx == resumeIdx && scan.afterStar == Tokens(pattern, starIdx + 1)
      invariant CacheSound(pattern, literalBracketIdx)
      decreases |name| - resumeIdx, |pattern| - patternIdx
    {
      ghost var at := patternIdx;
      if patternIdx < |pattern| {
        NextToken(pattern, at);
        TokenCases(pattern, at, name[nameIdx]);
        match pattern[patternIdx]
        case '?' =>
          Take(goal, name, scan);
          scan := Taken(scan);
          patternIdx := patternIdx + 1;
          nameIdx := nameIdx + 1;
          continue;
        case '*' =>
          NewStar(goal, name, scan);
          scan := Starred(scan.here[1..], nameIdx, [], scan.here[1..], nameIdx);
          starIdx, resumeIdx := patternIdx, nameIdx;
          patternIdx := patternIdx + 1;
          continue;
        case '[' =>
          var mismatch := false;
          if patternIdx < literalBracketIdx {
            var rest, result := RangeMatch(pattern[patternIdx + 1..], name[nameIdx]);
            ClassOutcome(pattern, at, name[nameIdx], rest, result);
            if result == RangeMatched {
              Take(goal, name, scan);
              scan := Taken(scan);
              patternIdx := |pattern| - |rest|;
              nameIdx := nameIdx + 1;
              continue;
            }
            if result == RangeMismatch {
              mismatch := true;
            } else {
              // `CacheSound` holds of this index by LaterBracketsAreLiteral.
              CacheStep(pattern, at);
              literalBracketIdx := patternIdx;
            }
          } else {
            CacheUse(pattern, literalBracketIdx, at);
          }
          if !mismatch && name[nameIdx] == '[' {
            Take(goal, name, scan);
            scan := Taken(scan);
            patternIdx := patternIdx + 1;
            nameIdx := nameIdx + 1;
            continue;
          }
        case '\\' =>
          patternIdx := patternIdx + 1;
          if patternIdx == |pattern| {
            if name[nameIdx] == '\\' {
              Take(goal, name, scan);
              scan := Taken(scan);
              nameIdx := nameIdx + 1;
              continue;
            }
          } else if pattern[patternIdx] == name[nameIdx] {
            Take(goal, name, scan);
            scan := Taken(scan);
            patternIdx := patternIdx + 1;
            nameIdx := nameIdx + 1;
            continue;
          }
        case c =>
          if c == name[nameIdx] {
            Take(goal, name, scan);
            scan := Taken(scan);
            patternIdx := patternIdx + 1;
            nameIdx := nameIdx + 1;
            continue;
          }
      }
      if at == |pattern| {
        assert Tokens(pattern, at) == [] by { NoTokens(pattern); }
      }
      Stuck(scan.here, name, nameIdx);
      if starIdx < 0 {
        assert !goal by { GiveUp(goal, name, scan); }
        return false;
      }
      Backtrack(goal, name, scan);
      scan := Starred(scan.afterStar, scan.resumeIdx + 1, [], scan.afterStar, scan.resumeIdx + 1);
      patternIdx := starIdx + 1;
      resumeIdx := resumeIdx + 1;
      nameIdx := resumeIdx;
    }
    AtEnd(goal, name, scan);
    OnlyStarsMatchNothing(pattern, patternIdx);
    ghost var left := patternIdx;
    while patternIdx < |pattern| && pattern[patternIdx] == '*'
      invariant left <= patternIdx <= |pattern|
      invariant forall k :: left <= k < patternIdx ==> pattern[k] == '*'
    {
      patternIdx := patternIdx + 1;
    }
    return patternIdx == |pattern|;
  }

  /** What the scan reads off the byte of the mask it stands at, a bracket aside. */
  lemma TokenCases(p: string, at: nat, c: char)
    requires at < |p|
    ensures var (t, next) := TokenAt(p, at);
            match p[at]
            case '?' => Takes(t, c) && next == at + 1
            case '*' => t.Star? && next == at + 1
            case '\\' => !t.Star? && (Takes(t, c) <==> c == p[if at + 1 == |p| then at else at + 1])
                         && next == if at + 1 == |p| then at + 1 else at + 2
            case '[' => !t.Star? && (ParseClass(p, at + 1).None? ==> next == at + 1 && (Takes(t, c) <==> c == '['))
            case other => !t.Star? && (Takes(t, c) <==> c == other) && next == at + 1
  {
  }

  /** A class takes the byte its scan reports. */
  lemma ClassOutcome(p: string, at: nat, c: char, rest: string, result: RangeMatchResult)
    requires at < |p| && p[at] == '['
    requires var s := p[at + 1..];
             (rest, result) == Outcome(Inside(s), Negated(s, 0), ParseItems(Inside(s), 0, true), c)
    ensures result == RangeMalformed <==> ParseClass(p, at + 1).None?
    ensures result == RangeMatched ==> Takes(TokenAt(p, at).0, c) && TokenAt(p, at).1 == |p| - |rest|
    ensures result == RangeMismatch ==> !Takes(TokenAt(p, at).0, c)
  {
    ClassShift(p, at + 1);
  }
}
