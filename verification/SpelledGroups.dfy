/**
 How the text of a group is made up (lex.go), byte by byte: the white space, the
 separators and the braces, and what follows an element of one.
 */
module SpelledGroups {
  import opened Ipfw
  import opened Lex

  /** The white space of a line: a space, a tab, a carriage return or a form feed. */
  predicate Gap(t: string) {
    forall k :: 0 <= k < |t| ==> t[k] == ' ' || t[k] == '\t' || t[k] == '\r' || t[k] == '\U{0C}'
  }

  /** The white space that ends a token: of a line, or its end. */
  predicate Blank(c: char) {
    c == ' ' || c == '\t' || c == '\r' || c == '\U{0C}' || c == '\n'
  }

  /** The spaces and tabs that stand behind a keyword. */
  predicate Spaces(t: string) {
    forall k :: 0 <= k < |t| ==> t[k] == ' ' || t[k] == '\t'
  }

  /** A separator: `or` anywhere, its short form `o` before the options and `|` among them. */
  predicate IsSeparator(t: string, position: Position) {
    match position
    case HeaderPosition => t == "or" || t == "o"
    case TrailingPosition => t == "or" || t == "|"
  }

  /** A text that does not start with the white space of a line. */
  predicate Begins(t: string) {
    t == "" || (t[0] != ' ' && t[0] != '\t' && t[0] != '\r' && t[0] != '\U{0C}')
  }

  /** What stands between two elements of a group. */
  datatype Joint = Joint(before: string, separator: string, behind: string)

  predicate IsJoint(j: Joint, position: Position) {
    Gap(j.before) && IsSeparator(j.separator, position) && Gap(j.behind) && j.behind != ""
  }

  /** Behind an element in braces, a separator and white space lead to the next. */
  lemma GroupGoesOn(position: Position, before: string, separator: string, behind: string, next: string)
    requires Gap(before) && IsSeparator(separator, position) && Gap(behind) && behind != "" && Begins(next)
    ensures Next(Group(true, position), before + separator + behind + next) == More(next)
  {
    hide Separator, Next, IsLineSpace;
    GapIsLineSpace(before);
    GapIsLineSpace(behind);
    BeginsNoLineSpace(next);
    var g := Group(true, position);
    assert before + separator + behind + next == before + separator + (behind + next);
    SeparatorEnds(behind, next);
    SeparatorGoesOn(g, before, separator, behind + next);
    RunOf(behind, next, IsLineSpace);
  }

  /** A brace behind an element ends the group. */
  lemma GroupCloses(position: Position, before: string, rest: string)
    requires Gap(before)
    ensures Next(Group(true, position), before + "}" + rest) == End(rest)
  {
    hide IsLineSpace;
    GapIsLineSpace(before);
    BeginsNoLineSpace("}" + rest);
    assert before + "}" + rest == before + ("}" + rest);
    RunOf(before, "}" + rest, IsLineSpace);
    assert ("}" + rest)[1..] == rest;
  }

  /** Without braces an element stands alone. */
  lemma AloneEnds(position: Position, rest: string)
    ensures Next(Group(false, position), rest) == End(rest)
  {
  }

  /** Anything else behind an element is refused, white space aside. */
  lemma GroupWantsOr(position: Position, before: string, at: string)
    requires Gap(before) && Begins(at) && !("}" <= at)
    requires !(exists n :: 0 < n <= 2 && n <= |at| && IsSeparator(at[..n], position) && (n == |at| || Blank(at[n])))
    ensures Next(Group(true, position), before + at) == Missing(at)
  {
    hide Run, Gap;
    GapIsLineSpace(before);
    BeginsNoLineSpace(at);
    RunOf(before, at, IsLineSpace);
    assert "or" <= at ==> at[..2] == "or" && (|at| > 2 ==> at[2..][0] == at[2]);
    assert Alias(position) <= at ==> at[..1] == Alias(position) && (|at| > 1 ==> at[1..][0] == at[1]);
  }

  /** A group opens with a brace, and white space behind it is skipped. */
  lemma GroupOpens(position: Position, behind: string, next: string)
    requires Gap(behind) && Begins(next)
    ensures OpenGroup("{" + behind + next, position) == (Group(true, position), next)
  {
    hide IsLineSpace;
    GapIsLineSpace(behind);
    BeginsNoLineSpace(next);
    assert ("{" + behind + next)[1..] == behind + next;
    RunOf(behind, next, IsLineSpace);
  }

  lemma NothingOpens(position: Position, s: string)
    requires !("{" <= s)
    ensures OpenGroup(s, position) == (Group(false, position), s)
  {
  }

  lemma GapIsLineSpace(t: string)
    requires Gap(t)
    ensures All(t, IsLineSpace)
  {
  }

  lemma BeginsNoLineSpace(t: string)
    ensures Begins(t) <==> t == "" || !IsLineSpace(t[0])
  {
  }

  lemma SeparatorEnds(behind: string, next: string)
    requires Gap(behind) && behind != ""
    ensures AtTokenEnd(behind + next)
  {
  }

/** What a comma takes: the white space of a line, and vertical tabs. */
  predicate CommaGap(t: string) {
    forall k :: 0 <= k < |t| ==> t[k] == ' ' || t[k] == '\t' || t[k] == '\r' || t[k] == '\U{0B}' || t[k] == '\U{0C}'
  }

  predicate NotTaken(next: string) {
    next == "" || (next[0] != ' ' && next[0] != '\t' && next[0] != '\r' && next[0] != '\U{0B}' && next[0] != '\U{0C}')
  }

  lemma NoComma(rest: string)
    requires !("," <= rest)
    ensures AfterComma(rest).None?
  {
  }

  /** A comma takes the white space behind it, and no more. */
  lemma CommaTakes(gap: string, next: string)
    requires CommaGap(gap) && NotTaken(next)
    ensures AfterComma("," + (gap + next)) == Some(next)
  {
    assert All(gap, IsCommaSpace);
    RunOf(gap, next, IsCommaSpace);
    assert ("," + (gap + next))[1..] == gap + next;
  }

  /** A negation and the spaces behind it, or nothing. */
  predicate IsNot(t: string) {
    t == "" || (|t| > 3 && t[0] == 'n' && t[1] == 'o' && t[2] == 't' && Spaces(t[3..]))
  }

  /** A `not` needs white space behind it, all of which it takes. */
  lemma NotIsRead(spaces: string, next: string)
    requires spaces != "" && Spaces(spaces) && (next == "" || (next[0] != ' ' && next[0] != '\t'))
    ensures NotWS1("not" + spaces + next) == (next, true)
  {
    assert ("not" + spaces + next)[3..] == spaces + next;
    assert All(spaces, IsWS);
    RunOf(spaces, next, IsWS);
  }

  lemma NoNotIsRead(s: string)
    requires !("not" <= s && |s| > 3 && (s[3] == ' ' || s[3] == '\t'))
    ensures NotWS1(s) == (s, false)
  {
  }

  // ------------------------------------------------------------- what a state takes

  /** A state takes so many of some tokens handed to it in turn, and refuses the next. */
  ghost predicate TakesUpTo<T(!new)>(refuses: (seq<T>, T) -> bool, tokens: seq<T>, more: seq<T>, k: nat) {
    && k <= |more|
    && (forall j :: 0 <= j < k ==> !refuses(tokens + more[..j], more[j]))
    && (k < |more| ==> refuses(tokens + more[..k], more[k]))
  }

  lemma TakesFirst<T(!new)>(refuses: (seq<T>, T) -> bool, tokens: seq<T>, more: seq<T>, k: nat)
    requires more != [] && TakesUpTo(refuses, tokens, more, k)
    ensures refuses(tokens, more[0]) <==> k == 0
    ensures k > 0 ==> TakesUpTo(refuses, tokens + [more[0]], more[1..], k - 1)
  {
    assert tokens + more[..0] == tokens;
    forall j | 0 <= j < |more| ensures tokens + [more[0]] + more[1..][..j] == tokens + more[..j + 1] {
      OneLater(tokens, more, j);
    }
  }

  lemma OneLater<T>(tokens: seq<T>, more: seq<T>, j: nat)
    requires j < |more|
    ensures tokens + [more[0]] + more[1..][..j] == tokens + more[..j + 1]
  {
    assert [more[0]] + more[1..][..j] == more[..j + 1];
  }

  /** There is always such a number. */
  lemma {:induction false} SomeAreTaken<T(!new)>(refuses: (seq<T>, T) -> bool, tokens: seq<T>, more: seq<T>) returns (k: nat)
    ensures TakesUpTo(refuses, tokens, more, k)
    decreases |more|
  {
    k := 0;
    assert more != [] ==> tokens + more[..0] == tokens;
    if more != [] && !refuses(tokens, more[0]) {
      var n := SomeAreTaken(refuses, tokens + [more[0]], more[1..]);
      k := n + 1;
      forall j | 0 <= j < k ensures !refuses(tokens + more[..j], more[j]) {
        if j > 0 {
          OneLater(tokens, more, j - 1);
          assert more[1..][j - 1] == more[j];
        }
      }
      OneLater(tokens, more, n);
      assert k < |more| ==> more[1..][n] == more[k];
    }
  }

  lemma HasTaken<T(!new)>(refuses: (seq<T>, T) -> bool, tokens: seq<T>, ms: seq<T>, k: nat)
    requires TakesUpTo(refuses, tokens, ms, k)
    ensures k <= |ms|
  {
  }

  lemma LaterOnes<T>(tokens: seq<T>, ms: seq<T>, k: nat)
    requires 0 < k <= |ms|
    ensures tokens + [ms[0]] + ms[1..][..k - 1] == tokens + ms[..k] && tokens + [ms[0]] + ms[1..] == tokens + ms
  {
  }
}
