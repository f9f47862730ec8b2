/**
 What the evaluation order of `Semantics` comes to: the plain logic of patterns,
 or-blocks and negations, which comments decide nothing, and how far a check runs.
 */
module Meaning {
  import opened Ipfw
  import opened Semantics

  // ----------------------------------------------------------------- addresses

  /** The targets of a pattern stand together under one negation. */
  ghost predicate WellPatterned(targets: seq<TargetMatch>) {
    && (forall i, j, k :: 0 <= i < j < k < |targets| && targets[i].pattern == targets[k].pattern
          ==> targets[j].pattern == targets[i].pattern)
    && (forall i, j :: 0 <= i < j < |targets| && targets[i].pattern == targets[j].pattern
          ==> targets[i].neg == targets[j].neg)
  }

  /** Whether some member of the pattern of target `a` holds the address. */
  ghost predicate SomeMember(ck: Check, targets: seq<TargetMatch>, a: nat, addr: Addr)
    requires a < |targets|
  {
    exists m :: 0 <= m < |targets| && targets[m].pattern == targets[a].pattern
                && MemberSeen(ck, targets[m].member, addr).holds
  }

  lemma {:induction false} AnyMeaning(ck: Check, targets: seq<TargetMatch>, i: nat, p: uint16, addr: Addr)
    requires i <= |targets|
    ensures AnySeen(ck, targets, i, p, addr).holds <==>
            exists m :: i <= m < PatternEnd(targets, i, p) && MemberSeen(ck, targets[m].member, addr).holds
    decreases |targets| - i
  {
    if i < |targets| && targets[i].pattern == p {
      AnyMeaning(ck, targets, i + 1, p, addr);
    }
  }

  /** The scan order is forgotten: some pattern has a member that holds, or has none and
      is negated. */
  lemma {:induction false} SideMeaning(ck: Check, targets: seq<TargetMatch>, addr: Addr)
    requires WellPatterned(targets)
    ensures SideSeen(ck, targets, 0, addr).holds <==>
            exists a :: 0 <= a < |targets| && SomeMember(ck, targets, a, addr) != targets[a].neg
  {
    SideMeaningFrom(ck, targets, 0, addr);
  }

  lemma {:induction false} SideMeaningFrom(ck: Check, targets: seq<TargetMatch>, i: nat, addr: Addr)
    requires WellPatterned(targets) && i <= |targets|
    requires 0 < i < |targets| ==> targets[i - 1].pattern != targets[i].pattern
    ensures SideSeen(ck, targets, i, addr).holds <==>
            exists a :: i <= a < |targets| && SomeMember(ck, targets, a, addr) != targets[a].neg
    decreases |targets| - i
  {
    hide AnySeen, SomeMember, WellPatterned;
    if i < |targets| {
      var p := targets[i].pattern;
      var end := PatternEnd(targets, i, p);
      assert end < |targets| ==> targets[end - 1].pattern != targets[end].pattern;
      SideMeaningFrom(ck, targets, end, addr);
      forall a: nat | i <= a < end
        ensures SomeMember(ck, targets, a, addr) == AnySeen(ck, targets, i, p, addr).holds && targets[a].neg == targets[i].neg
      {
        RunMeaning(ck, targets, i, a, addr);
      }
      assert SomeMember(ck, targets, i, addr) == AnySeen(ck, targets, i, p, addr).holds;
    }
  }

  /** Every member of a run tells whether its pattern has one that holds. */
  lemma RunMeaning(ck: Check, targets: seq<TargetMatch>, i: nat, a: nat, addr: Addr)
    requires WellPatterned(targets) && i <= a < |targets| && a < PatternEnd(targets, i, targets[i].pattern)
    requires 0 < i ==> targets[i - 1].pattern != targets[i].pattern
    ensures SomeMember(ck, targets, a, addr) == AnySeen(ck, targets, i, targets[i].pattern, addr).holds
    ensures targets[a].neg == targets[i].neg
  {
    hide AnySeen, MemberSeen;
    var p := targets[i].pattern;
    var end := PatternEnd(targets, i, p);
    AnyMeaning(ck, targets, i, p, addr);
    forall m | 0 <= m < i ensures targets[m].pattern != p {
      assert targets[i - 1].pattern != p;
    }
    forall m | end <= m < |targets| ensures targets[m].pattern != p {
      assert targets[end].pattern != p;
    }
  }

  /** Under one negation a list of ports holds exactly when some range holds the
      port, its negation aside. */
  lemma PortsMeaning(matches: seq<PortNumberMatch>, port: uint16)
    requires matches != [] && forall k :: 0 <= k < |matches| ==> matches[k].neg == matches[0].neg
    ensures PortsHold(matches, port) <==>
            (exists k :: 0 <= k < |matches| && InPorts(matches[k], port)) != matches[0].neg
  {
  }

  // ------------------------------------------------------------------- options

  /** Neither a block nor a pattern is interrupted, and a pattern has one sign. */
  ghost predicate WellPlaced(opts: seq<Opt>) {
    && ContiguousBlocks(opts)
    && (forall i, j, k :: 0 <= i < j < k < |opts| && SamePattern(opts[i], opts[k]) ==> SamePattern(opts[i], opts[j]))
    && (forall i, j :: 0 <= i < j < |opts| && SamePattern(opts[i], opts[j]) ==> opts[i].neg == opts[j].neg)
  }

  ghost predicate ContiguousBlocks(opts: seq<Opt>) {
    forall i, j, k :: 0 <= i < j < k < |opts| && opts[i].block == opts[k].block ==> opts[j].block == opts[i].block
  }

  predicate SamePattern(a: Opt, b: Opt) {
    a.block == b.block && a.pattern == b.pattern
  }

  ghost predicate PatternHolds(ck: Check, opts: seq<Opt>, c: nat)
    requires c < |opts|
  {
    (exists m :: 0 <= m < |opts| && SamePattern(opts[c], opts[m]) && OptionSeen(ck, opts[m]).holds) != opts[c].neg
  }

  ghost predicate BlockHolds(ck: Check, opts: seq<Opt>, a: nat)
    requires a < |opts|
  {
    exists c :: 0 <= c < |opts| && opts[c].block == opts[a].block && PatternHolds(ck, opts, c)
  }

  lemma {:induction false} AnyOptionMeaning(ck: Check, opts: seq<Opt>, i: nat, b: uint16, p: uint16)
    requires i <= |opts|
    ensures AnyOption(ck, opts, i, b, p).holds <==>
            exists m :: i <= m < OptPatternEnd(opts, i, b, p) && OptionSeen(ck, opts[m]).holds
    decreases |opts| - i
  {
    if i < |opts| && InPattern(opts[i], b, p) {
      AnyOptionMeaning(ck, opts, i + 1, b, p);
    }
  }

  lemma {:induction false} BlockMeaning(ck: Check, opts: seq<Opt>, i: nat, b: uint16)
    requires WellPlaced(opts) && i <= |opts|
    requires 0 < i < |opts| ==> !SamePattern(opts[i - 1], opts[i])
    ensures BlockSeen(ck, opts, i, b).holds <==>
            exists c :: i <= c < BlockEnd(opts, i, b) && PatternHolds(ck, opts, c)
    decreases |opts| - i
  {
    hide AnyOption, PatternHolds, WellPlaced;
    if i < |opts| && opts[i].block == b {
      var end := OptPatternEnd(opts, i, b, opts[i].pattern);
      PatternEnds(opts, i);
      BlockMeaning(ck, opts, end, b);
      SameBlockEnd(opts, i, end, b);
      PatternMeaning(ck, opts, i);
      hide OptPatternEnd, BlockEnd;
      var stop := BlockEnd(opts, i, b);
      if exists c :: i <= c < stop && PatternHolds(ck, opts, c) {
        var c :| i <= c < stop && PatternHolds(ck, opts, c);
        assert c < end || BlockSeen(ck, opts, end, b).holds;
      }
      if AnyOption(ck, opts, i, b, opts[i].pattern).holds != opts[i].neg {
        assert PatternHolds(ck, opts, i);
      }
    }
  }

  lemma PatternEnds(opts: seq<Opt>, i: nat)
    requires i < |opts|
    ensures var end := OptPatternEnd(opts, i, opts[i].block, opts[i].pattern);
            i < end && (end < |opts| ==> !SamePattern(opts[end - 1], opts[end]))
  {
  }

  /** Every member of a pattern tells whether the pattern holds. */
  lemma PatternMeaning(ck: Check, opts: seq<Opt>, i: nat)
    requires WellPlaced(opts) && i < |opts| && (0 < i ==> !SamePattern(opts[i - 1], opts[i]))
    ensures var b, p := opts[i].block, opts[i].pattern;
            forall c :: i <= c < OptPatternEnd(opts, i, b, p) ==>
              (PatternHolds(ck, opts, c) <==> AnyOption(ck, opts, i, b, p).holds != opts[i].neg)
  {
    AnyOptionMeaning(ck, opts, i, opts[i].block, opts[i].pattern);
    forall c | i <= c < OptPatternEnd(opts, i, opts[i].block, opts[i].pattern)
      ensures PatternHolds(ck, opts, c) <==>
              AnyOption(ck, opts, i, opts[i].block, opts[i].pattern).holds != opts[i].neg
    {
      PatternRun(opts, i, c);
    }
  }

  /** Membership in a pattern is lying in the run that starts there. */
  lemma PatternRun(opts: seq<Opt>, i: nat, c: nat)
    requires WellPlaced(opts) && i < |opts| && i <= c < OptPatternEnd(opts, i, opts[i].block, opts[i].pattern)
    requires 0 < i ==> !SamePattern(opts[i - 1], opts[i])
    ensures opts[c].neg == opts[i].neg
    ensures forall m :: 0 <= m < |opts| ==>
      (SamePattern(opts[c], opts[m]) <==> i <= m < OptPatternEnd(opts, i, opts[i].block, opts[i].pattern))
  {
    var end := OptPatternEnd(opts, i, opts[i].block, opts[i].pattern);
    forall m | 0 <= m < i ensures !SamePattern(opts[m], opts[i]) {
      assert !SamePattern(opts[i - 1], opts[i]);
    }
    forall m | end <= m < |opts| ensures !SamePattern(opts[i], opts[m]) {
      assert !SamePattern(opts[i], opts[end]);
    }
    assert SamePattern(opts[i], opts[c]) && (i < c ==> opts[i].neg == opts[c].neg);
  }

  /** Options hold exactly when every block has a pattern that does: one with a
      member that holds, or, negated, with none. */
  lemma {:induction false} OptionsMeaning(ck: Check, opts: seq<Opt>)
    requires WellPlaced(opts)
    ensures OptionsSeen(ck, opts, 0).holds <==> forall a :: 0 <= a < |opts| ==> BlockHolds(ck, opts, a)
  {
    OptionsMeaningFrom(ck, opts, 0);
  }

  lemma {:induction false} OptionsMeaningFrom(ck: Check, opts: seq<Opt>, i: nat)
    requires WellPlaced(opts) && i <= |opts|
    requires 0 < i < |opts| ==> opts[i - 1].block != opts[i].block
    ensures OptionsSeen(ck, opts, i).holds <==> forall a :: i <= a < |opts| ==> BlockHolds(ck, opts, a)
    decreases |opts| - i
  {
    if i < |opts| {
      var b := opts[i].block;
      var end := BlockEnd(opts, i, b);
      BlockMeaning(ck, opts, i, b);
      OptionsMeaningFrom(ck, opts, end);
      BlockRun(opts, i);
      assert BlockEnd(opts, i, b) == end;
      if BlockSeen(ck, opts, i, b).holds {
        var c :| i <= c < end && PatternHolds(ck, opts, c);
        assert forall a :: i <= a < end ==> BlockHolds(ck, opts, a);
      } else {
        assert !BlockHolds(ck, opts, i);
      }
    }
  }

  /** Membership in a block is lying in the run that starts there. */
  lemma BlockRun(opts: seq<Opt>, i: nat)
    requires ContiguousBlocks(opts) && i < |opts| && (0 < i ==> opts[i - 1].block != opts[i].block)
    ensures forall c :: 0 <= c < |opts| ==> (opts[c].block == opts[i].block <==> i <= c < BlockEnd(opts, i, opts[i].block))
  {
    var end := BlockEnd(opts, i, opts[i].block);
    forall c | 0 <= c < i ensures opts[c].block != opts[i].block {
      assert opts[i - 1].block != opts[i].block;
    }
    forall c | end <= c < |opts| ensures opts[c].block != opts[i].block {
      assert opts[end].block != opts[i].block;
    }
  }

  // ------------------------------------------------------------------ comments

  /** An option that is a whole block. */
  predicate Alone(opts: seq<Opt>, k: nat)
    requires k < |opts|
  {
    && (k == 0 || opts[k - 1].block != opts[k].block)
    && (k + 1 == |opts| || opts[k + 1].block != opts[k].block)
  }

  /** A comment that decides nothing. */
  predicate Idle(opts: seq<Opt>, k: nat)
    requires k < |opts|
  {
    opts[k].kind == OptComment && !opts[k].neg && Alone(opts, k)
  }

  /** The options without idle comments, up to an index. */
  function Kept(opts: seq<Opt>, n: nat): (r: seq<Opt>)
    requires n <= |opts|
    ensures |r| <= n
  {
    if n == 0 then [] else Kept(opts, n - 1) + (if Idle(opts, n - 1) then [] else [opts[n - 1]])
  }

  /** The same from an index on. */
  ghost function KeptFrom(opts: seq<Opt>, i: nat): seq<Opt>
    requires i <= |opts|
    decreases |opts| - i
  {
    if i == |opts| then [] else (if Idle(opts, i) then [] else [opts[i]]) + KeptFrom(opts, i + 1)
  }

  lemma KeptNone(opts: seq<Opt>)
    ensures KeptFrom(opts, |opts|) == []
  {
  }

  lemma {:induction false} KeptSplit(opts: seq<Opt>, n: nat)
    requires n <= |opts|
    ensures Kept(opts, n) + KeptFrom(opts, n) == KeptFrom(opts, 0)
  {
    if n > 0 {
      KeptSplit(opts, n - 1);
    }
  }

  /** Two lists that agree on a run of `n` options of a block, which ends there in both. */
  ghost predicate SameRun(u: seq<Opt>, i: nat, v: seq<Opt>, j: nat, n: nat, b: uint16) {
    && i + n <= |u| && j + n <= |v|
    && (forall k :: i <= k < i + n ==> u[k].block == b && u[k] == v[k - i + j])
    && (i + n < |u| ==> u[i + n].block != b) && (j + n < |v| ==> v[j + n].block != b)
  }

  lemma {:induction false} SamePatternSeen(ck: Check, u: seq<Opt>, i: nat, v: seq<Opt>, j: nat, n: nat, b: uint16, p: uint16)
    requires SameRun(u, i, v, j, n, b)
    ensures AnyOption(ck, u, i, b, p) == AnyOption(ck, v, j, b, p)
    ensures OptPatternEnd(u, i, b, p) - i == OptPatternEnd(v, j, b, p) - j <= n
    decreases n
  {
    if n > 0 {
      assert u[i] == v[j];
      if InPattern(u[i], b, p) {
        SamePatternSeen(ck, u, i + 1, v, j + 1, n - 1, b, p);
      }
    }
  }

  lemma {:induction false} BlockEndIs(u: seq<Opt>, i: nat, n: nat, b: uint16)
    requires i + n <= |u| && (forall k :: i <= k < i + n ==> u[k].block == b) && (i + n < |u| ==> u[i + n].block != b)
    ensures BlockEnd(u, i, b) == i + n
    decreases n
  {
    if n > 0 {
      BlockEndIs(u, i + 1, n - 1, b);
    }
  }

  lemma SameFront(u: seq<Opt>, i: nat, v: seq<Opt>, j: nat, n: nat, b: uint16)
    requires SameRun(u, i, v, j, n, b)
    ensures i + n <= |u| && j + n <= |v|
    ensures if n > 0 then u[i] == v[j] && u[i].block == b
            else (i < |u| ==> u[i].block != b) && (j < |v| ==> v[j].block != b)
  {
  }

  lemma RunGoesOn(u: seq<Opt>, i: nat, v: seq<Opt>, j: nat, n: nat, b: uint16, size: nat)
    requires SameRun(u, i, v, j, n, b) && size <= n
    ensures SameRun(u, i + size, v, j + size, n - size, b)
  {
  }

  /** A block is seen the same in both. */
  lemma {:induction false} SameBlockSeen(ck: Check, u: seq<Opt>, i: nat, v: seq<Opt>, j: nat, n: nat, b: uint16)
    requires SameRun(u, i, v, j, n, b)
    ensures BlockSeen(ck, u, i, b) == BlockSeen(ck, v, j, b)
    decreases n
  {
    hide AnyOption, OptPatternEnd, SameRun;
    SameFront(u, i, v, j, n, b);
    if n > 0 {
      var p := u[i].pattern;
      SamePatternSeen(ck, u, i, v, j, n, b, p);
      var size := OptPatternEnd(u, i, b, p) - i;
      RunGoesOn(u, i, v, j, n, b, size);
      SameBlockSeen(ck, u, i + size, v, j + size, n - size, b);
    }
  }

  /** What is seen of options whose first block two lists share. */
  lemma SameFirstBlock(ck: Check, u: seq<Opt>, i: nat, v: seq<Opt>, j: nat, n: nat)
    requires 0 < n && i < |u| && SameRun(u, i, v, j, n, u[i].block)
    requires OptionsSeen(ck, u, i + n) == OptionsSeen(ck, v, j + n)
    ensures OptionsSeen(ck, u, i) == OptionsSeen(ck, v, j)
  {
    hide BlockSeen, BlockEnd;
    var b := u[i].block;
    assert u[i] == v[j];
    SameBlockSeen(ck, u, i, v, j, n, b);
    BlockEndIs(u, i, n, b);
    assert forall k :: j <= k < j + n ==> v[k] == u[k - j + i];
    BlockEndIs(v, j, n, b);
  }

  lemma NothingLeft(ck: Check, opts: seq<Opt>)
    ensures OptionsSeen(ck, opts, |opts|) == Seen(true, [])
  {
  }

  lemma RunShift(before: seq<Opt>, opts: seq<Opt>, i: nat, n: nat)
    requires i < |opts| && i + n == BlockEnd(opts, i, opts[i].block)
    ensures SameRun(opts, i, before + opts, |before| + i, n, opts[i].block)
  {
    hide BlockEnd;
    var all, at := before + opts, |before| + i;
    assert all[at..] == opts[i..];
    assert forall k :: i <= k < |opts| ==> opts[k] == all[k - i + at];
    assert |all| - at == |opts| - i;
  }

  /** Options evaluate from where they start, whatever stands before. */
  lemma {:induction false} OptionsShift(ck: Check, before: seq<Opt>, opts: seq<Opt>, i: nat)
    requires i <= |opts|
    ensures OptionsSeen(ck, before + opts, |before| + i) == OptionsSeen(ck, opts, i)
    decreases |opts| - i
  {
    hide BlockSeen, OptionsSeen, BlockEnd, SameRun;
    var all, at := before + opts, |before| + i;
    if i == |opts| {
      NothingLeft(ck, opts);
      NothingLeft(ck, all);
    } else {
      var n := BlockEnd(opts, i, opts[i].block) - i;
      OptionsShift(ck, before, opts, i + n);
      RunShift(before, opts, i, n);
      SameFirstBlock(ck, opts, i, all, at, n);
    }
  }

  /** Dropping idle comments changes neither whether the options
      hold nor which lookups they make, the options of a block being contiguous. */
  lemma {:induction false} DroppingCommentsIsSound(ck: Check, opts: seq<Opt>)
    requires ContiguousBlocks(opts)
    ensures OptionsSeen(ck, Kept(opts, |opts|), 0) == OptionsSeen(ck, opts, 0)
  {
    KeptSplit(opts, |opts|);
    assert Kept(opts, |opts|) + [] == Kept(opts, |opts|);
    DroppingFrom(ck, opts, 0);
  }

  lemma {:induction false} DroppingFrom(ck: Check, opts: seq<Opt>, i: nat)
    requires ContiguousBlocks(opts) && i <= |opts| && (0 < i < |opts| ==> opts[i - 1].block != opts[i].block)
    ensures OptionsSeen(ck, KeptFrom(opts, i), 0) == OptionsSeen(ck, opts, i)
    decreases |opts| - i
  {
    hide BlockSeen, OptionsSeen, BlockEnd, KeptFrom, Idle;
    if i == |opts| {
      assert KeptFrom(opts, i) == [] by { KeptNone(opts); }
      NothingLeft(ck, opts);
      NothingLeft(ck, []);
    } else {
      var b := opts[i].block;
      var end := BlockEnd(opts, i, b);
      DroppingFrom(ck, opts, end);
      if Idle(opts, i) {
        IdleBlock(ck, opts, i);
      } else {
        NoIdleIn(opts, i);
        BlockIsKept(opts, i, end);
        LaterBlocksDiffer(opts, i, end, end);
        BlockThenRest(ck, opts, i, end, KeptFrom(opts, end));
      }
    }
  }

  /** The block of an option that is not idle holds no idle one. */
  lemma NoIdleIn(opts: seq<Opt>, i: nat)
    requires i < |opts| && !Idle(opts, i) && (0 < i ==> opts[i - 1].block != opts[i].block)
    ensures forall k :: i <= k < BlockEnd(opts, i, opts[i].block) ==> !Idle(opts, k)
  {
  }

  lemma BlockThenRest(ck: Check, opts: seq<Opt>, i: nat, end: nat, rest: seq<Opt>)
    requires i < end <= |opts| && end == BlockEnd(opts, i, opts[i].block)
    requires forall k :: 0 <= k < |rest| ==> rest[k].block != opts[i].block
    requires OptionsSeen(ck, rest, 0) == OptionsSeen(ck, opts, end)
    ensures OptionsSeen(ck, opts[i..end] + rest, 0) == OptionsSeen(ck, opts, i)
  {
    hide BlockSeen, OptionsSeen, BlockEnd;
    var block := opts[i..end];
    assert SameRun(opts, i, block + rest, 0, end - i, opts[i].block);
    OptionsShift(ck, block, rest, 0);
    SameFirstBlock(ck, opts, i, block + rest, 0, end - i);
  }

  lemma IdleBlock(ck: Check, opts: seq<Opt>, i: nat)
    requires i < |opts| && Idle(opts, i)
    ensures BlockEnd(opts, i, opts[i].block) == i + 1
    ensures OptionsSeen(ck, opts, i) == OptionsSeen(ck, opts, i + 1)
    ensures KeptFrom(opts, i) == KeptFrom(opts, i + 1)
  {
    assert [] + KeptFrom(opts, i + 1) == KeptFrom(opts, i + 1);
    BlockEndIs(opts, i, 1, opts[i].block);
    assert BlockSeen(ck, opts, i, opts[i].block) == Seen(true, []);
    var rest := OptionsSeen(ck, opts, i + 1);
    assert [] + rest.log == rest.log;
  }

  /** A block that is not an idle comment is kept whole. */
  lemma {:induction false} BlockIsKept(opts: seq<Opt>, i: nat, end: nat)
    requires i <= end <= |opts| && forall k :: i <= k < end ==> !Idle(opts, k)
    ensures KeptFrom(opts, i) == opts[i..end] + KeptFrom(opts, end)
    decreases end - i
  {
    hide Idle;
    var rest := KeptFrom(opts, end);
    if i < end {
      BlockIsKept(opts, i + 1, end);
      assert KeptFrom(opts, i) == [opts[i]] + KeptFrom(opts, i + 1);
      assert [opts[i]] + (opts[i + 1..end] + rest) == opts[i..end] + rest;
    } else {
      assert opts[i..end] + rest == rest;
    }
  }

  lemma {:induction false} LaterBlocksDiffer(opts: seq<Opt>, i: nat, end: nat, j: nat)
    requires ContiguousBlocks(opts) && i < end <= j <= |opts| && end == BlockEnd(opts, i, opts[i].block)
    ensures forall k :: 0 <= k < |KeptFrom(opts, j)| ==> KeptFrom(opts, j)[k].block != opts[i].block
    decreases |opts| - j
  {
    if j < |opts| {
      LaterBlocksDiffer(opts, i, end, j + 1);
      assert opts[end].block != opts[i].block;
      assert opts[j].block != opts[i].block;
    }
  }

  /** Why the options of a block have to be contiguous: with a comment standing
      between two parts of a block, dropping it makes alternatives of two conditions
      that both had to hold. */
  lemma ContiguityIsNeeded(ck: Check, condition: Opt, comment: Opt, other: Opt)
    requires condition.block == other.block != comment.block && condition.pattern == other.pattern
    requires !condition.neg && !other.neg && !comment.neg && comment.kind == OptComment
    requires condition.kind != OptComment && OptionSeen(ck, condition).holds && !OptionSeen(ck, other).holds
    ensures var opts := [condition, comment, other];
            !OptionsSeen(ck, opts, 0).holds && OptionsSeen(ck, Kept(opts, 3), 0).holds
  {
    var opts := [condition, comment, other];
    assert Kept(opts, 0) == [] && Kept(opts, 1) == [condition];
    assert Kept(opts, 2) == [condition] && Kept(opts, 3) == [condition, other];
    var kept := [condition, other];
    assert AnyOption(ck, kept, 0, condition.block, condition.pattern).holds;
    assert BlockEnd(kept, 1, condition.block) == 2 && BlockEnd(kept, 0, condition.block) == 2;
    assert AnyOption(ck, opts, 3, other.block, other.pattern) == Seen(false, []);
    assert !AnyOption(ck, opts, 2, other.block, other.pattern).holds;
    assert BlockSeen(ck, opts, 3, other.block) == Seen(false, []);
    assert !BlockSeen(ck, opts, 2, other.block).holds;
    assert BlockEnd(opts, 2, comment.block) == 2 && BlockEnd(opts, 1, comment.block) == 2;
    assert BlockEnd(opts, 1, condition.block) == 1 && BlockEnd(opts, 0, condition.block) == 1;
    assert !OptionsSeen(ck, opts, 2).holds;
    assert !OptionsSeen(ck, opts, 1).holds;
  }

  // -------------------------------------------------------------------- checks

  /** The rules a check evaluates from a rule on. */
  ghost function Path(ck: Check, code: seq<Step>, pc: nat): seq<nat>
    requires Forward(code)
    decreases |code| - pc
  {
    if pc >= |code| then []
    else
      var seen := BodySeen(ck, code[pc].body);
      var next := if seen.holds then Continue(code[pc], pc, seen.log) else Some(pc + 1);
      [pc] + if next.None? then [] else Path(ck, code, next.value)
  }

  /** Strictly increasing indexes of a range. */
  ghost predicate Ascending(path: seq<nat>, lo: nat, hi: nat) {
    && (forall k: nat :: k < |path| ==> lo <= path[k] < hi)
    && (forall j: nat, k: nat :: j < k < |path| ==> path[j] < path[k])
  }

  lemma {:induction false} PathGoesForward(ck: Check, code: seq<Step>, pc: nat)
    requires Forward(code)
    ensures Ascending(Path(ck, code, pc), pc, |code|)
    decreases |code| - pc
  {
    hide BodySeen;
    if pc < |code| {
      var seen := BodySeen(ck, code[pc].body);
      var next := if seen.holds then Continue(code[pc], pc, seen.log) else Some(pc + 1);
      if next.Some? {
        assert StaticJump(code[pc].action) ==> pc < code[pc].jump;
        assert pc < next.value;
        PathGoesForward(ck, code, next.value);
        assert Path(ck, code, pc) == [pc] + Path(ck, code, next.value);
      }
    }
  }

  /** A run that evaluates the rules of a path one after the other, and ends with the
      action of the last or with the verdict given. */
  ghost predicate FollowsPath(ck: Check, code: seq<Step>, path: seq<nat>, run: Outcome, verdict: Action) {
    && |run.trace| == |path|
    && (forall k: nat :: k < |path| ==> path[k] < |code| && EventOf(ck, code, path[k]) == run.trace[k])
    && (run.terminated ==>
          path != [] && run.trace[|path| - 1].matched
          && run.action == code[path[|path| - 1]].action
          && (run.action.kind == ActionPass || run.action.kind == ActionDeny || run.action.kind == ActionReset))
    && (!run.terminated ==> run.action == verdict)
  }

  lemma OneRuleMore(ck: Check, code: seq<Step>, pc: nat, path: seq<nat>, rest: Outcome, verdict: Action)
    requires pc < |code| && FollowsPath(ck, code, path, rest, verdict)
    ensures FollowsPath(ck, code, [pc] + path, Outcome(rest.action, rest.terminated, [EventOf(ck, code, pc)] + rest.trace), verdict)
  {
    hide EventOf;
  }

  /** Every run follows its path. */
  lemma {:induction false} RunFollowsPath(ck: Check, code: seq<Step>, pc: nat, verdict: Action)
    requires Forward(code)
    ensures FollowsPath(ck, code, Path(ck, code, pc), Run(ck, code, pc, verdict), verdict)
    decreases |code| - pc
  {
    hide BodySeen;
    if pc < |code| {
      var seen := BodySeen(ck, code[pc].body);
      var next := if seen.holds then Continue(code[pc], pc, seen.log) else Some(pc + 1);
      if next.Some? {
        RunFollowsPath(ck, code, next.value, verdict);
        hide FollowsPath;
        OneRuleMore(ck, code, pc, Path(ck, code, next.value), Run(ck, code, next.value, verdict), verdict);
      }
    }
  }

  /** A check goes through the rules strictly forward, whatever the tables hold, so
      that it evaluates each at most once. */
  lemma RunIsShort(ck: Check, code: seq<Step>, verdict: Action)
    requires Forward(code)
    ensures |Run(ck, code, 0, verdict).trace| <= |code|
  {
    hide Path, Run;
    PathGoesForward(ck, code, 0);
    RunFollowsPath(ck, code, 0, verdict);
    ForwardPathIsShort(Path(ck, code, 0), |code|);
  }

  /** What a tracer is told of a rule. */
  ghost function EventOf(ck: Check, code: seq<Step>, i: nat): Event
    requires i < |code|
  {
    Event(code[i].record, code[i].action, BodySeen(ck, code[i].body).holds)
  }

  lemma {:induction false} ForwardPathIsShort(path: seq<nat>, n: nat)
    requires Ascending(path, 0, n)
    ensures |path| <= n
    decreases |path|
  {
    if path != [] {
      ForwardPathIsShort(path[..|path| - 1], path[|path| - 1]);
    }
  }
}
