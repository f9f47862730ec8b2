/**
 Which table lookups a rule makes, and in which order (vm/vm.go): those of the members
 and options that an evaluation from left to right reaches. A `skipto tablearg` takes
 what the last of them named.
 */
module Lookups {
  import opened Ipfw
  import opened Semantics
  import opened Meaning

  // ------------------------------------------------------------------------ sides

  /** A member is reached when no pattern before its own holds and no member before it in
      its own does. */
  ghost predicate Reached(ck: Check, ts: seq<TargetMatch>, k: nat, addr: Addr)
    requires k < |ts|
  {
    && (forall j :: 0 <= j < k && ts[j].pattern != ts[k].pattern ==> SomeMember(ck, ts, j, addr) == ts[j].neg)
    && (forall j :: 0 <= j < k && ts[j].pattern == ts[k].pattern ==> !MemberSeen(ck, ts[j].member, addr).holds)
  }

  /** What the members reached from one index to another named, in order. */
  ghost function SideLog(ck: Check, ts: seq<TargetMatch>, i: nat, j: nat, addr: Addr): seq<int>
    requires i <= j <= |ts|
    decreases j - i
  {
    if i == j then []
    else (if Reached(ck, ts, i, addr) then MemberSeen(ck, ts[i].member, addr).log else []) + SideLog(ck, ts, i + 1, j, addr)
  }

  lemma {:induction false} SideLogSplits(ck: Check, ts: seq<TargetMatch>, i: nat, m: nat, j: nat, addr: Addr)
    requires i <= m <= j <= |ts|
    ensures SideLog(ck, ts, i, j, addr) == SideLog(ck, ts, i, m, addr) + SideLog(ck, ts, m, j, addr)
    decreases m - i
  {
    hide Reached, MemberSeen;
    if i < m {
      SideLogSplits(ck, ts, i + 1, m, j, addr);
    }
  }

  lemma {:induction false} NoneReached(ck: Check, ts: seq<TargetMatch>, i: nat, j: nat, addr: Addr)
    requires i <= j <= |ts| && forall k: nat :: i <= k < j ==> !Reached(ck, ts, k, addr)
    ensures SideLog(ck, ts, i, j, addr) == []
    decreases j - i
  {
    hide Reached, MemberSeen;
    if i < j {
      NoneReached(ck, ts, i + 1, j, addr);
    }
  }

  /** No pattern before an index holds. */
  ghost predicate NoneBefore(ck: Check, ts: seq<TargetMatch>, i: nat, addr: Addr)
    requires i <= |ts|
  {
    forall j: nat :: j < i ==> SomeMember(ck, ts, j, addr) == ts[j].neg
  }

  lemma OnlyTableLogs(ck: Check, member: Member, addr: Addr)
    ensures !MemberSeen(ck, member, addr).holds ==> MemberSeen(ck, member, addr).log == []
  {
  }

  /** The members of a run from `m` on, none before having held. */
  lemma {:induction false} RunLog(ck: Check, ts: seq<TargetMatch>, i: nat, m: nat, addr: Addr)
    requires WellPatterned(ts) && i < |ts| && NoneBefore(ck, ts, i, addr)
    requires 0 < i ==> ts[i - 1].pattern != ts[i].pattern
    requires i <= m <= PatternEnd(ts, i, ts[i].pattern)
    requires forall j :: i <= j < m ==> !MemberSeen(ck, ts[j].member, addr).holds
    ensures AnySeen(ck, ts, m, ts[i].pattern, addr).log == SideLog(ck, ts, m, PatternEnd(ts, i, ts[i].pattern), addr)
    decreases |ts| - m
  {
    hide MemberSeen, SomeMember, WellPatterned, Reached, PatternEnd;
    var p, end := ts[i].pattern, PatternEnd(ts, i, ts[i].pattern);
    if m == end {
      RunIsOver(ck, ts, i, addr);
    } else {
      OnlyTableLogs(ck, ts[m].member, addr);
      ReachedInRun(ck, ts, i, m, addr);
      if MemberSeen(ck, ts[m].member, addr).holds {
        forall k: nat | m < k < end ensures !Reached(ck, ts, k, addr) {
          HeldBefore(ck, ts, m, k, addr);
        }
        NoneReached(ck, ts, m + 1, end, addr);
      } else {
        RunLog(ck, ts, i, m + 1, addr);
      }
    }
  }

  lemma RunIsOver(ck: Check, ts: seq<TargetMatch>, i: nat, addr: Addr)
    requires i < |ts|
    ensures var end := PatternEnd(ts, i, ts[i].pattern);
            AnySeen(ck, ts, end, ts[i].pattern, addr) == Seen(false, [])
  {
  }

  lemma HeldBefore(ck: Check, ts: seq<TargetMatch>, m: nat, k: nat, addr: Addr)
    requires m < k < |ts| && ts[m].pattern == ts[k].pattern && MemberSeen(ck, ts[m].member, addr).holds
    ensures !Reached(ck, ts, k, addr)
  {
  }

  lemma ReachedInRun(ck: Check, ts: seq<TargetMatch>, i: nat, m: nat, addr: Addr)
    requires WellPatterned(ts) && i <= m < |ts| && NoneBefore(ck, ts, i, addr) && ts[m].pattern == ts[i].pattern
    requires 0 < i ==> ts[i - 1].pattern != ts[i].pattern
    requires forall j :: i <= j < m ==> ts[j].pattern == ts[i].pattern && !MemberSeen(ck, ts[j].member, addr).holds
    ensures Reached(ck, ts, m, addr)
  {
    hide SomeMember, MemberSeen;
    forall j: nat | j < i ensures ts[j].pattern != ts[i].pattern {
      assert ts[i - 1].pattern != ts[i].pattern;
    }
  }

  /** The lookups of a side are those of the members reached. */
  lemma {:induction false} SideLooksUp(ck: Check, ts: seq<TargetMatch>, i: nat, addr: Addr)
    requires WellPatterned(ts) && i <= |ts| && NoneBefore(ck, ts, i, addr)
    requires 0 < i < |ts| ==> ts[i - 1].pattern != ts[i].pattern
    ensures SideSeen(ck, ts, i, addr).log == SideLog(ck, ts, i, |ts|, addr)
    decreases |ts| - i
  {
    hide AnySeen, SomeMember, WellPatterned, Reached, MemberSeen, NoneBefore;
    if i < |ts| {
      var p, end := ts[i].pattern, PatternEnd(ts, i, ts[i].pattern);
      RunLog(ck, ts, i, i, addr);
      SideLogSplits(ck, ts, i, end, |ts|, addr);
      RunMeaning(ck, ts, i, i, addr);
      if AnySeen(ck, ts, i, p, addr).holds != ts[i].neg {
        forall k: nat | end <= k < |ts| ensures !Reached(ck, ts, k, addr) {
          PastHolding(ck, ts, i, k, addr);
        }
        NoneReached(ck, ts, end, |ts|, addr);
      } else {
        NoneInRun(ck, ts, i, addr);
        SideLooksUp(ck, ts, end, addr);
      }
    }
  }

  lemma PastHolding(ck: Check, ts: seq<TargetMatch>, i: nat, k: nat, addr: Addr)
    requires WellPatterned(ts) && i < |ts| && PatternEnd(ts, i, ts[i].pattern) <= k < |ts|
    requires SomeMember(ck, ts, i, addr) != ts[i].neg
    ensures !Reached(ck, ts, k, addr)
  {
    hide SomeMember, MemberSeen;
    var end := PatternEnd(ts, i, ts[i].pattern);
    assert ts[end].pattern != ts[i].pattern;
    assert ts[k].pattern != ts[i].pattern;
  }

  lemma NoneInRun(ck: Check, ts: seq<TargetMatch>, i: nat, addr: Addr)
    requires WellPatterned(ts) && i < |ts| && NoneBefore(ck, ts, i, addr)
    requires 0 < i ==> ts[i - 1].pattern != ts[i].pattern
    requires AnySeen(ck, ts, i, ts[i].pattern, addr).holds == ts[i].neg
    ensures var end := PatternEnd(ts, i, ts[i].pattern);
            NoneBefore(ck, ts, end, addr) && (end < |ts| ==> ts[end - 1].pattern != ts[end].pattern)
  {
    hide SomeMember, AnySeen, WellPatterned;
    var end := PatternEnd(ts, i, ts[i].pattern);
    forall j: nat | i <= j < end ensures SomeMember(ck, ts, j, addr) == ts[j].neg {
      RunMeaning(ck, ts, i, j, addr);
    }
  }

  // ---------------------------------------------------------------------- options

  /** An option is reached when no pattern before its own in its block holds and no
      option before it in its pattern does. */
  ghost predicate OptionReached(ck: Check, opts: seq<Opt>, k: nat)
    requires k < |opts|
  {
    && (forall j :: 0 <= j < k && opts[j].block == opts[k].block && opts[j].pattern != opts[k].pattern ==> !PatternHolds(ck, opts, j))
    && (forall j :: 0 <= j < k && SamePattern(opts[j], opts[k]) ==> !OptionSeen(ck, opts[j]).holds)
  }

  /** What the options reached from one index to another named, in order. */
  ghost function OptionsLog(ck: Check, opts: seq<Opt>, i: nat, j: nat): seq<int>
    requires i <= j <= |opts|
    decreases j - i
  {
    if i == j then []
    else (if OptionReached(ck, opts, i) then OptionSeen(ck, opts[i]).log else []) + OptionsLog(ck, opts, i + 1, j)
  }

  lemma {:induction false} OptionsLogSplits(ck: Check, opts: seq<Opt>, i: nat, m: nat, j: nat)
    requires i <= m <= j <= |opts|
    ensures OptionsLog(ck, opts, i, j) == OptionsLog(ck, opts, i, m) + OptionsLog(ck, opts, m, j)
    decreases m - i
  {
    hide OptionReached, OptionSeen;
    if i < m {
      OptionsLogSplits(ck, opts, i + 1, m, j);
    }
  }

  lemma {:induction false} NoOptionReached(ck: Check, opts: seq<Opt>, i: nat, j: nat)
    requires i <= j <= |opts| && forall k: nat :: i <= k < j ==> !OptionReached(ck, opts, k)
    ensures OptionsLog(ck, opts, i, j) == []
    decreases j - i
  {
    hide OptionReached, OptionSeen;
    if i < j {
      NoOptionReached(ck, opts, i + 1, j);
    }
  }

  lemma OnlyHoldingLogs(ck: Check, opt: Opt)
    ensures !OptionSeen(ck, opt).holds ==> OptionSeen(ck, opt).log == []
  {
  }

  /** No pattern of the block of option `i` holds before it, and its own starts there. */
  ghost predicate NoneInBlock(ck: Check, opts: seq<Opt>, i: nat)
    requires i < |opts|
  {
    && (0 < i ==> !SamePattern(opts[i - 1], opts[i]))
    && forall j :: 0 <= j < i && opts[j].block == opts[i].block ==> !PatternHolds(ck, opts, j)
  }

  lemma {:induction false} PatternLog(ck: Check, opts: seq<Opt>, i: nat, m: nat)
    requires WellPlaced(opts) && i < |opts| && NoneInBlock(ck, opts, i)
    requires i <= m <= OptPatternEnd(opts, i, opts[i].block, opts[i].pattern)
    requires forall j :: i <= j < m ==> !OptionSeen(ck, opts[j]).holds
    ensures AnyOption(ck, opts, m, opts[i].block, opts[i].pattern).log
         == OptionsLog(ck, opts, m, OptPatternEnd(opts, i, opts[i].block, opts[i].pattern))
    decreases |opts| - m
  {
    hide OptionSeen, PatternHolds, WellPlaced, OptionReached, OptPatternEnd, NoneInBlock;
    var b, p := opts[i].block, opts[i].pattern;
    var end := OptPatternEnd(opts, i, b, p);
    if m == end {
      PatternIsOver(ck, opts, i);
    } else {
      OnlyHoldingLogs(ck, opts[m]);
      ReachedInPattern(ck, opts, i, m);
      if OptionSeen(ck, opts[m]).holds {
        forall k: nat | m < k < end ensures !OptionReached(ck, opts, k) {
          OptionHeldBefore(ck, opts, m, k);
        }
        NoOptionReached(ck, opts, m + 1, end);
      } else {
        PatternLog(ck, opts, i, m + 1);
      }
    }
  }

  lemma PatternIsOver(ck: Check, opts: seq<Opt>, i: nat)
    requires i < |opts|
    ensures var b, p := opts[i].block, opts[i].pattern;
            AnyOption(ck, opts, OptPatternEnd(opts, i, b, p), b, p) == Seen(false, [])
  {
  }

  lemma OptionHeldBefore(ck: Check, opts: seq<Opt>, m: nat, k: nat)
    requires m < k < |opts| && SamePattern(opts[m], opts[k]) && OptionSeen(ck, opts[m]).holds
    ensures !OptionReached(ck, opts, k)
  {
  }

  lemma ReachedInPattern(ck: Check, opts: seq<Opt>, i: nat, m: nat)
    requires WellPlaced(opts) && i <= m < |opts| && NoneInBlock(ck, opts, i) && SamePattern(opts[i], opts[m])
    requires forall j :: i <= j < m ==> SamePattern(opts[i], opts[j]) && !OptionSeen(ck, opts[j]).holds
    ensures OptionReached(ck, opts, m)
  {
    hide PatternHolds, OptionSeen;
    forall j: nat | j < i ensures !SamePattern(opts[j], opts[i]) {
      assert !SamePattern(opts[i - 1], opts[i]);
    }
  }

  /** The lookups of a block that holds, from one of its patterns on. */
  lemma {:induction false} BlockLooksUp(ck: Check, opts: seq<Opt>, i: nat)
    requires WellPlaced(opts) && i < |opts| && NoneInBlock(ck, opts, i) && BlockSeen(ck, opts, i, opts[i].block).holds
    ensures BlockSeen(ck, opts, i, opts[i].block).log == OptionsLog(ck, opts, i, BlockEnd(opts, i, opts[i].block))
    decreases |opts| - i
  {
    hide AnyOption, PatternHolds, WellPlaced, OptionReached, OptionSeen, NoneInBlock;
    var b, p := opts[i].block, opts[i].pattern;
    var end, stop := OptPatternEnd(opts, i, b, p), BlockEnd(opts, i, b);
    SameBlockEnd(opts, i, end, b);
    PatternLog(ck, opts, i, i);
    OptionsLogSplits(ck, opts, i, end, stop);
    StartsPattern(ck, opts, i);
    PatternMeaning(ck, opts, i);
    if AnyOption(ck, opts, i, b, p).holds != opts[i].neg {
      forall k: nat | end <= k < stop ensures !OptionReached(ck, opts, k) {
        PastPattern(ck, opts, i, k);
      }
      NoOptionReached(ck, opts, end, stop);
    } else {
      assert end < |opts| && opts[end].block == b;
      NextInBlock(ck, opts, i);
      BlockLooksUp(ck, opts, end);
    }
  }

  lemma StartsPattern(ck: Check, opts: seq<Opt>, i: nat)
    requires i < |opts| && NoneInBlock(ck, opts, i)
    ensures 0 < i ==> !SamePattern(opts[i - 1], opts[i])
  {
  }

  lemma PastPattern(ck: Check, opts: seq<Opt>, i: nat, k: nat)
    requires WellPlaced(opts) && i < |opts| && PatternHolds(ck, opts, i)
    requires OptPatternEnd(opts, i, opts[i].block, opts[i].pattern) <= k < BlockEnd(opts, i, opts[i].block)
    ensures !OptionReached(ck, opts, k)
  {
    hide PatternHolds, OptionSeen;
    var end := OptPatternEnd(opts, i, opts[i].block, opts[i].pattern);
    assert !SamePattern(opts[i], opts[end]);
    assert !SamePattern(opts[i], opts[k]) && opts[k].block == opts[i].block;
  }

  lemma NextInBlock(ck: Check, opts: seq<Opt>, i: nat)
    requires WellPlaced(opts) && i < |opts| && NoneInBlock(ck, opts, i)
    requires AnyOption(ck, opts, i, opts[i].block, opts[i].pattern).holds == opts[i].neg
    requires var end := OptPatternEnd(opts, i, opts[i].block, opts[i].pattern); end < |opts| && opts[end].block == opts[i].block
    ensures NoneInBlock(ck, opts, OptPatternEnd(opts, i, opts[i].block, opts[i].pattern))
  {
    hide PatternHolds, AnyOption, WellPlaced;
    PatternMeaning(ck, opts, i);
    PatternEnds(opts, i);
  }

  /** The lookups of options that hold are those of the options reached. */
  lemma {:induction false} OptionsLookUp(ck: Check, opts: seq<Opt>, i: nat)
    requires WellPlaced(opts) && i <= |opts| && OptionsSeen(ck, opts, i).holds
    requires 0 < i < |opts| ==> opts[i - 1].block != opts[i].block
    ensures OptionsSeen(ck, opts, i).log == OptionsLog(ck, opts, i, |opts|)
    decreases |opts| - i
  {
    hide BlockSeen, WellPlaced, OptionReached, OptionSeen, PatternHolds;
    if i < |opts| {
      var end := BlockEnd(opts, i, opts[i].block);
      BlockStarts(ck, opts, i);
      BlockLooksUp(ck, opts, i);
      OptionsLogSplits(ck, opts, i, end, |opts|);
      assert end < |opts| ==> opts[end - 1].block != opts[end].block;
      OptionsLookUp(ck, opts, end);
    }
  }

  lemma BlockStarts(ck: Check, opts: seq<Opt>, i: nat)
    requires WellPlaced(opts) && i < |opts| && (0 < i ==> opts[i - 1].block != opts[i].block)
    ensures NoneInBlock(ck, opts, i)
  {
    hide PatternHolds;
    forall j: nat | j < i ensures opts[j].block != opts[i].block {
      assert opts[i - 1].block != opts[i].block;
    }
  }

  // ------------------------------------------------------------------------ bodies

  /** What a matching rule looked up, side by side and option by option. The last of it is
      what a `skipto tablearg` takes. */
  lemma BodyLooksUp(ck: Check, body: Body)
    requires WellPatterned(body.sources) && WellPatterned(body.destinations) && WellPlaced(body.options)
    requires BodySeen(ck, body).holds
    ensures BodySeen(ck, body).log ==
      SideLog(ck, body.sources, 0, |body.sources|, ck.pkt.source)
      + SideLog(ck, body.destinations, 0, |body.destinations|, ck.pkt.destination)
      + OptionsLog(ck, body.options, 0, |body.options|)
  {
    hide SideSeen, OptionsSeen, WellPatterned, WellPlaced, SideLog, OptionsLog;
    SideLooksUp(ck, body.sources, 0, ck.pkt.source);
    SideLooksUp(ck, body.destinations, 0, ck.pkt.destination);
    OptionsLookUp(ck, body.options, 0);
  }
}
