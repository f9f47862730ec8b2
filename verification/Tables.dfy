/**
 The prefix table (vm/tables.go), an index over the entries added to it that is
 sorted by host bits. It answers as the plain list of those entries does.
 */
module Tables {
  import opened Ipfw

  /** What a network type gives a table. */
  datatype Family<!N> = Family(contains: (N, Addr) -> bool, hostBits: N -> int)

  datatype Entry<N> = Entry(network: N, value: string)

  // ------------------------------------------------------------ the plain list

  /** Of the entries holding the address, the last added one of least host bits. */
  function Best<N>(f: Family<N>, entries: seq<Entry<N>>, addr: Addr): Option<Entry<N>> {
    if entries == [] then None
    else
      var last := entries[|entries| - 1];
      var best := Best(f, entries[..|entries| - 1], addr);
      if f.contains(last.network, addr)
         && (best.None? || f.hostBits(last.network) <= f.hostBits(best.value.network))
      then Some(last) else best
  }

  /** The most specific entry holding the address, the last added one among equals. */
  ghost predicate MostSpecific<N>(f: Family<N>, entries: seq<Entry<N>>, addr: Addr, i: nat)
    requires i < |entries|
  {
    && f.contains(entries[i].network, addr)
    && forall j: nat :: j < |entries| && f.contains(entries[j].network, addr) ==>
         f.hostBits(entries[i].network) <= f.hostBits(entries[j].network)
         && (j > i ==> f.hostBits(entries[i].network) < f.hostBits(entries[j].network))
  }

  /** The plain list gives the most specific entry, and none exactly when no entry
      holds the address. */
  lemma {:induction false} BestIsMostSpecific<N>(f: Family<N>, entries: seq<Entry<N>>, addr: Addr)
    ensures match Best(f, entries, addr)
            case None => forall j: nat :: j < |entries| ==> !f.contains(entries[j].network, addr)
            case Some(e) => exists i: nat :: i < |entries| && entries[i] == e && MostSpecific(f, entries, addr, i)
  {
    if entries != [] {
      var n := |entries| - 1;
      var before := entries[..n];
      BestIsMostSpecific(f, before, addr);
      var best := Best(f, before, addr);
      if Best(f, entries, addr) == Some(entries[n]) && f.contains(entries[n].network, addr)
         && (best.None? || f.hostBits(entries[n].network) <= f.hostBits(best.value.network)) {
        assert forall j: nat :: j < n ==> entries[j] == before[j];
        assert MostSpecific(f, entries, addr, n);
      } else if best.Some? {
        var i: nat :| i < n && before[i] == best.value && MostSpecific(f, before, addr, i);
        assert forall j: nat :: j < n ==> entries[j] == before[j];
        assert MostSpecific(f, entries, addr, i);
      }
    }
  }

  // --------------------------------------------------------------- the grouping

  /** What a group stands for: the entries with so many host bits, oldest first. */
  function OfBits<N>(f: Family<N>, entries: seq<Entry<N>>, bits: int): (r: seq<Entry<N>>)
    ensures forall k :: 0 <= k < |r| ==> f.hostBits(r[k].network) == bits && r[k] in entries
  {
    if entries == [] then []
    else
      var last := entries[|entries| - 1];
      OfBits(f, entries[..|entries| - 1], bits) + if f.hostBits(last.network) == bits then [last] else []
  }

  /** The last entry holding the address. */
  function LastHolder<N>(f: Family<N>, entries: seq<Entry<N>>, addr: Addr): (r: Option<Entry<N>>)
    ensures r.Some? ==> r.value in entries
  {
    if entries == [] then None
    else if f.contains(entries[|entries| - 1].network, addr) then Some(entries[|entries| - 1])
    else LastHolder(f, entries[..|entries| - 1], addr)
  }

  /** The answer comes from the first group that has one. */
  lemma {:induction false} BestIsFirstGroup<N>(f: Family<N>, entries: seq<Entry<N>>, addr: Addr, bits: int)
    requires forall fewer :: fewer < bits ==> LastHolder(f, OfBits(f, entries, fewer), addr).None?
    ensures LastHolder(f, OfBits(f, entries, bits), addr).Some? ==>
      Best(f, entries, addr) == LastHolder(f, OfBits(f, entries, bits), addr)
    ensures Best(f, entries, addr).Some? ==> f.hostBits(Best(f, entries, addr).value.network) >= bits
    ensures LastHolder(f, OfBits(f, entries, bits), addr).None? && Best(f, entries, addr).Some? ==>
      f.hostBits(Best(f, entries, addr).value.network) > bits
  {
    if entries != [] {
      var n := |entries| - 1;
      var last, before := entries[n], entries[..n];
      var at := f.hostBits(last.network);
      forall fewer | fewer < bits ensures LastHolder(f, OfBits(f, before, fewer), addr).None? {
        LastOfBits(f, entries, addr, fewer);
      }
      LastOfBits(f, entries, addr, bits);
      LastOfBits(f, entries, addr, at);
      BestIsFirstGroup(f, before, addr, bits);
      hide OfBits, LastHolder;
      assert f.contains(last.network, addr) ==> at >= bits;
      var holder := LastHolder(f, OfBits(f, before, bits), addr);
      assert holder.Some? ==> f.hostBits(holder.value.network) == bits;
    }
  }

  lemma LastOfBits<N>(f: Family<N>, entries: seq<Entry<N>>, addr: Addr, bits: int)
    requires entries != []
    ensures var last, before := entries[|entries| - 1], entries[..|entries| - 1];
            LastHolder(f, OfBits(f, entries, bits), addr)
            == if f.hostBits(last.network) == bits && f.contains(last.network, addr) then Some(last)
               else LastHolder(f, OfBits(f, before, bits), addr)
  {
    var last, before := entries[|entries| - 1], entries[..|entries| - 1];
    var group := OfBits(f, before, bits);
    assert (group + [last])[..|group|] == group;
    assert group + [] == group;
  }

  // ------------------------------------------------------------------ the table

  /** One group of the index, an entry being a network and the value at its index. */
  datatype Group<N> = Group(hostBits: int, networks: seq<N>, values: seq<string>)

  ghost predicate Groups<N>(f: Family<N>, entries: seq<Entry<N>>, group: Group<N>) {
    var own := OfBits(f, entries, group.hostBits);
    && own != []
    && |group.networks| == |group.values| == |own|
    && forall k: nat :: k < |own| ==> own[k] == Entry(group.networks[k], group.values[k])
  }

  ghost predicate Sorted<N>(groups: seq<Group<N>>) {
    forall i: nat, j: nat :: i < j < |groups| ==> groups[i].hostBits < groups[j].hostBits
  }

  /** No entry is without a group. */
  ghost predicate Complete<N>(f: Family<N>, entries: seq<Entry<N>>, groups: seq<Group<N>>) {
    forall e :: e in entries ==> exists g: nat :: g < |groups| && groups[g].hostBits == f.hostBits(e.network)
  }

  ghost predicate Indexed<N>(f: Family<N>, entries: seq<Entry<N>>, groups: seq<Group<N>>) {
    && Sorted(groups)
    && (forall g: nat :: g < |groups| ==> Groups(f, entries, groups[g]))
    && Complete(f, entries, groups)
  }

  /** Searches from the back for a network that holds the address. */
  method LastHolding<N>(f: Family<N>, networks: seq<N>, addr: Addr) returns (r: int)
    ensures -1 <= r < |networks|
    ensures r >= 0 ==> f.contains(networks[r], addr)
    ensures forall k: nat :: r < k < |networks| ==> !f.contains(networks[k], addr)
  {
    var idx := |networks|;
    while idx > 0
      invariant 0 <= idx <= |networks|
      invariant forall k: nat :: idx <= k < |networks| ==> !f.contains(networks[k], addr)
    {
      idx := idx - 1;
      if f.contains(networks[idx], addr) {
        return idx;
      }
    }
    return -1;
  }

  lemma {:induction false} LastHolderIs<N>(f: Family<N>, entries: seq<Entry<N>>, addr: Addr, r: int)
    requires -1 <= r < |entries|
    requires r >= 0 ==> f.contains(entries[r].network, addr)
    requires forall k: nat :: r < k < |entries| ==> !f.contains(entries[k].network, addr)
    ensures LastHolder(f, entries, addr) == if r < 0 then None else Some(entries[r])
    decreases |entries|
  {
    if r + 1 < |entries| {
      LastHolderIs(f, entries[..|entries| - 1], addr, r);
    }
  }

  /** The binary search of a group by its number of host bits. */
  method FindGroup<N>(groups: seq<Group<N>>, hostBits: int) returns (idx: nat, found: bool)
    requires Sorted(groups)
    ensures idx <= |groups|
    ensures forall k: nat :: k < idx ==> groups[k].hostBits < hostBits
    ensures forall k: nat :: idx <= k < |groups| ==> groups[k].hostBits >= hostBits
    ensures found <==> idx < |groups| && groups[idx].hostBits == hostBits
  {
    var lo: nat, hi: nat := 0, |groups|;
    while lo < hi
      invariant lo <= hi <= |groups|
      invariant forall k: nat :: k < lo ==> groups[k].hostBits < hostBits
      invariant forall k: nat :: hi <= k < |groups| ==> groups[k].hostBits >= hostBits
    {
      var mid := (lo + hi) / 2;
      if groups[mid].hostBits < hostBits {
        lo := mid + 1;
      } else {
        hi := mid;
      }
    }
    return lo, lo < |groups| && groups[lo].hostBits == hostBits;
  }

  class PrefixTable<N(!new)> {
    const family: Family<N>
    var groups: seq<Group<N>>
    /** Everything added so far, in order. */
    ghost var entries: seq<Entry<N>>

    ghost predicate Valid()
      reads this
    {
      Indexed(family, entries, groups)
    }

    constructor (family: Family<N>)
      ensures Valid() && entries == [] && this.family == family
    {
      this.family := family;
      groups := [];
      entries := [];
    }

    /** Answers as `Best` does over all entries so far. */
    method Lookup(addr: Addr) returns (value: string, ok: bool)
      requires Valid()
      ensures match Best(family, entries, addr)
              case None => !ok && value == ""
              case Some(entry) => ok && value == entry.value
    {
      hide Best, OfBits, LastHolder, Sorted, Complete;
      var at: nat := 0;
      while at < |groups|
        invariant at <= |groups|
        invariant forall g: nat :: g < at ==> LastHolder(family, OfBits(family, entries, groups[g].hostBits), addr).None?
      {
        var group := groups[at];
        var idx := LastHolding(family, group.networks, addr);
        GroupHolder(family, entries, group, addr, idx);
        if idx >= 0 {
          NothingBelow(family, entries, groups, addr, at);
          BestIsFirstGroup(family, entries, addr, group.hostBits);
          return group.values[idx], true;
        }
        at := at + 1;
      }
      NothingHolds(family, entries, groups, addr);
      return "", false;
    }

    /** One more entry, indexed. */
    method Add(network: N, value: string)
      requires Valid()
      modifies this
      ensures Valid() && entries == old(entries) + [Entry(network, value)]
    {
      hide Groups, Complete;
      var hostBits := family.hostBits(network);
      var idx, found := FindGroup(groups, hostBits);
      ghost var before := groups;
      if !found {
        groups := groups[..idx] + [Group(hostBits, [], [])] + groups[idx..];
      }
      ghost var ready := groups;
      OpenedGroup(family, entries, before, ready, network, idx, found);
      var group := groups[idx];
      group := Group(group.hostBits, group.networks + [network], group.values + [value]);
      groups := groups[idx := group];
      FilledGroup(family, entries, ready, groups, Entry(network, value), idx);
      entries := entries + [Entry(network, value)];
    }
  }

  /** The group of some host bits answers as its entries do. */
  lemma GroupHolder<N>(f: Family<N>, entries: seq<Entry<N>>, group: Group<N>, addr: Addr, idx: int)
    requires Groups(f, entries, group) && -1 <= idx < |group.networks|
    requires idx >= 0 ==> f.contains(group.networks[idx], addr)
    requires forall k: nat :: idx < k < |group.networks| ==> !f.contains(group.networks[k], addr)
    ensures var holder := LastHolder(f, OfBits(f, entries, group.hostBits), addr);
            if idx < 0 then holder.None? else holder.Some? && holder.value.value == group.values[idx]
  {
    var own := OfBits(f, entries, group.hostBits);
    assert forall k: nat :: k < |own| ==> own[k].network == group.networks[k];
    LastHolderIs(f, own, addr, idx);
  }

  lemma InsertedSorted<N>(groups: seq<Group<N>>, ready: seq<Group<N>>, bits: int, idx: nat, found: bool)
    requires Sorted(groups) && idx <= |groups|
    requires forall k: nat :: k < idx ==> groups[k].hostBits < bits
    requires forall k: nat :: idx <= k < |groups| ==> groups[k].hostBits >= bits
    requires found <==> idx < |groups| && groups[idx].hostBits == bits
    requires ready == if found then groups else groups[..idx] + [Group(bits, [], [])] + groups[idx..]
    ensures Sorted(ready)
    ensures !found ==> forall k: nat :: k < |groups| ==> groups[k].hostBits != bits
  {
    if !found {
      assert forall k: nat :: idx < k < |groups| ==> groups[k].hostBits > groups[idx].hostBits;
    }
  }

  /** A group with room for a network, empty when it was just inserted. */
  ghost predicate Ready<N>(f: Family<N>, entries: seq<Entry<N>>, groups: seq<Group<N>>, idx: nat) {
    && idx < |groups| && Sorted(groups)
    && (forall g: nat :: g < |groups| && g != idx ==> Groups(f, entries, groups[g]))
    && GroupOrEmpty(f, entries, groups[idx])
    && Complete(f, entries, groups)
  }

  ghost predicate GroupOrEmpty<N>(f: Family<N>, entries: seq<Entry<N>>, group: Group<N>) {
    var own := OfBits(f, entries, group.hostBits);
    && |group.networks| == |group.values| == |own|
    && forall k: nat :: k < |own| ==> own[k] == Entry(group.networks[k], group.values[k])
  }

  lemma {:induction false} NoneOfBits<N>(f: Family<N>, entries: seq<Entry<N>>, bits: int)
    requires forall e :: e in entries ==> f.hostBits(e.network) != bits
    ensures OfBits(f, entries, bits) == []
  {
    if entries != [] {
      NoneOfBits(f, entries[..|entries| - 1], bits);
    }
  }

  lemma OpenedGroup<N>(f: Family<N>, entries: seq<Entry<N>>, groups: seq<Group<N>>, ready: seq<Group<N>>,
                       network: N, idx: nat, found: bool)
    requires Indexed(f, entries, groups) && idx <= |groups|
    requires forall k: nat :: k < idx ==> groups[k].hostBits < f.hostBits(network)
    requires forall k: nat :: idx <= k < |groups| ==> groups[k].hostBits >= f.hostBits(network)
    requires found <==> idx < |groups| && groups[idx].hostBits == f.hostBits(network)
    requires ready == if found then groups else groups[..idx] + [Group(f.hostBits(network), [], [])] + groups[idx..]
    ensures Ready(f, entries, ready, idx) && ready[idx].hostBits == f.hostBits(network)
  {
    hide OfBits, Sorted;
    var bits := f.hostBits(network);
    InsertedSorted(groups, ready, bits, idx, found);
    if found {
      assert Groups(f, entries, groups[idx]);
    } else {
      NoneOfBits(f, entries, bits);
      forall g: nat | g < |ready| && g != idx ensures Groups(f, entries, ready[g]) {
        assert ready[g] == groups[if g < idx then g else g - 1];
      }
      forall e | e in entries ensures exists g: nat :: g < |ready| && ready[g].hostBits == f.hostBits(e.network) {
        var g: nat :| g < |groups| && groups[g].hostBits == f.hostBits(e.network);
        assert ready[if g < idx then g else g + 1] == groups[g];
      }
    }
  }

  lemma FilledGroup<N>(f: Family<N>, entries: seq<Entry<N>>, ready: seq<Group<N>>, groups: seq<Group<N>>, e: Entry<N>, idx: nat)
    requires Ready(f, entries, ready, idx) && ready[idx].hostBits == f.hostBits(e.network)
    requires groups == ready[idx := Group(ready[idx].hostBits, ready[idx].networks + [e.network], ready[idx].values + [e.value])]
    ensures Indexed(f, entries + [e], groups)
  {
    var more := entries + [e];
    forall bits ensures OfBits(f, more, bits) == OfBits(f, entries, bits) + if bits == f.hostBits(e.network) then [e] else [] {
      assert more[..|entries|] == entries;
    }
    hide OfBits;
    forall g: nat | g < |groups| ensures Groups(f, more, groups[g]) {
      assert g != idx ==> groups[g] == ready[g] && Groups(f, entries, ready[g]) && ready[g].hostBits != ready[idx].hostBits;
    }
    forall d | d in more ensures exists g: nat :: g < |groups| && groups[g].hostBits == f.hostBits(d.network) {
      if d in entries {
        var g: nat :| g < |ready| && ready[g].hostBits == f.hostBits(d.network);
        assert groups[g].hostBits == ready[g].hostBits;
      } else {
        assert groups[idx].hostBits == f.hostBits(d.network);
      }
    }
  }

  /** Fewer host bits than the first group with an answer have no answer. */
  lemma NothingBelow<N>(f: Family<N>, entries: seq<Entry<N>>, groups: seq<Group<N>>, addr: Addr, at: nat)
    requires Indexed(f, entries, groups) && at < |groups|
    requires forall g: nat :: g < at ==> LastHolder(f, OfBits(f, entries, groups[g].hostBits), addr).None?
    ensures forall fewer :: fewer < groups[at].hostBits ==> LastHolder(f, OfBits(f, entries, fewer), addr).None?
  {
    forall fewer | fewer < groups[at].hostBits ensures LastHolder(f, OfBits(f, entries, fewer), addr).None? {
      var own := OfBits(f, entries, fewer);
      if own != [] {
        assert own[0] in entries;
        var g: nat :| g < |groups| && groups[g].hostBits == f.hostBits(own[0].network);
        assert g < at;
      }
    }
  }

  lemma NothingHolds<N>(f: Family<N>, entries: seq<Entry<N>>, groups: seq<Group<N>>, addr: Addr)
    requires Indexed(f, entries, groups)
    requires forall g: nat :: g < |groups| ==> LastHolder(f, OfBits(f, entries, groups[g].hostBits), addr).None?
    ensures Best(f, entries, addr).None?
  {
    forall bits ensures LastHolder(f, OfBits(f, entries, bits), addr).None? {
      var own := OfBits(f, entries, bits);
      if own != [] {
        assert own[0] in entries;
      }
    }
    var best := Best(f, entries, addr);
    BestIsFirstGroup(f, entries, addr, if best.Some? then f.hostBits(best.value.network) + 1 else 0);
  }
}
