/** The collection of `hosts.c`: an array with room for more, whose entries are removed by leaving gaps that are
    closed afterwards. */
module Hosts {
  import opened HostLists

  /** `gvm_host`. */
  class Host {
    const value: Addr
    var vhosts: seq<string>

    constructor (value: Addr, vhosts: seq<string>)
      ensures this.value == value && this.vhosts == vhosts
    {
      this.value := value;
      this.vhosts := vhosts;
    }
  }

  // ----- closing gaps

  /** The entries that are not null, in order. */
  ghost function Compact(s: seq<Host?>): (r: seq<Host?>)
    ensures |r| <= |s|
  {
    if |s| == 0 then [] else Compact(s[..|s| - 1]) + if s[|s| - 1] == null then [] else [s[|s| - 1]]
  }

  lemma {:induction false} CompactConcat(a: seq<Host?>, b: seq<Host?>)
    ensures Compact(a + b) == Compact(a) + Compact(b)
  {
    if |b| == 0 {
      assert a + b == a;
    } else {
      assert (a + b)[..|a + b| - 1] == a + b[..|b| - 1];
      CompactConcat(a, b[..|b| - 1]);
    }
  }

  lemma {:induction false} CompactFull(s: seq<Host?>)
    requires forall i | 0 <= i < |s| :: s[i] != null
    ensures Compact(s) == s
  {
    if |s| > 0 {
      CompactFull(s[..|s| - 1]);
      assert s == s[..|s| - 1] + [s[|s| - 1]];
    }
  }

  lemma {:induction false} CompactEmpty(s: seq<Host?>)
    requires forall i | 0 <= i < |s| :: s[i] == null
    ensures Compact(s) == []
  {
    if |s| > 0 {
      CompactEmpty(s[..|s| - 1]);
    }
  }

  /** Compaction leaves no gap and loses nothing: its members are exactly the entries that are not null. */
  lemma {:induction false} CompactMembers(s: seq<Host?>)
    ensures forall h :: h in Compact(s) <==> h in s && h != null
  {
    if |s| > 0 {
      CompactMembers(s[..|s| - 1]);
      assert s == s[..|s| - 1] + [s[|s| - 1]];
    }
  }

  /** Moving the next entry into a gap. */
  lemma CompactMove(s: seq<Host?>, i: nat, j: nat)
    requires i < j < |s| && (forall k | i <= k < j :: s[k] == null) && s[j] != null
    ensures Compact(s[i := s[j]][j := null]) == Compact(s)
  {
    hide Compact;
    var t := s[i := s[j]][j := null];
    var a, b := s[..i], s[j + 1..];
    assert s == a + s[i..j] + [s[j]] + b;
    assert t == a + [s[j]] + t[i + 1..j + 1] + b;
    CompactConcat(a + s[i..j] + [s[j]], b);
    CompactConcat(a + s[i..j], [s[j]]);
    CompactConcat(a, s[i..j]);
    CompactEmpty(s[i..j]);
    CompactConcat(a + [s[j]] + t[i + 1..j + 1], b);
    CompactConcat(a + [s[j]], t[i + 1..j + 1]);
    CompactConcat(a, [s[j]]);
    CompactEmpty(t[i + 1..j + 1]);
  }

  lemma CompactDone(s: seq<Host?>, i: nat)
    requires i <= |s| && (forall k | 0 <= k < i :: s[k] != null) && forall k | i <= k < |s| :: s[k] == null
    ensures Compact(s) == s[..i]
  {
    hide Compact;
    assert s == s[..i] + s[i..];
    CompactConcat(s[..i], s[i..]);
    CompactFull(s[..i]);
    CompactEmpty(s[i..]);
  }

  /** `gvm_hosts_fill_gaps`. */
  method FillGaps(a: array<Host?>)
    modifies a
    ensures var c := Compact(old(a[..])); a[..|c|] == c && forall k | |c| <= k < a.Length :: a[k] == null
  {
    hide Compact;
    var i := 0;
    while i < a.Length
      invariant 0 <= i <= a.Length
      invariant forall k | 0 <= k < i :: a[k] != null
      invariant Compact(a[..]) == Compact(old(a[..]))
    {
      if a[i] == null {
        var j := i + 1;
        while j < a.Length && a[j] == null
          invariant i < j <= a.Length
          invariant forall k | i <= k < j :: a[k] == null
        {
          j := j + 1;
        }
        if j < a.Length {
          CompactMove(a[..], i, j);
          ghost var s := a[..];
          a[i] := a[j];
          a[j] := null;
          assert a[..] == s[i := s[j]][j := null];
        }
        if a[i] == null {
          CompactDone(a[..], i);
          return;
        }
      }
      i := i + 1;
    }
    CompactDone(a[..], i);
  }

  // ----- the collection

  ghost predicate Shows(h: Host?, e: Entry)
    reads h
  {
    h != null && h.value == e.value && h.vhosts == e.vhosts
  }

  /** `gvm_hosts_t`. */
  class HostSet {
    var hosts: array<Host?>
    var count: nat
    var removed: nat
    var duplicated: nat
    var current: nat
    ghost var entries: seq<Entry>

    ghost function Members(): set<Host>
      reads this, hosts
    {
      set i | 0 <= i < hosts.Length && hosts[i] != null :: hosts[i]
    }

    /** No gaps below `count`, nothing from there on, and no host twice. */
    ghost predicate Valid()
      reads this, hosts, Members()
    {
      && 0 < hosts.Length && count == |entries| <= hosts.Length
      && (forall i | 0 <= i < count :: Shows(hosts[i], entries[i]))
      && (forall i | count <= i < hosts.Length :: hosts[i] == null)
      && (forall i, j | 0 <= i < j < count :: hosts[i] != hosts[j])
    }

    /** `gvm_hosts_init`. */
    constructor ()
      ensures Valid() && entries == [] && removed == 0 && duplicated == 0 && fresh(hosts)
    {
      hosts := new Host?[1024](_ => null);
      count, removed, duplicated, current, entries := 0, 0, 0, 0, [];
    }

    /** Nothing from `count` on; there may be gaps before. */
    ghost predicate Roomy()
      reads this, hosts
    {
      0 < hosts.Length && count <= hosts.Length && forall i | count <= i < hosts.Length :: hosts[i] == null
    }

    /** The array gets four times its size, and all of the new part is null. */
    method Grow()
      requires Roomy()
      modifies this`hosts
      ensures Roomy() && fresh(hosts) && hosts.Length == 4 * old(hosts.Length)
      ensures hosts[..count] == old(hosts[..count])
    {
      var a := hosts;
      var bigger := new Host?[a.Length * 4](_ => null);
      for i := 0 to count
        invariant forall k | 0 <= k < i :: bigger[k] == a[k]
        invariant forall k | i <= k < bigger.Length :: bigger[k] == null
      {
        bigger[i] := a[i];
      }
      hosts := bigger;
    }

    /** `gvm_hosts_add`: the array grows when it is full. */
    method Push(host: Host)
      requires Roomy()
      modifies this`hosts, this`count, hosts
      ensures Roomy() && count == old(count) + 1
      ensures fresh(hosts) || hosts == old(hosts)
      ensures hosts[..count] == old(hosts[..count]) + [host]
    {
      if count == hosts.Length {
        Grow();
      }
      hosts[count] := host;
      count := count + 1;
    }

    /** Adding to a collection without gaps. */
    method Add(host: Host)
      requires Valid() && host !in hosts[..count]
      modifies this`hosts, this`count, this`entries, hosts
      ensures Valid() && entries == old(entries) + [Entry(host.value, host.vhosts)]
      ensures fresh(hosts) || hosts == old(hosts)
      ensures hosts[..count] == old(hosts[..count]) + [host]
      ensures Members() <= old(Members()) + {host}
    {
      ghost var s := hosts[..count];
      assert forall i | 0 <= i < count :: s[i] in Members();
      Push(host);
      assert forall i | 0 <= i < count :: hosts[i] == (s + [host])[i];
      entries := entries + [Entry(host.value, host.vhosts)];
    }

    // ----- deduplication

    /** The hosts that stay show the entries of a list without duplicates. */
    static ghost predicate ShowAll(q: seq<Host?>, d: seq<Entry>)
      reads q
    {
      |q| == |d| && forall k | 0 <= k < |q| :: Shows(q[k], d[k])
    }

    static ghost predicate AllDistinct(q: seq<Host?>) {
      forall i, j | 0 <= i < j < |q| :: q[i] != q[j]
    }

    /** The hash table leads from each value to the host that stays for it. */
    static ghost predicate Tabled(table: map<Addr, Host>, q: seq<Host?>, d: seq<Entry>) {
      && |q| == |d|
      && (forall k | 0 <= k < |d| :: d[k].value in table && table[d[k].value] == q[k])
      && (forall v | v in table :: Position(d, v) < |d|)
    }

    static lemma DedupNothing()
      ensures Dedup([]) == [] && Compact([]) == []
    {
    }

    static lemma DedupSnoc(es: seq<Entry>, i: nat)
      requires i < |es|
      ensures Dedup(es[..i + 1]) == Merge(Dedup(es[..i]), es[i]) && DistinctValues(Dedup(es[..i]))
    {
      assert es[..i + 1][..i] == es[..i];
      DedupMeaning(es[..i]);
    }

    static lemma CompactSnoc(s: seq<Host?>, h: Host?)
      ensures Compact(s + [h]) == Compact(s) + if h == null then [] else [h]
    {
    }

    static lemma {:induction false} TabledNext(table: map<Addr, Host>, q: seq<Host?>, d: seq<Entry>, h: Host, e: Entry)
      requires Tabled(table, q, d) && h.value == e.value && h.value !in table && DistinctValues(d)
      ensures Merge(d, e) == d + [e] && Tabled(table[h.value := h], q + [h], d + [e])
    {
      PositionIff(d, e.value);
      forall k | 0 <= k < |d| ensures d[k].value != e.value {
        assert d[k].value in table;
      }
      forall v | v in table[h.value := h] ensures Position(d + [e], v) < |d + [e]| {
        PositionIff(d, v);
        PositionIff(d + [e], v);
        assert Values(d + [e])[|d|] == e.value;
        if v in Values(d) {
          var k :| 0 <= k < |d| && Values(d)[k] == v;
          assert Values(d + [e])[k] == v;
        }
      }
    }

    static lemma {:induction false} TabledAgain(table: map<Addr, Host>, q: seq<Host?>, d: seq<Entry>, e: Entry)
      requires Tabled(table, q, d) && e.value in table && DistinctValues(d)
      ensures var i := Position(d, e.value);
        && i < |d| && table[e.value] == q[i]
        && Merge(d, e) == d[i := Entry(d[i].value, d[i].vhosts + e.vhosts)]
        && Tabled(table, q, Merge(d, e))
    {
    }

    /** The loop of `gvm_hosts_deduplicate`: duplicates become gaps, their virtual hosts go to the first host of the
        same value. */
    static method NullDuplicates(a: array<Host?>, n: nat, ghost es: seq<Entry>, ghost known: set<Host>)
      returns (duplicates: nat, ghost kept: seq<Host?>)
      requires n == |es| <= a.Length
      requires forall k | 0 <= k < n :: Shows(a[k], es[k]) && a[k] in known
      requires AllDistinct(a[..n])
      modifies a, known
      ensures duplicates <= n && |kept| == n - duplicates && kept == Compact(a[..n])
      ensures duplicates == 0 ==> kept == a[..n]
      ensures ShowAll(kept, Dedup(es)) && AllDistinct(kept)
      ensures forall h | h in kept :: h in old(a[..n])
      ensures forall k | n <= k < a.Length :: a[k] == old(a[k])
    {
      hide Compact, Dedup, Merge, DistinctValues, Tabled, AllDistinct;
      ghost var s := a[..n];
      kept := [];
      var table: map<Addr, Host> := map[];
      duplicates := 0;
      var i := 0;
      DedupNothing();
      assert es[..0] == [] && a[..0] == [];
      TabledNone();
      while i < n
        invariant 0 <= i <= n && duplicates <= i
        invariant kept == Compact(a[..i]) && |kept| == i - duplicates
        invariant duplicates == 0 ==> kept == a[..i]
        invariant ShowAll(kept, Dedup(es[..i]))
        invariant AllDistinct(kept) && forall h | h in kept :: h in s && h in known
        invariant forall k | i <= k < n :: s[k] !in kept
        invariant Tabled(table, kept, Dedup(es[..i]))
        invariant forall k | i <= k < n :: a[k] == s[k] && Shows(s[k], es[k])
        invariant forall k | n <= k < a.Length :: a[k] == old(a[k])
      {
        var host := a[i];
        ghost var d, before := Dedup(es[..i]), a[..i];
        DedupSnoc(es, i);
        NotAgain(s, i);
        var duplicate;
        duplicate, table, kept := Place(host, table, kept, d, s, es, i, known);
        if duplicate {
          a[i] := null;
          duplicates := duplicates + 1;
        }
        assert a[..i + 1] == before + [a[i]];
        CompactSnoc(before, a[i]);
        i := i + 1;
      }
      assert es[..n] == es;
    }

    static lemma TabledNone()
      ensures Tabled(map[], [], []) && AllDistinct([])
    {
    }

    static lemma NotAgain(s: seq<Host?>, i: nat)
      requires i < |s| && AllDistinct(s)
      ensures forall k | i < k < |s| :: s[k] != s[i]
    {
    }

    /** The hosts from position `i` on are still as they were, and none of them has been kept. */
    static ghost predicate Waiting(host: Host, kept: seq<Host?>, s: seq<Host?>, es: seq<Entry>, i: nat)
      reads s
    {
      && i < |s| == |es| && s[i] == host && host !in kept
      && (forall k | i <= k < |s| :: Shows(s[k], es[k]))
      && (forall k | i < k < |s| :: s[k] !in kept && s[k] != host)
    }

    /** A duplicate hands its virtual hosts over. */
    static method HandOver(keeper: Host, host: Host, ghost kept: seq<Host?>, ghost p: nat, ghost d: seq<Entry>,
                           ghost s: seq<Host?>, ghost es: seq<Entry>, ghost i: nat)
      requires ShowAll(kept, d) && AllDistinct(kept) && p < |kept| && kept[p] == keeper && Waiting(host, kept, s, es, i)
      modifies keeper`vhosts, host`vhosts
      ensures ShowAll(kept, d[p := Entry(d[p].value, d[p].vhosts + es[i].vhosts)])
      ensures forall k | i < k < |s| :: Shows(s[k], es[k])
    {
      assert keeper in kept;
      keeper.vhosts := keeper.vhosts + host.vhosts;
      host.vhosts := [];
    }

    /** Looks the value of a host up in the table and either enters the host or merges it. */
    static method Place(host: Host, table: map<Addr, Host>, ghost kept: seq<Host?>, ghost d: seq<Entry>,
                        ghost s: seq<Host?>, ghost es: seq<Entry>, ghost i: nat, ghost known: set<Host>)
      returns (duplicate: bool, table': map<Addr, Host>, ghost kept': seq<Host?>)
      requires ShowAll(kept, d) && AllDistinct(kept) && Tabled(table, kept, d) && DistinctValues(d)
      requires Waiting(host, kept, s, es, i) && host in known && forall h | h in kept :: h in known
      modifies known
      ensures kept' == if duplicate then kept else kept + [host]
      ensures ShowAll(kept', Merge(d, es[i])) && AllDistinct(kept') && Tabled(table', kept', Merge(d, es[i]))
      ensures forall k | i < k < |s| :: Shows(s[k], es[k])
    {
      hide Merge, Position, DistinctValues, Tabled;
      if host.value in table {
        TabledAgain(table, kept, d, es[i]);
        assert kept[Position(d, host.value)] in kept;
        HandOver(table[host.value], host, kept, Position(d, host.value), d, s, es, i);
        duplicate, table', kept' := true, table, kept;
      } else {
        TabledNext(table, kept, d, host, es[i]);
        duplicate, table', kept' := false, table[host.value := host], kept + [host];
      }
    }

    /** `gvm_hosts_deduplicate`: keeps the first host of each value, hands the virtual hosts of the others over to it,
        and closes the gaps. */
    method Deduplicate()
      requires Valid()
      modifies this`count, this`duplicated, this`current, this`entries, hosts, Members()
      ensures Valid() && entries == Dedup(old(entries)) && current == 0
      ensures count + duplicated == old(count + duplicated)
      ensures forall h | h in hosts[..count] :: h in old(hosts[..count])
    {
      hide Compact, Dedup;
      var duplicates, kept := NullDuplicates(hosts, count, entries, Members());
      CompactRest(hosts[..], count);
      if duplicates > 0 {
        FillGaps(hosts);
      }
      count := count - duplicates;
      duplicated := duplicated + duplicates;
      current := 0;
      entries := Dedup(entries);
    }

    // ----- exclusion

    /** Some hosts have been taken out of the array: those with the values of `out`, as far as `i`. */
    static ghost predicate Excluding(q: seq<Host?>, es: seq<Entry>, out: set<Addr>, i: nat)
      reads q
    {
      && |q| == |es|
      && (forall k | 0 <= k < |q| :: if k < i && es[k].value in out then q[k] == null else Shows(q[k], es[k]))
      && (forall j, k | 0 <= j < k < |q| :: q[j] != null ==> q[j] != q[k])
    }

    static lemma {:induction false} ExcludedLeaves(q: seq<Host?>, es: seq<Entry>, out: set<Addr>)
      requires Excluding(q, es, out, |q|)
      ensures ShowAll(Compact(q), Keep(es, out)) && AllDistinct(Compact(q))
      decreases |q|
    {
      if |q| > 0 {
        var n := |q| - 1;
        ExcludedLeaves(q[..n], es[..n], out);
        NotYetIn(q, n);
      }
    }

    static lemma NotYetIn(q: seq<Host?>, n: nat)
      requires n < |q| && forall j, k | 0 <= j < k < |q| :: q[j] != null ==> q[j] != q[k]
      ensures q[n] !in Compact(q[..n])
    {
      CompactMembers(q[..n]);
      assert q[n] in q[..n] ==> exists j :: 0 <= j < n && q[j] == q[n];
    }

    /** Closes the gaps and takes the removed hosts off the count. */
    method Close(gone: nat, ghost c: seq<Host?>, ghost left: seq<Entry>)
      requires Roomy() && |left| + gone == count && c == Compact(hosts[..count])
      requires ShowAll(c, left) && AllDistinct(c)
      modifies this`count, this`removed, this`entries, hosts
      ensures Valid() && entries == left && count == old(count) - gone && removed == old(removed) + gone
      ensures hosts[..count] == c
    {
      hide Compact;
      CompactRest(hosts[..], count);
      if gone > 0 {
        FillGaps(hosts);
      } else {
        CompactSame(hosts[..count]);
      }
      assert ShowAll(c, left);
      count := count - gone;
      removed := removed + gone;
      entries := left;
      assert hosts[..count] == c;
      assert forall i | 0 <= i < count :: hosts[i] == c[i] && Shows(c[i], left[i]);
    }

    static lemma {:induction false} CompactSame(s: seq<Host?>)
      ensures |Compact(s)| == |s| ==> Compact(s) == s
    {
      if |s| > 0 {
        CompactSame(s[..|s| - 1]);
        assert s == s[..|s| - 1] + [s[|s| - 1]];
      }
    }

    /** The loop of `gvm_hosts_exclude_with_max`: excluded hosts become gaps. */
    static method NullExcluded(a: array<Host?>, n: nat, ghost es: seq<Entry>, table: set<Addr>) returns (excluded: nat)
      requires n == |es| <= a.Length && Excluding(a[..n], es, table, 0)
      modifies a
      ensures Excluding(a[..n], es, table, n) && n == |Keep(es, table)| + excluded
      ensures forall k | n <= k < a.Length :: a[k] == old(a[k])
      ensures excluded == 0 ==> a[..n] == old(a[..n])
      ensures forall k | 0 <= k < n :: a[k] == null || a[k] == old(a[k])
    {
      hide Excluding, Keep;
      excluded := 0;
      var i := 0;
      ghost var q := a[..n];
      KeepNothing(table);
      assert es[..0] == [];
      while i < n
        invariant 0 <= i <= n && |es| == n && q == a[..n] && Excluding(q, es, table, i)
        invariant i == |Keep(es[..i], table)| + excluded
        invariant forall k | n <= k < a.Length :: a[k] == old(a[k])
        invariant excluded == 0 ==> q == old(a[..n])
        invariant forall k | 0 <= k < n :: a[k] == null || a[k] == old(a[k])
      {
        ExcludeStep(q, es, table, i);
        assert a[i] == q[i];
        if a[i].value in table {
          a[i] := null;
          q := q[i := null];
          excluded := excluded + 1;
        }
        i := i + 1;
      }
      assert es[..n] == es;
    }

    static lemma KeepNothing(out: set<Addr>)
      ensures Keep([], out) == []
    {
    }

    static lemma ExcludeStep(q: seq<Host?>, es: seq<Entry>, out: set<Addr>, i: nat)
      requires i < |q| && Excluding(q, es, out, i)
      ensures |es| == |q| && q[i] != null && q[i].value == es[i].value
      ensures Excluding(if es[i].value in out then q[i := null] else q, es, out, i + 1)
      ensures |Keep(es[..i + 1], out)| == |Keep(es[..i], out)| + if es[i].value in out then 0 else 1
    {
      assert es[..i + 1][..i] == es[..i];
    }

    /** The values of a collection, hashed. */
    method ValueTable() returns (table: set<Addr>)
      requires Valid()
      ensures table == ValueSet(entries)
    {
      table := {};
      for i := 0 to count
        invariant table == ValueSet(entries[..i])
      {
        assert Shows(hosts[i], entries[i]);
        assert entries[..i + 1] == entries[..i] + [entries[i]];
        table := table + {hosts[i].value};
      }
      assert entries[..count] == entries;
    }

    /** The second half of `gvm_hosts_exclude_with_max`. */
    method ExcludeValues(table: set<Addr>) returns (excluded: nat)
      requires Valid()
      modifies this`count, this`removed, this`current, this`entries, hosts
      ensures Valid() && entries == Keep(old(entries), table)
      ensures count + excluded == old(count) && removed == old(removed) + excluded
    {
      hide Compact, Keep, Excluding, ShowAll, AllDistinct, Valid;
      NothingExcluded(table);
      excluded := NullExcluded(hosts, count, entries, table);
      ExcludedLeaves(hosts[..count], entries, table);
      current := 0;
      Close(excluded, Compact(hosts[..count]), Keep(entries, table));
    }

    /** `gvm_hosts_exclude_with_max`: takes out all hosts with a value of the other collection, keeps the order of the
        rest, and says how many went. Without another collection nothing happens. */
    method Exclude(other: HostSet?) returns (ret: int)
      requires Valid() && (other != null ==> other.Valid() && other != this && other.hosts != hosts)
      modifies this`count, this`removed, this`current, this`entries, hosts
      ensures Valid()
      ensures other == null ==> ret == -1 && entries == old(entries)
      ensures other != null ==> entries == Keep(old(entries), ValueSet(old(other.entries)))
      ensures other != null ==> 0 <= ret == old(count) - count && removed == old(removed) + ret
      ensures count + removed == old(count + removed)
    {
      if other == null {
        return -1;
      }
      if other.count == 0 {
        KeepAll(entries);
        assert ValueSet(other.entries) == {};
        return 0;
      }
      hide Keep, ValueSet, Valid;
      var table := other.ValueTable();
      ret := ExcludeValues(table);
    }

    static lemma {:induction false} KeepAll(es: seq<Entry>)
      ensures Keep(es, {}) == es
    {
      if |es| > 0 {
        KeepAll(es[..|es| - 1]);
        assert es == es[..|es| - 1] + [es[|es| - 1]];
      }
    }

    lemma NothingExcluded(out: set<Addr>)
      requires Valid()
      ensures Excluding(hosts[..count], entries, out, 0) && Roomy()
    {
    }

    static lemma CompactRest(s: seq<Host?>, n: nat)
      requires n <= |s| && forall k | n <= k < |s| :: s[k] == null
      ensures Compact(s) == Compact(s[..n])
    {
      hide Compact;
      assert s == s[..n] + s[n..];
      CompactConcat(s[..n], s[n..]);
      CompactEmpty(s[n..]);
    }

    // ----- resolution

    /** As far as `i`, the hosts that are names have been taken out; the others show the entries. */
    static ghost predicate Resolving(q: seq<Host?>, es: seq<Entry>, i: nat)
      reads q
    {
      && |q| == |es|
      && (forall k | 0 <= k < |q| :: if k < i && es[k].value.Name? then q[k] == null else Shows(q[k], es[k]))
      && (forall j, k | 0 <= j < k < |q| :: q[j] != null ==> q[j] != q[k])
    }

    static lemma {:induction false} AddressesLeft(q: seq<Host?>, es: seq<Entry>)
      requires Resolving(q, es, |q|)
      ensures ShowAll(Compact(q), Addresses(es)) && AllDistinct(Compact(q))
      decreases |q|
    {
      if |q| > 0 {
        var n := |q| - 1;
        AddressesLeft(q[..n], es[..n]);
        NotYetIn(q, n);
      }
    }

    lemma NothingResolved()
      requires Valid()
      ensures Resolving(hosts[..count], entries, 0) && Roomy()
    {
    }

    /** One new host for each address of a name. */
    method PushResolved(name: string, addrs: seq<Addr>, ghost q: seq<Host?>, ghost es: seq<Entry>, ghost i: nat)
      returns (ghost q': seq<Host?>)
      requires Roomy() && hosts[..count] == q && Resolving(q, es, i) && i < |q| && forall a | a in addrs :: !a.Name?
      modifies this`hosts, this`count, hosts
      ensures Roomy() && hosts[..count] == q' && Resolving(q', es + Resolved(name, addrs), i)
      ensures fresh(hosts) || hosts == old(hosts)
      ensures q <= q' && forall k | |q| <= k < |q'| :: q'[k] != null && fresh(q'[k])
    {
      q' := q;
      var k := 0;
      assert addrs[..0] == [] && es + [] == es;
      while k < |addrs|
        invariant 0 <= k <= |addrs|
        invariant Roomy() && hosts[..count] == q' && Resolving(q', es + Resolved(name, addrs[..k]), i)
        invariant fresh(hosts) || hosts == old(hosts)
        invariant q <= q' && forall j | |q| <= j < |q'| :: q'[j] != null && fresh(q'[j])
      {
        var host := new Host(addrs[k], [name]);
        Push(host);
        q' := q' + [host];
        assert addrs[..k + 1][..k] == addrs[..k];
        assert es + Resolved(name, addrs[..k + 1])
            == es + Resolved(name, addrs[..k]) + [Entry(addrs[k], [name])];
        k := k + 1;
      }
      assert addrs[..k] == addrs;
    }

    /** What `gvm_hosts_resolve` has found after the first `i` hosts of a list that grows behind `es`. */
    static ghost predicate Found(es: seq<Entry>, list: seq<Entry>, i: nat, answers: map<string, seq<Addr>>,
                                 resolved: nat, unresolved: seq<string>, newEntries: bool) {
      var seen := if i < |es| then i else |es|;
      && i <= |list| && list == es + AllResolved(es[..seen], answers)
      && (forall k | |es| <= k < |list| :: !list[k].value.Name?)
      && resolved == NameCount(es[..seen]) <= NameCount(es)
      && unresolved == Unresolved(es[..seen], answers)
      && (newEntries <==> |list| > |es|)
    }

    static lemma NothingFound(es: seq<Entry>, answers: map<string, seq<Addr>>)
      ensures Found(es, es, 0, answers, 0, [], false)
    {
      assert es[..0] == [] && es + [] == es;
    }

    static lemma AllFound(es: seq<Entry>, list: seq<Entry>, answers: map<string, seq<Addr>>,
                          resolved: nat, unresolved: seq<string>, newEntries: bool)
      requires Found(es, list, |list|, answers, resolved, unresolved, newEntries)
      ensures list == es + AllResolved(es, answers)
      ensures resolved == NameCount(es) && unresolved == Unresolved(es, answers)
      ensures newEntries <==> |AllResolved(es, answers)| > 0
    {
      hide AllResolved, Unresolved, NameCount;
      assert es[..|es|] == es;
    }

    static lemma PrefixStep(es: seq<Entry>, i: nat, answers: map<string, seq<Addr>>)
      requires i < |es|
      ensures var e := es[i];
        var addrs := if e.value.Name? then Lookup(answers, e.value.name) else [];
        && AllResolved(es[..i + 1], answers)
           == AllResolved(es[..i], answers) + (if e.value.Name? then Resolved(e.value.name, addrs) else [])
        && NameCount(es[..i + 1]) == NameCount(es[..i]) + (if e.value.Name? then 1 else 0)
        && Unresolved(es[..i + 1], answers)
           == (if e.value.Name? && addrs == [] then [e.value.name] else []) + Unresolved(es[..i], answers)
      ensures NameCount(es[..i + 1]) <= NameCount(es)
    {
      assert es[..i + 1][..i] == es[..i];
      NameCountMono(es, i + 1);
    }

    static lemma LookupOk(answers: map<string, seq<Addr>>, name: string)
      requires OnlyAddresses(answers)
      ensures forall a | a in Lookup(answers, name) :: !a.Name?
      ensures NoNames(Resolved(name, Lookup(answers, name)))
      ensures |Resolved(name, Lookup(answers, name))| == |Lookup(answers, name)|
    {
      ResolvedNoNames(name, Lookup(answers, name));
    }

    /** One more host: a name, of which there are only as many as `es` has, or an address. */
    static lemma FoundNext(es: seq<Entry>, list: seq<Entry>, i: nat, answers: map<string, seq<Addr>>,
                           resolved: nat, unresolved: seq<string>, newEntries: bool)
      requires Found(es, list, i, answers, resolved, unresolved, newEntries) && i < |list| && OnlyAddresses(answers)
      ensures !list[i].value.Name? ==> Found(es, list, i + 1, answers, resolved, unresolved, newEntries)
      ensures list[i].value.Name? ==>
        var name := list[i].value.name;
        var addrs := Lookup(answers, name);
        Found(es, list + Resolved(name, addrs), i + 1, answers, resolved + 1,
              (if |addrs| == 0 then [name] else []) + unresolved, newEntries || |addrs| > 0)
    {
      hide AllResolved, Unresolved, NameCount, Resolved, Lookup, OnlyAddresses;
      if i < |es| {
        PrefixStep(es, i, answers);
        if list[i].value.Name? {
          var name := list[i].value.name;
          LookupOk(answers, name);
          var more := Resolved(name, Lookup(answers, name));
          assert es + AllResolved(es[..i], answers) + more == es + (AllResolved(es[..i], answers) + more);
        } else {
          assert AllResolved(es[..i], answers) + [] == AllResolved(es[..i], answers);
          assert [] + Unresolved(es[..i], answers) == Unresolved(es[..i], answers);
        }
      }
    }

    static lemma NamesLeft(es: seq<Entry>, list: seq<Entry>, i: nat, answers: map<string, seq<Addr>>,
                           resolved: nat, unresolved: seq<string>, newEntries: bool)
      requires Found(es, list, i, answers, resolved, unresolved, newEntries)
      ensures resolved <= NameCount(es)
    {
    }

    /** The loop of `gvm_hosts_resolve`: its bound is the count that it increases itself. It ends because what it adds
        is never a name. */
    method ResolveNames(answers: map<string, seq<Addr>>)
      returns (resolved: nat, unresolved: seq<string>, newEntries: bool, ghost q: seq<Host?>)
      requires Valid() && OnlyAddresses(answers)
      modifies this`hosts, this`count, hosts
      ensures Roomy() && hosts[..count] == q
      ensures Resolving(q, entries + AllResolved(entries, answers), |q|)
      ensures resolved == NameCount(entries) && unresolved == Unresolved(entries, answers)
      ensures newEntries <==> |AllResolved(entries, answers)| > 0
      ensures fresh(hosts) || hosts == old(hosts)
      ensures forall h | h in q :: h == null || h in old(Members()) || fresh(h)
    {
      hide AllResolved, Unresolved, NameCount, Resolving, Resolved, Lookup, OnlyAddresses, Found;
      ghost var known := Members();
      var i := 0;
      q := hosts[..count];
      ghost var list := entries;
      resolved, unresolved, newEntries := 0, [], false;
      NothingResolved();
      NothingFound(entries, answers);
      while i < count
        invariant 0 <= i <= count == |list| == |q|
        invariant Roomy() && hosts[..count] == q && Resolving(q, list, i)
        invariant Found(entries, list, i, answers, resolved, unresolved, newEntries)
        invariant fresh(hosts) || hosts == old(hosts)
        invariant forall h | h in q :: h == null || h in known || fresh(h)
        decreases NameCount(entries) - resolved, count - i
      {
        var host := hosts[i];
        IsShown(q, list, i);
        FoundNext(entries, list, i, answers, resolved, unresolved, newEntries);
        if host.value.Name? {
          var name := host.value.name;
          LookupOk(answers, name);
          var addrs := Lookup(answers, name);
          NamesLeft(entries, list, i, answers, resolved, unresolved, newEntries);
          q := ResolveOne(name, addrs, q, list, i);
          list := list + Resolved(name, addrs);
          resolved := resolved + 1;
          newEntries := newEntries || |addrs| > 0;
          unresolved := (if |addrs| == 0 then [name] else []) + unresolved;
          NamesLeft(entries, list, i + 1, answers, resolved, unresolved, newEntries);
        } else {
          StaysIn(q, list, i);
        }
        i := i + 1;
      }
      AllFound(entries, list, answers, resolved, unresolved, newEntries);
    }

    /** One name gives way to its addresses. */
    method ResolveOne(name: string, addrs: seq<Addr>, ghost q: seq<Host?>, ghost es: seq<Entry>, i: nat)
      returns (ghost q': seq<Host?>)
      requires Roomy() && hosts[..count] == q && Resolving(q, es, i) && i < |q| && q[i] != null
      requires q[i].value == Name(name) && forall a | a in addrs :: !a.Name?
      modifies this`hosts, this`count, hosts
      ensures Roomy() && hosts[..count] == q' && Resolving(q', es + Resolved(name, addrs), i + 1)
      ensures fresh(hosts) || hosts == old(hosts)
      ensures |q| <= |q'| == |es + Resolved(name, addrs)|
      ensures forall h | h in q' :: h == null || h in q || fresh(h)
    {
      hide Resolving, Resolved;
      IsShown(q, es, i);
      q' := PushResolved(name, addrs, q, es, i);
      TakenOut(q', es + Resolved(name, addrs), i);
      assert forall k | 0 <= k < |q| :: q'[k] == q[k];
      q' := q'[i := null];
      hosts[i] := null;
      assert hosts[..count] == q';
    }

    static lemma IsShown(q: seq<Host?>, es: seq<Entry>, i: nat)
      requires i < |q| && Resolving(q, es, i)
      ensures |q| == |es| && q[i] != null && q[i].value == es[i].value
    {
    }

    static lemma TakenOut(q: seq<Host?>, es: seq<Entry>, i: nat)
      requires i < |q| && Resolving(q, es, i) && es[i].value.Name?
      ensures Resolving(q[i := null], es, i + 1)
    {
    }

    static lemma StaysIn(q: seq<Host?>, es: seq<Entry>, i: nat)
      requires i < |q| && Resolving(q, es, i) && !es[i].value.Name?
      ensures Resolving(q, es, i + 1)
    {
    }

    /** `gvm_hosts_resolve`: every name is replaced by its addresses at the end of the list; the names without any are
        reported. If there are new hosts, duplicates are merged. */
    method Resolve(answers: map<string, seq<Addr>>) returns (unresolved: seq<string>)
      requires Valid() && OnlyAddresses(answers)
      modifies this, hosts, Members()
      ensures Valid() && current == 0 && unresolved == Unresolved(old(entries), answers)
      ensures var more := AllResolved(old(entries), answers);
        entries == if more == [] then Addresses(old(entries)) else Dedup(Addresses(old(entries)) + more)
      ensures removed == old(removed) + NameCount(old(entries))
    {
      hide Resolving, Compact, Dedup, Addresses, AllResolved, NameCount, Unresolved, ShowAll, AllDistinct;
      ghost var es, more := entries, AllResolved(entries, answers);
      var resolved, newEntries;
      ghost var q;
      resolved, unresolved, newEntries, q := ResolveNames(answers);
      AllResolvedNoNames(es, answers);
      AppendNoNames(es, more);
      NameCountMono(es, |es|);
      AddressesLeft(q, es + more);
      CompactMembers(q);
      ghost var c := Compact(q);
      assert |q| == |es + more| by {
        SameLength(q, es + more);
      }
      Close(resolved, c, Addresses(es) + more);
      current := 0;
      if newEntries {
        Deduplicate();
      } else {
        assert Addresses(es) + [] == Addresses(es);
      }
    }

    static lemma SameLength(q: seq<Host?>, es: seq<Entry>)
      requires Resolving(q, es, |q|)
      ensures |q| == |es|
    {
    }
  }

  /** After resolution no host is a name any more. */
  lemma ResolvedHasNoNames(es: seq<Entry>, answers: map<string, seq<Addr>>)
    requires OnlyAddresses(answers)
    ensures NoNames(Addresses(es) + AllResolved(es, answers))
    ensures NoNames(Dedup(Addresses(es) + AllResolved(es, answers)))
  {
    var all := Addresses(es) + AllResolved(es, answers);
    ResolutionNoNames(es, answers);
    DedupMeaning(all);
    forall e | e in Dedup(all) ensures !e.value.Name? {
      var k :| 0 <= k < |Dedup(all)| && Dedup(all)[k] == e;
      assert Values(Dedup(all))[k] == e.value;
      FirstsMembers(Values(all), e.value);
      var j :| 0 <= j < |all| && Values(all)[j] == e.value;
      assert all[j] in all;
    }
  }
}
