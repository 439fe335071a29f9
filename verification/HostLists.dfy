/** Lists of hosts as values: what deduplication, exclusion and resolution of `hosts.c` mean. */
module HostLists {

  /** What identifies a host. The program compares the printed form of these. */
  datatype Addr = Name(name: string) | V4(addr: nat) | V6(addr: nat)

  datatype Entry = Entry(value: Addr, vhosts: seq<string>)

  function Values(es: seq<Entry>): (r: seq<Addr>)
    ensures |r| == |es| && forall i | 0 <= i < |es| :: r[i] == es[i].value
  {
    seq(|es|, i requires 0 <= i < |es| => es[i].value)
  }

  ghost predicate DistinctValues(es: seq<Entry>) {
    forall i, j | 0 <= i < j < |es| :: es[i].value != es[j].value
  }

  /** The position of a value, or the length if it does not occur. */
  function Position(es: seq<Entry>, v: Addr): (i: nat)
    ensures i <= |es| && (i < |es| ==> es[i].value == v)
    ensures forall j | 0 <= j < i :: es[j].value != v
  {
    if |es| == 0 || es[0].value == v then 0 else 1 + Position(es[1..], v)
  }

  lemma PositionIff(es: seq<Entry>, v: Addr)
    ensures Position(es, v) < |es| <==> v in Values(es)
  {
  }

  // ----- deduplication

  /** A further host: its virtual hosts go to the entry of its value, if there is one. */
  function Merge(es: seq<Entry>, e: Entry): seq<Entry> {
    var i := Position(es, e.value);
    if i < |es| then es[i := es[i].(vhosts := es[i].vhosts + e.vhosts)] else es + [e]
  }

  function Dedup(es: seq<Entry>): seq<Entry> {
    if |es| == 0 then [] else Merge(Dedup(es[..|es| - 1]), es[|es| - 1])
  }

  /** The values in the order of their first occurrence. */
  function Firsts(vs: seq<Addr>): seq<Addr> {
    if |vs| == 0 then []
    else
      var n := |vs| - 1;
      Firsts(vs[..n]) + if vs[n] in vs[..n] then [] else [vs[n]]
  }

  /** The virtual hosts of all entries of a value, in order. */
  function AllVhosts(es: seq<Entry>, v: Addr): seq<string> {
    if |es| == 0 then []
    else
      var n := |es| - 1;
      AllVhosts(es[..n], v) + if es[n].value == v then es[n].vhosts else []
  }

  lemma {:induction false} FirstsMembers(vs: seq<Addr>, v: Addr)
    ensures v in Firsts(vs) <==> v in vs
  {
    if |vs| > 0 {
      var n := |vs| - 1;
      FirstsMembers(vs[..n], v);
      assert vs == vs[..n] + [vs[n]];
    }
  }

  lemma {:induction false} AbsentNoVhosts(es: seq<Entry>, v: Addr)
    requires forall e | e in es :: e.value != v
    ensures AllVhosts(es, v) == []
  {
    if |es| > 0 {
      AbsentNoVhosts(es[..|es| - 1], v);
    }
  }

  lemma {:induction false} MergeValues(es: seq<Entry>, e: Entry)
    requires DistinctValues(es)
    ensures DistinctValues(Merge(es, e))
    ensures Values(Merge(es, e)) == Values(es) + if e.value in Values(es) then [] else [e.value]
    ensures |Merge(es, e)| == |es| + if e.value in Values(es) then 0 else 1
  {
  }

  /** Deduplication keeps one host of each value, in the order of the first occurrences, with the virtual hosts of
      all of them in order. */
  lemma {:induction false} DedupMeaning(es: seq<Entry>)
    ensures DistinctValues(Dedup(es))
    ensures Values(Dedup(es)) == Firsts(Values(es))
    ensures forall k | 0 <= k < |Dedup(es)| :: Dedup(es)[k].vhosts == AllVhosts(es, Dedup(es)[k].value)
    ensures |Dedup(es)| <= |es|
  {
    if |es| > 0 {
      var n := |es| - 1;
      var d, e := Dedup(es[..n]), es[n];
      DedupMeaning(es[..n]);
      assert Values(es)[..n] == Values(es[..n]);
      FirstsMembers(Values(es[..n]), e.value);
      MergeValues(d, e);
      MergeVhosts(d, es, e);
    }
  }

  lemma {:induction false} MergeVhosts(d: seq<Entry>, es: seq<Entry>, e: Entry)
    requires |es| > 0 && e == es[|es| - 1] && DistinctValues(d)
    requires Values(d) == Firsts(Values(es[..|es| - 1]))
    requires forall k | 0 <= k < |d| :: d[k].vhosts == AllVhosts(es[..|es| - 1], d[k].value)
    ensures forall k | 0 <= k < |Merge(d, e)| :: Merge(d, e)[k].vhosts == AllVhosts(es, Merge(d, e)[k].value)
  {
    if Position(d, e.value) == |d| {
      NotBefore(es[..|es| - 1], d, e.value);
      AbsentNoVhosts(es[..|es| - 1], e.value);
    }
  }

  lemma {:induction false} NotBefore(es: seq<Entry>, d: seq<Entry>, v: Addr)
    requires Values(d) == Firsts(Values(es)) && Position(d, v) == |d|
    ensures forall e | e in es :: e.value != v
  {
    FirstsMembers(Values(es), v);
    PositionIff(d, v);
    forall i | 0 <= i < |es| ensures es[i].value != v {
      assert Values(es)[i] in Values(es);
    }
  }

  /** A list without duplicates is left as it is. */
  lemma {:induction false} DedupDistinct(es: seq<Entry>)
    requires DistinctValues(es)
    ensures Dedup(es) == es
  {
    if |es| > 0 {
      var n := |es| - 1;
      DedupDistinct(es[..n]);
      assert es == es[..n] + [es[n]];
    }
  }

  /** Deduplicating twice is deduplicating once. */
  lemma DedupTwice(es: seq<Entry>)
    ensures Dedup(Dedup(es)) == Dedup(es)
  {
    DedupMeaning(es);
    DedupDistinct(Dedup(es));
  }

  // ----- exclusion

  function Keep(es: seq<Entry>, out: set<Addr>): seq<Entry> {
    if |es| == 0 then []
    else
      var n := |es| - 1;
      Keep(es[..n], out) + if es[n].value in out then [] else [es[n]]
  }

  /** `es` with some entries left out, the others in their order. */
  ghost predicate Subsequence(ks: seq<Entry>, es: seq<Entry>)
    decreases |es|
  {
    if |es| == 0 then ks == []
    else
      var n := |es| - 1;
      || Subsequence(ks, es[..n])
      || (|ks| > 0 && ks[|ks| - 1] == es[n] && Subsequence(ks[..|ks| - 1], es[..n]))
  }

  lemma {:induction false} KeepCount(es: seq<Entry>, out: set<Addr>, e: Entry)
    ensures multiset(Keep(es, out))[e] == if e.value in out then 0 else multiset(es)[e]
  {
    if |es| > 0 {
      var n := |es| - 1;
      KeepCount(es[..n], out, e);
      assert es == es[..n] + [es[n]];
      CountSnoc(es[..n], es[n], e);
      CountSnoc(Keep(es[..n], out), es[n], e);
    }
  }

  lemma CountSnoc(es: seq<Entry>, x: Entry, e: Entry)
    ensures multiset(es + [x])[e] == multiset(es)[e] + if x == e then 1 else 0
  {
  }

  lemma {:induction false} KeepInOrder(es: seq<Entry>, out: set<Addr>)
    ensures Subsequence(Keep(es, out), es)
  {
    if |es| > 0 {
      var n := |es| - 1;
      var ks := Keep(es[..n], out);
      KeepInOrder(es[..n], out);
      assert (ks + [es[n]])[..|ks|] == ks && ks + [] == ks;
    }
  }

  /** Exclusion is the ordered difference: it keeps each of the others as often as it was there, and in order. */
  lemma KeepMeaning(es: seq<Entry>, out: set<Addr>)
    ensures forall e :: multiset(Keep(es, out))[e] == if e.value in out then 0 else multiset(es)[e]
    ensures forall e :: e in Keep(es, out) <==> e in es && e.value !in out
    ensures Subsequence(Keep(es, out), es)
  {
    KeepInOrder(es, out);
    hide Keep, Subsequence;
    forall e
      ensures multiset(Keep(es, out))[e] == if e.value in out then 0 else multiset(es)[e]
      ensures e in Keep(es, out) <==> e in es && e.value !in out
    {
      KeepCount(es, out, e);
      assert e in Keep(es, out) <==> multiset(Keep(es, out))[e] > 0;
      assert e in es <==> multiset(es)[e] > 0;
    }
  }

  lemma {:induction false} KeepConcat(a: seq<Entry>, b: seq<Entry>, out: set<Addr>)
    ensures Keep(a + b, out) == Keep(a, out) + Keep(b, out)
  {
    if |b| == 0 {
      assert a + b == a;
    } else {
      assert (a + b)[..|a + b| - 1] == a + b[..|b| - 1];
      KeepConcat(a, b[..|b| - 1], out);
    }
  }

  /** Excluding in two steps is excluding the union. */
  lemma {:induction false} KeepTwice(es: seq<Entry>, a: set<Addr>, b: set<Addr>)
    ensures Keep(Keep(es, a), b) == Keep(es, a + b)
  {
    if |es| > 0 {
      var n := |es| - 1;
      KeepTwice(es[..n], a, b);
      KeepConcat(Keep(es[..n], a), if es[n].value in a then [] else [es[n]], b);
      KeepOne(es[n], b);
      assert Keep([], b) == [];
    }
  }

  lemma KeepOne(e: Entry, out: set<Addr>)
    ensures Keep([e], out) == if e.value in out then [] else [e]
  {
  }

  // ----- resolution

  /** The hosts that are not names, in order. */
  function Addresses(es: seq<Entry>): seq<Entry> {
    if |es| == 0 then []
    else
      var n := |es| - 1;
      Addresses(es[..n]) + if es[n].value.Name? then [] else [es[n]]
  }

  function Lookup(answers: map<string, seq<Addr>>, name: string): seq<Addr> {
    if name in answers then answers[name] else []
  }

  /** One new host for each address of a name; it carries the name as a virtual host. */
  function Resolved(name: string, addrs: seq<Addr>): seq<Entry> {
    if |addrs| == 0 then []
    else Resolved(name, addrs[..|addrs| - 1]) + [Entry(addrs[|addrs| - 1], [name])]
  }

  function AllResolved(es: seq<Entry>, answers: map<string, seq<Addr>>): seq<Entry> {
    if |es| == 0 then []
    else
      var n := |es| - 1;
      AllResolved(es[..n], answers)
      + if es[n].value.Name? then Resolved(es[n].value.name, Lookup(answers, es[n].value.name)) else []
  }

  /** The names without any address; the last one comes first, as the list is built by prepending. */
  function Unresolved(es: seq<Entry>, answers: map<string, seq<Addr>>): seq<string> {
    if |es| == 0 then []
    else
      var n := |es| - 1;
      (if es[n].value.Name? && Lookup(answers, es[n].value.name) == [] then [es[n].value.name] else [])
      + Unresolved(es[..n], answers)
  }

  function NameCount(es: seq<Entry>): nat {
    if |es| == 0 then 0 else NameCount(es[..|es| - 1]) + if es[|es| - 1].value.Name? then 1 else 0
  }

  /** Name resolution gives addresses, never names. */
  predicate OnlyAddresses(answers: map<string, seq<Addr>>) {
    forall n, a | n in answers && a in answers[n] :: !a.Name?
  }

  ghost predicate NoNames(es: seq<Entry>) {
    forall e | e in es :: !e.value.Name?
  }

  lemma {:induction false} ResolvedNoNames(name: string, addrs: seq<Addr>)
    requires forall a | a in addrs :: !a.Name?
    ensures NoNames(Resolved(name, addrs)) && |Resolved(name, addrs)| == |addrs|
  {
    if |addrs| > 0 {
      ResolvedNoNames(name, addrs[..|addrs| - 1]);
    }
  }

  lemma {:induction false} ResolutionNoNames(es: seq<Entry>, answers: map<string, seq<Addr>>)
    requires OnlyAddresses(answers)
    ensures NoNames(Addresses(es) + AllResolved(es, answers))
  {
    if |es| > 0 {
      var n := |es| - 1;
      ResolutionNoNames(es[..n], answers);
      if es[n].value.Name? {
        ResolvedNoNames(es[n].value.name, Lookup(answers, es[n].value.name));
      }
      var rest := Addresses(es[..n]) + AllResolved(es[..n], answers);
      forall e | e in Addresses(es) + AllResolved(es, answers) ensures !e.value.Name? {
        assert e in rest || e == es[n] || (es[n].value.Name? &&
          e in Resolved(es[n].value.name, Lookup(answers, es[n].value.name)));
      }
    }
  }

  lemma {:induction false} AddressesAreKept(es: seq<Entry>, out: set<Addr>)
    requires forall e | e in es :: e.value in out <==> e.value.Name?
    ensures Addresses(es) == Keep(es, out)
  {
    if |es| > 0 {
      var n := |es| - 1;
      assert es[n] in es;
      AddressesAreKept(es[..n], out);
    }
  }

  /** The addresses stay, each as often as it was there, and in order. */
  lemma AddressesMeaning(es: seq<Entry>)
    ensures forall e :: multiset(Addresses(es))[e] == if e.value.Name? then 0 else multiset(es)[e]
    ensures Subsequence(Addresses(es), es)
  {
    hide Addresses, Keep, Subsequence;
    var out := set e | e in es && e.value.Name? :: e.value;
    AddressesAreKept(es, out);
    KeepMeaning(es, out);
    forall e ensures multiset(es)[e] > 0 ==> (e.value in out <==> e.value.Name?) {
      assert multiset(es)[e] > 0 <==> e in es;
    }
  }

  /** A name gives one host for each of its addresses, in the order of the answer, with the name as its virtual host. */
  lemma {:induction false} ResolvedMeaning(name: string, addrs: seq<Addr>)
    ensures |Resolved(name, addrs)| == |addrs|
    ensures forall i | 0 <= i < |addrs| :: Resolved(name, addrs)[i] == Entry(addrs[i], [name])
  {
    if |addrs| > 0 {
      ResolvedMeaning(name, addrs[..|addrs| - 1]);
    }
  }

  lemma ResolutionSnoc(init: seq<Entry>, last: Entry, answers: map<string, seq<Addr>>)
    ensures AllResolved(init + [last], answers) == AllResolved(init, answers) + AllResolved([last], answers)
    ensures Unresolved(init + [last], answers) == Unresolved([last], answers) + Unresolved(init, answers)
  {
    hide Resolved, Lookup;
    assert (init + [last])[..|init|] == init && [last][..0] == [];
    assert AllResolved([], answers) == [] && Unresolved([], answers) == [];
  }

  /** The new hosts follow the order of the names, and the names that are reported stand in the opposite order. */
  lemma {:induction false} ResolutionConcat(a: seq<Entry>, b: seq<Entry>, answers: map<string, seq<Addr>>)
    ensures AllResolved(a + b, answers) == AllResolved(a, answers) + AllResolved(b, answers)
    ensures Unresolved(a + b, answers) == Unresolved(b, answers) + Unresolved(a, answers)
  {
    hide *;
    NothingToResolve(answers);
    if |b| == 0 {
      assert a + b == a;
      return;
    }
    var init, last := b[..|b| - 1], b[|b| - 1];
    assert b == init + [last] && a + b == a + init + [last];
    ResolutionConcat(a, init, answers);
    ResolutionSnoc(a + init, last, answers);
    ResolutionSnoc(init, last, answers);
  }

  lemma NothingToResolve(answers: map<string, seq<Addr>>)
    ensures AllResolved([], answers) == [] && Unresolved([], answers) == []
  {
  }

  /** Each name is either reported as unresolved or stands behind new hosts, never both. */
  lemma {:induction false} NameReported(es: seq<Entry>, answers: map<string, seq<Addr>>, name: string)
    requires exists e :: e in es && e.value == Name(name)
    ensures name in Unresolved(es, answers) <==> Lookup(answers, name) == []
    ensures forall a | a in Lookup(answers, name) :: Entry(a, [name]) in AllResolved(es, answers)
  {
    var n := |es| - 1;
    if es[n].value == Name(name) {
      ResolvedMembers(name, Lookup(answers, name));
      UnresolvedMembers(es[..n], answers, name);
    } else {
      assert es == es[..n] + [es[n]];
      NameReported(es[..n], answers, name);
    }
  }

  lemma {:induction false} UnresolvedMembers(es: seq<Entry>, answers: map<string, seq<Addr>>, name: string)
    ensures name in Unresolved(es, answers) ==> Lookup(answers, name) == []
  {
    if |es| > 0 {
      UnresolvedMembers(es[..|es| - 1], answers, name);
    }
  }

  lemma {:induction false} ResolvedMembers(name: string, addrs: seq<Addr>)
    ensures forall a | a in addrs :: Entry(a, [name]) in Resolved(name, addrs)
  {
    if |addrs| > 0 {
      ResolvedMembers(name, addrs[..|addrs| - 1]);
      forall a | a in addrs ensures Entry(a, [name]) in Resolved(name, addrs) {
        if a != addrs[|addrs| - 1] {
          assert a in addrs[..|addrs| - 1];
        }
      }
    }
  }

  function ValueSet(es: seq<Entry>): set<Addr> {
    set e | e in es :: e.value
  }

  // ----- how the lists grow

  lemma {:induction false} AppendNoNames(a: seq<Entry>, b: seq<Entry>)
    requires NoNames(b)
    ensures Addresses(a + b) == Addresses(a) + b && NameCount(a + b) == NameCount(a)
  {
    if |b| == 0 {
      assert a + b == a;
    } else {
      assert (a + b)[..|a + b| - 1] == a + b[..|b| - 1];
      assert b == b[..|b| - 1] + [b[|b| - 1]];
      AppendNoNames(a, b[..|b| - 1]);
    }
  }

  lemma {:induction false} AllResolvedNoNames(es: seq<Entry>, answers: map<string, seq<Addr>>)
    requires OnlyAddresses(answers)
    ensures NoNames(AllResolved(es, answers))
  {
    if |es| > 0 {
      var n := |es| - 1;
      AllResolvedNoNames(es[..n], answers);
      if es[n].value.Name? {
        ResolvedNoNames(es[n].value.name, Lookup(answers, es[n].value.name));
      }
    }
  }

  lemma {:induction false} NameCountMono(es: seq<Entry>, i: nat)
    requires i <= |es|
    ensures NameCount(es[..i]) <= NameCount(es) <= |es|
    ensures |Addresses(es)| == |es| - NameCount(es)
  {
    if i < |es| {
      assert es[..|es| - 1][..i] == es[..i];
      NameCountMono(es[..|es| - 1], i);
    } else if |es| > 0 {
      assert es[..i] == es;
      NameCountMono(es[..|es| - 1], |es| - 1);
    }
  }
}
