/** The result file of a report: one line for each result, printed into a buffer of fixed size (`openvas_opts.c`). */
module ResultText {
  import opened Text
  import opened Ordering
  import opened Results
  import opened TaskRecord

  /** `MAX_COMM_SIZE`: nothing is printed into a buffer with no more room than this. */
  const MARGIN := 256

  /** `RESULT_NVT_INFO_FORMAT`. */
  function NvtLine(n: Nvt): (line: string)
    ensures |line| > 0
  {
    "|" + n.host + "|" + n.name + "|" + n.threat + "|" + n.severity + "|" + n.port + "|" + n.cve + "|" + n.createTime + "|\n"
  }

  /** Host, name, threat, severity, port, score and time stand between the bars, in this order. */
  lemma LineFields(n: Nvt)
    requires Free(n.host, '|') && Free(n.name, '|') && Free(n.threat, '|') && Free(n.severity, '|')
    requires Free(n.port, '|') && Free(n.cve, '|') && Free(n.createTime, '|')
    ensures Split(NvtLine(n), '|') == ["", n.host, n.name, n.threat, n.severity, n.port, n.cve, n.createTime, "\n"]
  {
    LineEnds();
    NestedLine(n);
    hide *;
    var e := "\n";
    SplitCons(n.createTime, '|', e);
    SplitCons(n.cve, '|', n.createTime + "|" + e);
    SplitCons(n.port, '|', n.cve + "|" + (n.createTime + "|" + e));
    SplitCons(n.severity, '|', n.port + "|" + (n.cve + "|" + (n.createTime + "|" + e)));
    SplitCons(n.threat, '|', n.severity + "|" + (n.port + "|" + (n.cve + "|" + (n.createTime + "|" + e))));
    SplitCons(n.name, '|', n.threat + "|" + (n.severity + "|" + (n.port + "|" + (n.cve + "|" + (n.createTime + "|" + e)))));
    SplitCons(n.host, '|',
      n.name + "|" + (n.threat + "|" + (n.severity + "|" + (n.port + "|" + (n.cve + "|" + (n.createTime + "|" + e))))));
    SplitCons("", '|', n.host + "|" + (n.name + "|" + (n.threat + "|" + (n.severity + "|" + (n.port + "|"
                       + (n.cve + "|" + (n.createTime + "|" + e)))))));
  }

  lemma LineEnds()
    ensures Free("", '|') && Split("\n", '|') == ["\n"]
  {
    SplitFree("\n", '|');
  }

  lemma NestedLine(n: Nvt)
    ensures NvtLine(n) == "" + "|" + (n.host + "|" + (n.name + "|" + (n.threat + "|" + (n.severity + "|" + (n.port + "|"
                          + (n.cve + "|" + (n.createTime + "|" + "\n")))))))
  {
  }

  function NvtText(ns: seq<Nvt>): string {
    if |ns| == 0 then "" else NvtText(ns[..|ns| - 1]) + NvtLine(ns[|ns| - 1])
  }

  /** The lines stand in the order of the results. */
  lemma {:induction false} TextConcat(a: seq<Nvt>, b: seq<Nvt>)
    ensures NvtText(a + b) == NvtText(a) + NvtText(b)
  {
    hide NvtLine;
    if |b| == 0 {
      assert a + b == a;
    } else {
      var n := |b| - 1;
      assert (a + b)[..|a + b| - 1] == a + b[..n];
      TextConcat(a, b[..n]);
    }
  }

  /** The result at `i` meets more room than the margin, and fits. */
  predicate RoomAt(ns: seq<Nvt>, i: nat, capacity: nat)
    requires i < |ns|
  {
    |NvtText(ns[..i])| + MARGIN < capacity && |NvtText(ns[..i + 1])| < capacity
  }

  /** The results can be printed one after the other. */
  predicate Printable(ns: seq<Nvt>, capacity: nat) {
    forall i | 0 <= i < |ns| :: RoomAt(ns, i, capacity)
  }

  lemma {:induction false} PrefixShorter(ns: seq<Nvt>, i: nat)
    requires i <= |ns|
    ensures |NvtText(ns[..i])| <= |NvtText(ns)|
  {
    hide NvtLine;
    if i == |ns| {
      assert ns[..i] == ns;
    } else {
      assert ns[..|ns| - 1][..i] == ns[..i];
      PrefixShorter(ns[..|ns| - 1], i);
    }
  }

  /** A list can be printed if and only if there is room for all of it and the margin is left before the last result. */
  lemma PrintableIff(ns: seq<Nvt>, capacity: nat)
    ensures Printable(ns, capacity) <==>
      ns == [] || (|NvtText(ns[..|ns| - 1])| + 256 < capacity && |NvtText(ns)| < capacity)
  {
    hide NvtText;
    if ns != [] {
      var n := |ns| - 1;
      assert ns[..n + 1] == ns;
      assert RoomAt(ns, n, capacity) <==> |NvtText(ns[..n])| + MARGIN < capacity && |NvtText(ns)| < capacity;
      forall i | 0 <= i < |ns| && RoomAt(ns, n, capacity) ensures RoomAt(ns, i, capacity) {
        assert ns[..n][..i] == ns[..i];
        PrefixShorter(ns[..n], i);
        PrefixShorter(ns, i + 1);
      }
    }
  }

  /** `printNvtInfo`. */
  method PrintNvtInfo(buffer: Buffer, n: Nvt) returns (ret: int)
    requires |buffer.text| <= buffer.capacity
    modifies buffer
    ensures |buffer.text| <= buffer.capacity
    ensures ret == 0 <==> |old(buffer.text)| + MARGIN < buffer.capacity
                          && |old(buffer.text)| + |NvtLine(n)| < buffer.capacity
    ensures buffer.text == old(buffer.text) + if ret == 0 then NvtLine(n) else ""
  {
    hide NvtLine;
    ret := -1;
    var size := buffer.capacity - |buffer.text|;
    if MARGIN < size {
      var cnt := |NvtLine(n)|;
      if 0 < cnt && cnt < size {
        buffer.text := buffer.text + NvtLine(n);
        ret := 0;
      }
    }
  }

  lemma NextLine(ns: seq<Nvt>, i: nat)
    requires i < |ns|
    ensures NvtText(ns[..i + 1]) == NvtText(ns[..i]) + NvtLine(ns[i])
  {
    hide NvtLine;
    assert ns[..i + 1][..i] == ns[..i];
  }

  /** `printNvts`: the `for_each` over the results. */
  method PrintNvts(buffer: Buffer, queue: seq<Nvt>) returns (ret: int)
    modifies buffer
    ensures ret == 0 <==> Printable(queue, buffer.capacity)
    ensures ret == 0 ==> buffer.text == NvtText(queue)
  {
    hide NvtLine, NvtText;
    buffer.text, ret := "", 0;
    assert queue[..0] == [] && NvtText([]) == "" by {
      NoText();
    }
    var i := 0;
    while i < |queue|
      invariant 0 <= i <= |queue| && ret == 0
      invariant buffer.text == NvtText(queue[..i]) && |buffer.text| <= buffer.capacity
      invariant forall k | 0 <= k < i :: RoomAt(queue, k, buffer.capacity)
    {
      NextLine(queue, i);
      assert RoomAt(queue, i, buffer.capacity) <==>
        |buffer.text| + MARGIN < buffer.capacity && |buffer.text| + |NvtLine(queue[i])| < buffer.capacity;
      ret := PrintNvtInfo(buffer, queue[i]);
      if ret != 0 {
        return;
      }
      i := i + 1;
    }
    assert queue[..i] == queue;
  }

  lemma NoText()
    ensures NvtText([]) == ""
  {
  }

  // ----- the whole list of a report

  /** The results of a report in the order of their hosts, and otherwise as the server lists them. */
  function ByHost(all: seq<Nvt>): seq<Nvt> {
    if |all| == 0 then [] else Insert(ByHost(all[..|all| - 1]), all[|all| - 1], CmpHost)
  }

  lemma {:induction false} ByHostSorts(all: seq<Nvt>)
    ensures StableSortOf(ByHost(all), all, CmpHost)
  {
    hide *;
    ByHostIs(all);
    if |all| > 0 {
      var init, last := all[..|all| - 1], all[|all| - 1];
      ByHostSorts(init);
      CmpHostPreorder(Elems(init) + {last});
      StableSortExtend(ByHost(init), init, last, CmpHost);
      assert init + [last] == all;
    }
  }

  lemma ByHostIs(all: seq<Nvt>)
    ensures all == [] ==> StableSortOf(ByHost(all), all, CmpHost)
    ensures all != [] ==> ByHost(all) == Insert(ByHost(all[..|all| - 1]), all[|all| - 1], CmpHost)
  {
    hide Insert;
  }

  /** What has been fetched when all is there. */
  lemma DoneIsByHost(info: Info, all: seq<Nvt>)
    requires Paged(info, all) && info.done
    ensures info.results == ByHost(all)
  {
    hide StableSortOf, ByHost;
    assert all[..|info.results|] == all;
    ByHostSorts(all);
    CmpHostPreorder(Elems(all));
    StableSortUnique(info.results, ByHost(all), all, CmpHost);
  }

  lemma {:induction false} TextAtLeast(ns: seq<Nvt>)
    ensures |NvtText(ns)| >= 9 * |ns|
  {
    if |ns| > 0 {
      TextAtLeast(ns[..|ns| - 1]);
    }
  }

  /** A report whose results cannot be printed. */
  predicate Oversized(all: seq<Nvt>, capacity: nat) {
    !Printable(ByHost(all), capacity)
  }

  /** However short the results are, too many of them cannot be printed. */
  lemma ManyAreOversized(all: seq<Nvt>, capacity: nat)
    requires all != [] && 9 * |all| >= capacity
    ensures Oversized(all, capacity)
  {
    hide NvtText, ByHost, Printable;
    ByHostSorts(all);
    SameLength(ByHost(all), all);
    PrintableIff(ByHost(all), capacity);
    TextAtLeast(ByHost(all));
  }

  lemma SameLength<T>(s: seq<T>, t: seq<T>)
    requires multiset(s) == multiset(t)
    ensures |s| == |t|
  {
    assert |multiset(s)| == |s| && |multiset(t)| == |t|;
  }
}
