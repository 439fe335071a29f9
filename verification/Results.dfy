/** Fetching the results of a scan page by page (`openvas_opts.c`): the queue of results that `parseResult`
    builds up, against a server that holds a fixed list. */
module Results {
  import opened Wrappers
  import opened Ordering
  import opened StrOrder

  datatype Nvt = Nvt(id: string, name: string, host: string, port: string, threat: string, severity: string,
                     createTime: string, cve: string)

  /** `cmpNvtHost`. */
  function CmpHost(a: Nvt, b: Nvt): int {
    StrCmp(a.host, b.host)
  }

  lemma CmpHostPreorder(s: set<Nvt>)
    ensures Preorder(CmpHost, s)
  {
    forall x, y, z | x in s && y in s && z in s ensures Lawful(CmpHost, x, y, z) {
      StrCmpLawful(x.host, y.host, z.host);
    }
  }

  /** One node of a result page: not an element, an element with a field missing, or a result. */
  datatype Node = NotElement | Bad | Good(nvt: Nvt)

  /** A reply: no XML at all, or the filtered count (if it is there) and the result nodes. */
  datatype Page = BadXml | Xml(count: Option<int>, nodes: seq<Node>)

  const ROWS := 10

  /** `gvm_result_info`. */
  datatype Info = Info(totalCnt: int, first: int, rows: int, done: bool, results: seq<Nvt>)

  /** `initGvmResultInfo` and `resetGvmResultInfo`. */
  const RESET := Info(-1, 1, ROWS, false, [])

  // ----- what parseResult does

  /** The results in front of the first bad element go into the queue; `ok` if there is no bad one. */
  function PushAll(q: seq<Nvt>, nodes: seq<Node>): (seq<Nvt>, bool)
    decreases |nodes|
  {
    if |nodes| == 0 then (q, true)
    else match nodes[0]
      case NotElement => PushAll(q, nodes[1..])
      case Bad => (q, false)
      case Good(nvt) => PushAll(Insert(q, nvt, CmpHost), nodes[1..])
  }

  function Absorb(info: Info, page: Page): (int, Info) {
    match page
    case BadXml => (-1, info)
    case Xml(count, nodes) =>
      var total := if info.totalCnt < 0 && count.Some? then count.value else info.totalCnt;
      var i := info.(totalCnt := total);
      if total < 0 then (-1, i.(first := |i.results| + 1))
      else if total == 0 then (0, i.(done := true, first := |i.results| + 1))
      else if |nodes| == 0 then (-1, i.(first := |i.results| + 1))
      else
        var (q, ok) := PushAll(i.results, nodes);
        (if ok then 0 else -1, i.(results := q, done := i.done || (ok && total == |q|), first := |q| + 1))
  }

  /** The structure that `parseResult` updates in place. */
  class ResultInfo {
    var totalCnt: int
    var first: int
    var rows: int
    var done: bool
    var results: seq<Nvt>

    ghost function Value(): Info
      reads this
    {
      Info(totalCnt, first, rows, done, results)
    }

    constructor ()
      ensures Value() == RESET
    {
      totalCnt, first, rows, done, results := -1, 1, ROWS, false, [];
    }

    method Reset()
      modifies this
      ensures Value() == RESET
    {
      totalCnt, rows, first := -1, ROWS, 1;
      results := [];
      done := false;
    }

    /** The node loop of `parseResult`; the reasons for a bad element are not told apart. */
    method PushNodes(nodes: seq<Node>) returns (ret: int)
      modifies this`results
      ensures (results, ret == 0) == PushAll(old(results), nodes)
      ensures ret == 0 || ret == -6
    {
      hide Insert;
      ret := 0;
      var i := 0;
      while i < |nodes|
        invariant 0 <= i <= |nodes| && ret == 0
        invariant PushAll(old(results), nodes) == PushAll(results, nodes[i..])
      {
        assert nodes[i..][1..] == nodes[i + 1..];
        match nodes[i] {
          case NotElement =>
          case Bad =>
            ret := -6;
            return;
          case Good(nvt) =>
            results := Insert(results, nvt, CmpHost);
        }
        i := i + 1;
      }
    }

    /** `parseResult`. */
    method ParseResult(page: Page) returns (ret: int)
      modifies this
      ensures (ret, Value()) == Absorb(old(Value()), page)
    {
      hide PushAll;
      if page.BadXml? {
        return -1;
      }
      ret := 0;
      if totalCnt < 0 {
        if page.count.None? {
          ret := -2;
        } else {
          totalCnt := page.count.value;
          if totalCnt < 0 {
            ret := -3;
          }
        }
      }
      if ret == 0 {
        if totalCnt == 0 {
          done := true;
        } else if |page.nodes| == 0 {
          ret := -4;
        } else {
          ret := PushNodes(page.nodes);
          if ret == 0 && totalCnt == |results| {
            done := true;
          }
        }
      }
      first := |results| + 1;
      ret := if ret == 0 then 0 else -1;
    }
  }

  // ----- a server with a fixed list

  function Elements(nodes: seq<Node>): seq<Node> {
    if |nodes| == 0 then []
    else if nodes[0].NotElement? then Elements(nodes[1..])
    else [nodes[0]] + Elements(nodes[1..])
  }

  function Min(a: int, b: int): int {
    if a < b then a else b
  }

  /** A reply to the query for `rows` results from position `first` (counted from 1) of the list `all`. It may be
      no XML, may lack the count, and any of its elements may be damaged; the others are those of the list. */
  ghost predicate Answers(page: Page, all: seq<Nvt>, first: int, rows: int) {
    page.Xml? ==>
      var els := Elements(page.nodes);
      && (page.count.Some? ==> page.count.value == |all|)
      && (1 <= first <= |all| + 1 ==>
            && |els| == Min(rows, |all| - first + 1)
            && forall k | 0 <= k < |els| :: els[k] == Bad || els[k] == Good(all[first - 1 + k]))
  }

  /** A reply without any damage. */
  ghost predicate Intact(page: Page) {
    page.Xml? && page.count.Some? && Bad !in Elements(page.nodes)
  }

  /** Nothing lost and nothing twice: the queue is the stable sort by host of the first results of the list, the
      next query starts right behind them, and `done` says exactly that all are there. */
  ghost predicate Paged(info: Info, all: seq<Nvt>) {
    var n := |info.results|;
    && n <= |all| && StableSortOf(info.results, all[..n], CmpHost)
    && info.first == n + 1 && info.rows == ROWS
    && (info.totalCnt == |all| || (info.totalCnt == -1 && n == 0))
    && (info.done <==> info.totalCnt == |all| == n)
  }

  lemma ResetIsPaged(all: seq<Nvt>)
    ensures Paged(RESET, all)
  {
  }

  lemma {:induction false} PushAllPaged(q: seq<Nvt>, nodes: seq<Node>, all: seq<Nvt>)
    requires |q| <= |all| && StableSortOf(q, all[..|q|], CmpHost)
    requires var els := Elements(nodes);
      && |q| + |els| <= |all|
      && forall k | 0 <= k < |els| :: els[k] == Bad || els[k] == Good(all[|q| + k])
    ensures var (q', ok) := PushAll(q, nodes);
      && |q| <= |q'| <= |q| + |Elements(nodes)|
      && StableSortOf(q', all[..|q'|], CmpHost)
      && (ok <==> Bad !in Elements(nodes))
      && (ok <==> |q'| == |q| + |Elements(nodes)|)
    decreases |nodes|
  {
    hide StableSortOf, Insert;
    if |nodes| > 0 {
      var els := Elements(nodes);
      match nodes[0] {
        case NotElement => PushAllPaged(q, nodes[1..], all);
        case Bad => assert els[0] == Bad;
        case Good(nvt) =>
          assert els[0] == Good(nvt);
          assert nvt == all[|q|] && all[..|q|] + [nvt] == all[..|q| + 1];
          CmpHostPreorder(Elems(all[..|q|]) + {nvt});
          StableSortExtend(q, all[..|q|], nvt, CmpHost);
          InsertLength(q, nvt, CmpHost);
          assert els[1..] == Elements(nodes[1..]);
          assert Bad in els <==> Bad in els[1..];
          forall k | 0 <= k < |els[1..]| ensures els[1..][k] == Bad || els[1..][k] == Good(all[|q| + 1 + k]) {
            assert els[1..][k] == els[k + 1];
          }
          PushAllPaged(Insert(q, nvt, CmpHost), nodes[1..], all);
      }
    }
  }

  lemma InsertLength<T>(s: seq<T>, x: T, cmp: (T, T) -> int)
    ensures |Insert(s, x, cmp)| == |s| + 1
  {
  }

  /** Any reply of the server, damaged as it may be, keeps the books in order. */
  lemma AbsorbPaged(info: Info, page: Page, all: seq<Nvt>)
    requires Paged(info, all) && !info.done
    requires Answers(page, all, info.first, info.rows)
    ensures Paged(Absorb(info, page).1, all)
    ensures |info.results| <= |Absorb(info, page).1.results|
    ensures info.totalCnt >= 0 ==> Absorb(info, page).1.totalCnt >= 0
    ensures Intact(page) ==>
      var (ret, info') := Absorb(info, page);
      ret == 0 && |info'.results| == Min(|all|, |info.results| + ROWS) && info'.totalCnt == |all|
  {
    hide StableSortOf, Elements;
    if page.Xml? {
      var total := if info.totalCnt < 0 && page.count.Some? then page.count.value else info.totalCnt;
      ElementsShorter(page.nodes);
      if total > 0 && |page.nodes| > 0 {
        PushAllPaged(info.results, page.nodes, all);
      }
    }
  }

  lemma ElementsShorter(nodes: seq<Node>)
    ensures |Elements(nodes)| <= |nodes|
  {
  }

  // ----- whole runs

  /** What one round of `backend_query_result` does to the books: no query once all is there, and `None` for a
      query that failed. */
  function Round(info: Info, reply: Option<Page>): Info {
    if info.done || reply.None? then info else Absorb(info, reply.value).1
  }

  function Run(info: Info, replies: seq<Option<Page>>): Info
    decreases |replies|
  {
    if |replies| == 0 then info else Run(Round(info, replies[0]), replies[1..])
  }

  /** Every reply answers the query that was made at its time. */
  ghost predicate Fetching(info: Info, replies: seq<Option<Page>>, all: seq<Nvt>)
    decreases |replies|
  {
    |replies| > 0 ==>
      && (replies[0].Some? ==> Answers(replies[0].value, all, info.first, info.rows))
      && Fetching(Round(info, replies[0]), replies[1..], all)
  }

  ghost function IntactCount(replies: seq<Option<Page>>): nat {
    if |replies| == 0 then 0
    else (if replies[0].Some? && Intact(replies[0].value) then 1 else 0) + IntactCount(replies[1..])
  }

  ghost predicate IntactReply(reply: Option<Page>) {
    reply.Some? && Intact(reply.value)
  }

  lemma RoundPaged(info: Info, reply: Option<Page>, all: seq<Nvt>)
    requires Paged(info, all)
    requires reply.Some? ==> Answers(reply.value, all, info.first, info.rows)
    ensures var info' := Round(info, reply);
      && Paged(info', all)
      && |info.results| <= |info'.results|
      && (info.totalCnt >= 0 ==> info'.totalCnt >= 0)
      && (IntactReply(reply) ==> info'.totalCnt >= 0 && |info'.results| == Min(|all|, |info.results| + ROWS))
  {
    hide Absorb, Answers, StableSortOf, Intact;
    if !info.done && reply.Some? {
      AbsorbPaged(info, reply.value, all);
    }
  }

  /** Any mix of full pages, failed queries and pages that break off part way leaves the queue with a prefix of
      the list, once each; and when enough pages have come through undamaged, with all of it. */
  lemma {:induction false} RunPaged(info: Info, replies: seq<Option<Page>>, all: seq<Nvt>)
    requires Paged(info, all) && Fetching(info, replies, all)
    ensures Paged(Run(info, replies), all)
    ensures |Run(info, replies).results| >= Min(|all|, |info.results| + ROWS * IntactCount(replies))
    ensures info.totalCnt >= 0 || IntactCount(replies) > 0 ==> Run(info, replies).totalCnt >= 0
    decreases |replies|
  {
    if |replies| > 0 {
      hide Paged, Round, Answers, Intact;
      RoundPaged(info, replies[0], all);
      RunPaged(Round(info, replies[0]), replies[1..], all);
    }
  }

  /** Ten results a page: as soon as enough pages have come through undamaged, the fetch is complete. */
  lemma FetchCompletes(replies: seq<Option<Page>>, all: seq<Nvt>)
    requires Fetching(RESET, replies, all)
    requires IntactCount(replies) > 0 && ROWS * IntactCount(replies) >= |all|
    ensures var info := Run(RESET, replies);
      && info.done && StableSortOf(info.results, all, CmpHost)
      && forall i, j | 0 <= i < j < |info.results| :: StrCmp(info.results[i].host, info.results[j].host) <= 0
  {
    ResetIsPaged(all);
    RunPaged(RESET, replies, all);
    var info := Run(RESET, replies);
    assert all[..|info.results|] == all;
    HostsInOrder(info.results, all);
  }

  /** Sorted by host means that the hosts are in the order of `strcmp`. */
  lemma HostsInOrder(results: seq<Nvt>, all: seq<Nvt>)
    requires StableSortOf(results, all, CmpHost)
    ensures forall i, j | 0 <= i < j < |results| :: StrCmp(results[i].host, results[j].host) <= 0
  {
    hide StrCmp;
    forall i, j | 0 <= i < j < |results| ensures StrCmp(results[i].host, results[j].host) <= 0 {
      assert CmpHost(results[i], results[j]) <= 0;
    }
  }
}
