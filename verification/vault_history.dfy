/**
 * The vault history computed by the portfolio dashboard: deposit and withdrawal logs, tagged
 * with their kind and the timestamp of their block, sorted by timestamp and folded into a
 * running wei balance series for the chart; and the deposit and withdrawal totals.
 * Amounts are wei (`bigint` in the dashboard, unbounded here); timestamps are milliseconds.
 */
module VaultHistory {
  import opened Common
  import opened StableSort

  /** A raw `Deposit`/`Withdrawal` log: its `amount` argument and the block that holds it. */
  datatype VaultLog = VaultLog(amount: nat, blockNumber: nat)

  /** A block as `getBlock` returns it; `timestamp` is in seconds. */
  datatype Block = Block(number: nat, timestamp: nat)

  /** An event of the merged history; `timestamp` is in milliseconds. There is no log index. */
  datatype VaultEvent = VaultEvent(kind: EventKind, amount: nat, blockNumber: nat, timestamp: int)

  /**
   * A chart point. `at` is the instant in milliseconds whose 'MMM d' label the dashboard
   * shows; `balance` is the running balance in wei, before its conversion to an ETH float.
   */
  datatype ChartPoint = ChartPoint(at: int, balance: int)

  /** The connected user's deposit and withdrawal totals, in wei. */
  datatype UserTxStats = UserTxStats(totalDeposits: nat, totalWithdrawals: nat)

  /** The synthetic zero point is placed one day before the first event. */
  const BaselineOffsetMs: int := 86400000

  /** Every block of `blocks` with this number has this timestamp. */
  ghost predicate ConsistentBlocks(blocks: seq<Block>) {
    forall i, j :: 0 <= i < |blocks| && 0 <= j < |blocks| && blocks[i].number == blocks[j].number
      ==> blocks[i].timestamp == blocks[j].timestamp
  }

  /** `new Map(blocks.map(block => [block.number, block]))`, keeping only the timestamp. */
  function BlockMap(blocks: seq<Block>): (m: map<nat, nat>)
    ensures forall i :: 0 <= i < |blocks| ==> blocks[i].number in m
    ensures forall n :: n in m ==> exists i :: 0 <= i < |blocks| && blocks[i].number == n
    ensures ConsistentBlocks(blocks) ==>
      forall i :: 0 <= i < |blocks| ==> m[blocks[i].number] == blocks[i].timestamp
  {
    if blocks == [] then map[]
    else
      var last := blocks[|blocks| - 1];
      assert ConsistentBlocks(blocks) ==> ConsistentBlocks(blocks[..|blocks| - 1]);
      BlockMap(blocks[..|blocks| - 1])[last.number := last.timestamp]
  }

  /** The event a log becomes once its block's timestamp (in seconds) is known. */
  function EventOf(log: VaultLog, kind: EventKind, blockSeconds: nat): VaultEvent {
    VaultEvent(kind, log.amount, log.blockNumber, blockSeconds * 1000)
  }

  /**
   * `logs.map(...)` with `blockMap.get(log.blockNumber)!.timestamp`: a log whose block is
   * missing makes the read of `.timestamp` throw, which is `None` here.
   */
  function ToEvents(logs: seq<VaultLog>, kind: EventKind, blockMap: map<nat, nat>): (r: Option<seq<VaultEvent>>)
    ensures r.Some? <==> forall i :: 0 <= i < |logs| ==> logs[i].blockNumber in blockMap
    ensures r.Some? ==> |r.value| == |logs|
    ensures r.Some? ==> forall i :: 0 <= i < |logs| ==>
      r.value[i] == EventOf(logs[i], kind, blockMap[logs[i].blockNumber])
  {
    if logs == [] then Some([])
    else
      var log := logs[|logs| - 1];
      match ToEvents(logs[..|logs| - 1], kind, blockMap)
      case None => None
      case Some(init) =>
        if log.blockNumber in blockMap then Some(init + [EventOf(log, kind, blockMap[log.blockNumber])])
        else None
  }

  /** The sort key of the merged events: `(a, b) => a.timestamp - b.timestamp`. */
  function EventTime(e: VaultEvent): int { e.timestamp }

  /** The deposit events followed by the withdrawal events, before sorting. */
  function Tagged(deposits: seq<VaultLog>, withdrawals: seq<VaultLog>, blockMap: map<nat, nat>): Option<seq<VaultEvent>> {
    match (ToEvents(deposits, Deposit, blockMap), ToEvents(withdrawals, Withdrawal, blockMap))
    case (Some(d), Some(w)) => Some(d + w)
    case _ => None
  }

  /** `[...deposits, ...withdrawals].sort(byTimestamp)`. */
  function Combine(deposits: seq<VaultLog>, withdrawals: seq<VaultLog>, blockMap: map<nat, nat>): Option<seq<VaultEvent>> {
    match Tagged(deposits, withdrawals, blockMap)
    case Some(events) => Some(SortBy(events, EventTime))
    case None => None
  }

  /** What an event does to the running balance. */
  function Signed(e: VaultEvent): int {
    if e.kind == Deposit then e.amount as int else -(e.amount as int)
  }

  /** Deposits minus withdrawals over `events`, from 0, with no lower bound. */
  function Net(events: seq<VaultEvent>): int {
    if events == [] then 0 else Net(events[..|events| - 1]) + Signed(events[|events| - 1])
  }

  /**
   * The chart series, point by point: nothing for no events; otherwise a zero point one day
   * before the first event, then for the k-th event its timestamp and the net of the first k+1.
   */
  function Series(combined: seq<VaultEvent>): seq<ChartPoint> {
    if combined == [] then []
    else
      [ChartPoint(combined[0].timestamp - BaselineOffsetMs, 0)]
      + seq(|combined|, k requires 0 <= k < |combined| => ChartPoint(combined[k].timestamp, Net(combined[..k + 1])))
  }

  /** The fold of the dashboard: a baseline push, then a loop that updates `currentBalance`. */
  method BuildSeries(combined: seq<VaultEvent>) returns (data: seq<ChartPoint>)
    ensures data == Series(combined)
  {
    var currentBalance := 0;
    data := [];
    if |combined| > 0 {
      data := data + [ChartPoint(combined[0].timestamp - BaselineOffsetMs, 0)];
    }
    for i := 0 to |combined|
      invariant currentBalance == Net(combined[..i])
      invariant combined == [] ==> data == []
      invariant combined != [] ==> data == Series(combined)[..i + 1]
    {
      var event := combined[i];
      if event.kind == Deposit {
        currentBalance := currentBalance + event.amount;
      } else {
        currentBalance := currentBalance - event.amount;
      }
      assert combined[..i + 1][..i] == combined[..i];
      data := data + [ChartPoint(event.timestamp, currentBalance)];
    }
    assert combined != [] ==> Series(combined)[..|combined| + 1] == Series(combined);
  }

  /** `logs.reduce((sum, log) => sum + log.args.amount, 0n)`. */
  function TotalAmount(logs: seq<VaultLog>): nat {
    if logs == [] then 0 else TotalAmount(logs[..|logs| - 1]) + logs[|logs| - 1].amount
  }

  /** The totals of `fetchUserTxStats`: two independent sums. */
  function Stats(deposits: seq<VaultLog>, withdrawals: seq<VaultLog>): UserTxStats {
    UserTxStats(TotalAmount(deposits), TotalAmount(withdrawals))
  }

  // ---------------------------------------------------------------------------
  // Properties of the reconstruction

  /** When every log's block was fetched (one `getBlock` per log), tagging cannot fail. */
  lemma {:induction false} FetchedBlocksCoverLogs(deposits: seq<VaultLog>, withdrawals: seq<VaultLog>, blocks: seq<Block>)
    requires |blocks| == |deposits + withdrawals|
    requires forall i :: 0 <= i < |blocks| ==> blocks[i].number == (deposits + withdrawals)[i].blockNumber
    ensures Tagged(deposits, withdrawals, BlockMap(blocks)).Some?
    ensures Combine(deposits, withdrawals, BlockMap(blocks)).Some?
  {
    var m := BlockMap(blocks);
    forall i | 0 <= i < |deposits| ensures deposits[i].blockNumber in m {
      assert blocks[i].number == (deposits + withdrawals)[i].blockNumber;
    }
    forall i | 0 <= i < |withdrawals| ensures withdrawals[i].blockNumber in m {
      assert blocks[|deposits| + i].number == (deposits + withdrawals)[|deposits| + i].blockNumber;
    }
  }

  /**
   * The merged events are a permutation of the tagged deposits followed by the tagged
   * withdrawals, in non-decreasing timestamp order, and events with equal timestamps keep
   * that concatenation order.
   */
  lemma CombineSortedStable(deposits: seq<VaultLog>, withdrawals: seq<VaultLog>, blockMap: map<nat, nat>, t: int)
    requires Tagged(deposits, withdrawals, blockMap).Some?
    ensures Combine(deposits, withdrawals, blockMap).Some?
    ensures var c := Combine(deposits, withdrawals, blockMap).value;
      var tagged := Tagged(deposits, withdrawals, blockMap).value;
      && multiset(c) == multiset(tagged)
      && (forall i, j :: 0 <= i < j < |c| ==> c[i].timestamp <= c[j].timestamp)
      && WithKey(c, EventTime, t) == WithKey(tagged, EventTime, t)
  {
    var tagged := Tagged(deposits, withdrawals, blockMap).value;
    SortBySorted(tagged, EventTime);
    SortByStable(tagged, EventTime, t);
  }

  /** Series points are in time order and the baseline is strictly before the first event. */
  lemma SeriesInTimeOrder(combined: seq<VaultEvent>)
    requires SortedBy(combined, EventTime)
    ensures var s := Series(combined);
      && (forall i, j :: 0 <= i < j < |s| ==> s[i].at <= s[j].at)
      && (combined != [] ==> s[0].at < s[1].at)
  {
    var s := Series(combined);
    forall i, j | 0 <= i < j < |s| ensures s[i].at <= s[j].at {
      if i == 0 {
        assert EventTime(combined[0]) <= EventTime(combined[j - 1]);
      } else {
        assert EventTime(combined[i - 1]) <= EventTime(combined[j - 1]);
      }
    }
  }

  lemma {:induction false} NetAppend(a: seq<VaultEvent>, b: seq<VaultEvent>)
    ensures Net(a + b) == Net(a) + Net(b)
  {
    if b == [] {
      assert a + b == a;
    } else {
      assert (a + b)[..|a + b| - 1] == a + b[..|b| - 1];
      NetAppend(a, b[..|b| - 1]);
    }
  }

  /** Taking one event out of a sequence takes its signed amount out of the net. */
  lemma NetRemove(b: seq<VaultEvent>, i: nat)
    requires i < |b|
    ensures Net(b) == Net(b[..i] + b[i + 1..]) + Signed(b[i])
  {
    var front, x, back := b[..i], b[i], b[i + 1..];
    assert b == (front + [x]) + back;
    NetAppend(front + [x], back);
    NetAppend(front, [x]);
    NetAppend(front, back);
    NetSingle(x);
  }

  lemma NetSingle(x: VaultEvent)
    ensures Net([x]) == Signed(x)
  {
    assert [x][..0] == [];
  }

  /** Taking one element out of a sequence takes one occurrence out of its multiset. */
  lemma MultisetRemove(b: seq<VaultEvent>, i: nat)
    requires i < |b|
    ensures multiset(b[..i] + b[i + 1..]) == multiset(b) - multiset{b[i]}
  {
    assert b == b[..i] + [b[i]] + b[i + 1..];
    assert multiset(b) == multiset(b[..i]) + multiset{b[i]} + multiset(b[i + 1..]);
  }

  /** The net balance does not depend on the order of the events. */
  lemma {:induction false} NetPermutation(a: seq<VaultEvent>, b: seq<VaultEvent>)
    requires multiset(a) == multiset(b)
    ensures Net(a) == Net(b)
    decreases |a|
  {
    if a == [] {
      assert |b| == |multiset(b)| == 0;
    } else {
      var n := |a| - 1;
      var x := a[n];
      assert x in multiset(b);
      var i :| 0 <= i < |b| && b[i] == x;
      MultisetRemove(a, n);
      MultisetRemove(b, i);
      assert a[..n] + a[n + 1..] == a[..n];
      NetPermutation(a[..n], b[..i] + b[i + 1..]);
      NetRemove(b, i);
    }
  }

  /** Tagged deposits add up to the deposit total; tagged withdrawals to minus the withdrawal total. */
  lemma {:induction false} NetOfTagged(logs: seq<VaultLog>, kind: EventKind, blockMap: map<nat, nat>)
    requires ToEvents(logs, kind, blockMap).Some?
    ensures Net(ToEvents(logs, kind, blockMap).value)
         == if kind == Deposit then TotalAmount(logs) as int else -(TotalAmount(logs) as int)
  {
    if logs != [] {
      var init := logs[..|logs| - 1];
      NetOfTagged(init, kind, blockMap);
      var events := ToEvents(logs, kind, blockMap).value;
      assert events[..|events| - 1] == ToEvents(init, kind, blockMap).value;
    }
  }

  lemma SeriesLast(combined: seq<VaultEvent>)
    requires combined != []
    ensures |Series(combined)| == |combined| + 1
    ensures Series(combined)[|combined|].balance == Net(combined)
  {
    assert combined[..|combined|] == combined;
  }

  /**
   * The deposit and withdrawal totals, summed independently, agree with the last point of
   * the folded series built from the same logs.
   */
  lemma TotalsMatchFinalBalance(deposits: seq<VaultLog>, withdrawals: seq<VaultLog>, blockMap: map<nat, nat>)
    requires Combine(deposits, withdrawals, blockMap).Some?
    requires |deposits| + |withdrawals| > 0
    ensures var series := Series(Combine(deposits, withdrawals, blockMap).value);
      var stats := Stats(deposits, withdrawals);
      && |series| == |deposits| + |withdrawals| + 1
      && series[|series| - 1].balance == stats.totalDeposits - stats.totalWithdrawals
  {
    var c := Combine(deposits, withdrawals, blockMap).value;
    CombinedNet(deposits, withdrawals, blockMap);
    SeriesLast(c);
  }

  /** The merged events are one per log, and their net is total deposits minus total withdrawals. */
  lemma CombinedNet(deposits: seq<VaultLog>, withdrawals: seq<VaultLog>, blockMap: map<nat, nat>)
    requires Combine(deposits, withdrawals, blockMap).Some?
    ensures var c := Combine(deposits, withdrawals, blockMap).value;
      && |c| == |deposits| + |withdrawals|
      && Net(c) == TotalAmount(deposits) as int - TotalAmount(withdrawals) as int
  {
    var d := ToEvents(deposits, Deposit, blockMap).value;
    var w := ToEvents(withdrawals, Withdrawal, blockMap).value;
    assert Tagged(deposits, withdrawals, blockMap) == Some(d + w);
    var c := Combine(deposits, withdrawals, blockMap).value;
    assert c == SortBy(d + w, EventTime);
    NetPermutation(c, d + w);
    NetAppend(d, w);
    NetOfTagged(deposits, Deposit, blockMap);
    NetOfTagged(withdrawals, Withdrawal, blockMap);
  }

  /** The fold is never clamped: a withdrawal with no earlier deposit drives the balance below zero. */
  lemma WithdrawalFirstGoesNegative()
    ensures var c := Combine([], [VaultLog(5, 7)], map[7 := 100]);
      c == Some([VaultEvent(Withdrawal, 5, 7, 100000)])
      && Series(c.value) == [ChartPoint(100000 - BaselineOffsetMs, 0), ChartPoint(100000, -5)]
  {
    var e := VaultEvent(Withdrawal, 5, 7, 100000);
    var logs := [VaultLog(5, 7)];
    assert logs[..|logs| - 1] == [];
    assert ToEvents(logs[..|logs| - 1], Withdrawal, map[7 := 100]) == Some([]);
    assert ToEvents(logs, Withdrawal, map[7 := 100]) == Some([] + [e]);
    assert SortBy([e], EventTime) == [e];
    assert [e][..1] == [e];
  }

  /**
   * Deposits of 1 and 0.5 ETH in blocks 10 and 12 and a withdrawal of 0.3 ETH in block 15
   * give the series 0, 1, 1.5, 1.2 ETH and the totals 1.5 and 0.3 ETH.
   */
  lemma ThreeEventScenario()
    ensures var deposits := [VaultLog(1000000000000000000, 10), VaultLog(500000000000000000, 12)];
      var withdrawals := [VaultLog(300000000000000000, 15)];
      var c := Combine(deposits, withdrawals, map[10 := 1000, 12 := 1200, 15 := 1500]);
      && c.Some?
      && Series(c.value) == [ChartPoint(1000000 - BaselineOffsetMs, 0), ChartPoint(1000000, 1000000000000000000),
                             ChartPoint(1200000, 1500000000000000000), ChartPoint(1500000, 1200000000000000000)]
      && Stats(deposits, withdrawals) == UserTxStats(1500000000000000000, 300000000000000000)
  {
    var deposits := [VaultLog(1000000000000000000, 10), VaultLog(500000000000000000, 12)];
    var withdrawals := [VaultLog(300000000000000000, 15)];
    var bm := map[10 := 1000, 12 := 1200, 15 := 1500];
    var e1 := VaultEvent(Deposit, 1000000000000000000, 10, 1000000);
    var e2 := VaultEvent(Deposit, 500000000000000000, 12, 1200000);
    var e3 := VaultEvent(Withdrawal, 300000000000000000, 15, 1500000);
    ScenarioTagged(deposits, withdrawals, bm, e1, e2, e3);
    assert SortedBy([e1, e2, e3], EventTime);
    SortByOrderedInput([e1, e2, e3], EventTime);
    ScenarioSeries(e1, e2, e3);
    ScenarioTotals(deposits, withdrawals);
  }

  lemma ScenarioTotals(deposits: seq<VaultLog>, withdrawals: seq<VaultLog>)
    requires deposits == [VaultLog(1000000000000000000, 10), VaultLog(500000000000000000, 12)]
    requires withdrawals == [VaultLog(300000000000000000, 15)]
    ensures Stats(deposits, withdrawals) == UserTxStats(1500000000000000000, 300000000000000000)
  {
    assert deposits[..1] == [deposits[0]] && deposits[..1][..0] == [] && withdrawals[..0] == [];
    assert TotalAmount(deposits[..1]) == 1000000000000000000;
  }

  lemma ScenarioTagged(deposits: seq<VaultLog>, withdrawals: seq<VaultLog>, bm: map<nat, nat>, e1: VaultEvent, e2: VaultEvent, e3: VaultEvent)
    requires deposits == [VaultLog(1000000000000000000, 10), VaultLog(500000000000000000, 12)]
    requires withdrawals == [VaultLog(300000000000000000, 15)]
    requires bm == map[10 := 1000, 12 := 1200, 15 := 1500]
    requires e1 == VaultEvent(Deposit, 1000000000000000000, 10, 1000000)
    requires e2 == VaultEvent(Deposit, 500000000000000000, 12, 1200000)
    requires e3 == VaultEvent(Withdrawal, 300000000000000000, 15, 1500000)
    ensures Tagged(deposits, withdrawals, bm) == Some([e1, e2, e3])
  {
    var d := ToEvents(deposits, Deposit, bm);
    assert d.Some? && d.value[0] == e1 && d.value[1] == e2;
    assert d.value == [e1, e2];
    var w := ToEvents(withdrawals, Withdrawal, bm);
    assert w.Some? && w.value[0] == e3;
    assert w.value == [e3];
    assert [e1, e2] + [e3] == [e1, e2, e3];
  }

  lemma ScenarioSeries(e1: VaultEvent, e2: VaultEvent, e3: VaultEvent)
    requires e1 == VaultEvent(Deposit, 1000000000000000000, 10, 1000000)
    requires e2 == VaultEvent(Deposit, 500000000000000000, 12, 1200000)
    requires e3 == VaultEvent(Withdrawal, 300000000000000000, 15, 1500000)
    ensures Series([e1, e2, e3]) == [ChartPoint(1000000 - BaselineOffsetMs, 0), ChartPoint(1000000, 1000000000000000000),
                                     ChartPoint(1200000, 1500000000000000000), ChartPoint(1500000, 1200000000000000000)]
  {
    var events := [e1, e2, e3];
    assert events[..1] == [e1] && events[..2] == [e1, e2] && events[..3] == events;
    assert [e1, e2][..1] == [e1] && events[..2] == [e1, e2] && [e1][..0] == [];
    assert Net([e1]) == 1000000000000000000;
    assert Net([e1, e2]) == 1500000000000000000;
    assert Net(events) == 1200000000000000000;
  }
}
