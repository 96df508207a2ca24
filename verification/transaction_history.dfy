/**
 * The per-user ledger of the transaction history panel: the user's deposit and withdrawal
 * logs become transactions tagged with their kind, and the two lists are concatenated and
 * sorted newest first by block number.
 */
module TransactionHistory {
  import opened Common
  import opened StableSort

  /** A raw log of the user's: its transaction hash, `amount` argument (wei) and block number. */
  datatype TxLog = TxLog(hash: string, amount: nat, blockNumber: nat)

  /** One ledger row. `amount` is in wei (the panel keeps `formatEther(amount)`). */
  datatype Transaction = Transaction(hash: string, kind: EventKind, amount: nat, blockNumber: nat)

  /** The row a log of the given stream becomes. */
  function TransactionOf(log: TxLog, kind: EventKind): Transaction {
    Transaction(log.hash, kind, log.amount, log.blockNumber)
  }

  /** `logs.map(log => ({ hash, type, amount, blockNumber }))`. */
  function ToTransactions(logs: seq<TxLog>, kind: EventKind): (r: seq<Transaction>)
    ensures |r| == |logs|
    ensures forall i :: 0 <= i < |logs| ==> r[i] == TransactionOf(logs[i], kind)
  {
    if logs == [] then [] else [TransactionOf(logs[0], kind)] + ToTransactions(logs[1..], kind)
  }

  /**
   * The sort key of `(a, b) => Number(b.blockNumber) - Number(a.blockNumber)`: ascending in
   * this key is descending in block number.
   */
  function NewestFirst(t: Transaction): int { -(t.blockNumber as int) }

  /** The deposits' rows followed by the withdrawals' rows. */
  function Concatenated(deposits: seq<TxLog>, withdrawals: seq<TxLog>): seq<Transaction> {
    ToTransactions(deposits, Deposit) + ToTransactions(withdrawals, Withdrawal)
  }

  /** `[...deposits, ...withdrawals].sort(newestFirst)`. */
  function Ledger(deposits: seq<TxLog>, withdrawals: seq<TxLog>): seq<Transaction> {
    SortBy(Concatenated(deposits, withdrawals), NewestFirst)
  }

  /**
   * The ledger holds exactly the mapped rows, one per log with none added or dropped; it is
   * newest first; and the rows sharing any one sort key `k` (one block) keep the
   * concatenation order (deposits before withdrawals, each in log order).
   */
  lemma LedgerOrder(deposits: seq<TxLog>, withdrawals: seq<TxLog>, k: int)
    ensures multiset(Ledger(deposits, withdrawals)) == multiset(Concatenated(deposits, withdrawals))
    ensures |Ledger(deposits, withdrawals)| == |deposits| + |withdrawals|
    ensures var l := Ledger(deposits, withdrawals);
      forall i, j :: 0 <= i < j < |l| ==> l[i].blockNumber >= l[j].blockNumber
    ensures WithKey(Ledger(deposits, withdrawals), NewestFirst, k)
         == WithKey(Concatenated(deposits, withdrawals), NewestFirst, k)
  {
    var c := Concatenated(deposits, withdrawals);
    SortBySorted(c, NewestFirst);
    DescendingBlocks(SortBy(c, NewestFirst));
    SortByStable(c, NewestFirst, k);
  }

  /** Ascending in the sort key is descending in block number. */
  lemma DescendingBlocks(l: seq<Transaction>)
    requires SortedBy(l, NewestFirst)
    ensures forall i, j :: 0 <= i < j < |l| ==> l[i].blockNumber >= l[j].blockNumber
  {
    forall i, j | 0 <= i < j < |l| ensures l[i].blockNumber >= l[j].blockNumber {
      assert NewestFirst(l[i]) <= NewestFirst(l[j]);
    }
  }

  /** Every row of the ledger is the row of one of the user's logs, tagged by its stream. */
  lemma LedgerRowsComeFromLogs(deposits: seq<TxLog>, withdrawals: seq<TxLog>, row: Transaction)
    requires row in Ledger(deposits, withdrawals)
    ensures (exists i :: 0 <= i < |deposits| && row == TransactionOf(deposits[i], Deposit))
         || (exists i :: 0 <= i < |withdrawals| && row == TransactionOf(withdrawals[i], Withdrawal))
  {
    var d, w := ToTransactions(deposits, Deposit), ToTransactions(withdrawals, Withdrawal);
    var c := d + w;
    assert multiset(Ledger(deposits, withdrawals)) == multiset(c);
    assert row in multiset(c);
    var k :| 0 <= k < |c| && c[k] == row;
    if k < |d| {
      assert c[k] == d[k];
      assert 0 <= k < |deposits| && row == TransactionOf(deposits[k], Deposit);
    } else {
      assert c[k] == w[k - |d|];
      assert 0 <= k - |d| < |withdrawals| && row == TransactionOf(withdrawals[k - |d|], Withdrawal);
    }
  }

  /** The history panel's state. */
  class HistoryPanel {
    var transactions: seq<Transaction>
    var loading: bool

    /** `useState<Transaction[]>([])` and `useState(true)`. */
    constructor ()
      ensures transactions == [] && loading
    {
      transactions := [];
      loading := true;
    }

    /**
     * `fetchHistory`: without a user address or a client nothing changes; otherwise the
     * panel ends not loading, with the new ledger after a successful read and the previous
     * rows after a failed one.
     */
    method FetchHistory(userAddress: Option<string>, hasClient: bool, read: ChainRead<(seq<TxLog>, seq<TxLog>)>)
      modifies this
      ensures !Truthy(userAddress) || !hasClient ==>
        transactions == old(transactions) && loading == old(loading)
      ensures Truthy(userAddress) && hasClient ==>
        !loading && transactions == match read
                                    case ReadOk(logs) => Ledger(logs.0, logs.1)
                                    case ReadFailed => old(transactions)
    {
      if !Truthy(userAddress) || !hasClient {
        return;
      }
      loading := true;
      match read {
        case ReadOk(logs) =>
          transactions := Ledger(logs.0, logs.1);
        case ReadFailed =>
      }
      loading := false;
    }
  }
}
