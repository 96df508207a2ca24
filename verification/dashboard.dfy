/**
 * The portfolio dashboard's own state and decisions: the chart data and the user's totals it
 * keeps in React state (updated by `fetchVaultHistory` and `fetchUserTxStats`), the checks
 * `handleWithdraw` makes before submitting a withdrawal, and the fee `GasFeeEstimator` shows.
 */
module PortfolioDashboard {
  import opened Common
  import opened VaultHistory

  /** What the chain reads of `fetchVaultHistory` return: every log of both kinds and one block per log. */
  datatype HistoryRead = HistoryRead(deposits: seq<VaultLog>, withdrawals: seq<VaultLog>, blocks: seq<Block>)

  /** The user's logs of both kinds, as the filtered reads of `fetchUserTxStats` return them. */
  datatype UserLogsRead = UserLogsRead(deposits: seq<VaultLog>, withdrawals: seq<VaultLog>)

  /** The chart series a successful history read produces, if tagging finds every block. */
  function HistorySeries(r: HistoryRead): Option<seq<ChartPoint>> {
    match Combine(r.deposits, r.withdrawals, BlockMap(r.blocks))
    case Some(combined) => Some(Series(combined))
    case None => None
  }

  /** The dashboard component's state that the fetches write. */
  class Dashboard {
    var chartData: seq<ChartPoint>
    var userTxStats: Option<UserTxStats>

    /** `useState<ChartDataPoint[]>([])` and `useState<UserTxStats | null>(null)`. */
    constructor ()
      ensures chartData == [] && userTxStats == None
    {
      chartData := [];
      userTxStats := None;
    }

    /**
     * `fetchVaultHistory`: without a client nothing happens; a failed read, or a log whose
     * block is missing from the block map, only logs an error and leaves the chart as it was;
     * otherwise the chart is replaced by the series of the merged events.
     */
    method FetchVaultHistory(hasClient: bool, read: ChainRead<HistoryRead>)
      modifies this
      ensures userTxStats == old(userTxStats)
      ensures !hasClient || read.ReadFailed? ==> chartData == old(chartData)
      ensures hasClient && read.ReadOk? ==>
        chartData == match HistorySeries(read.value)
                     case Some(series) => series
                     case None => old(chartData)
    {
      if !hasClient {
        return;
      }
      match read
      case ReadFailed =>
      case ReadOk(r) =>
        var blockMap := BlockMap(r.blocks);
        match Combine(r.deposits, r.withdrawals, blockMap)
        case None =>
        case Some(combined) =>
          var data := BuildSeries(combined);
          chartData := data;
    }

    /**
     * `fetchUserTxStats`: without a client or an address nothing happens; a failed read
     * resets the totals to null; otherwise they become the two sums.
     */
    method FetchUserTxStats(hasClient: bool, address: Option<string>, read: ChainRead<UserLogsRead>)
      modifies this
      ensures chartData == old(chartData)
      ensures !hasClient || !Truthy(address) ==> userTxStats == old(userTxStats)
      ensures hasClient && Truthy(address) ==>
        userTxStats == match read
                       case ReadOk(r) => Some(Stats(r.deposits, r.withdrawals))
                       case ReadFailed => None
    {
      if !hasClient || !Truthy(address) {
        return;
      }
      match read
      case ReadOk(r) =>
        var totalDeposits := TotalAmount(r.deposits);
        var totalWithdrawals := TotalAmount(r.withdrawals);
        userTxStats := Some(UserTxStats(totalDeposits, totalWithdrawals));
      case ReadFailed =>
        userTxStats := None;
    }
  }

  /** The outcome of `handleWithdraw` once the amount has been parsed to wei. */
  datatype WithdrawDecision = InsufficientBalance | GasFeeNotice | Submit(amount: nat)

  /**
   * The bigint checks of `handleWithdraw`. `vaultBalance` is the user's vault balance and
   * `walletBalance` the wallet's, each `None` while still unknown.
   */
  function WithdrawGate(requested: nat, vaultBalance: Option<nat>, walletBalance: Option<nat>): (d: WithdrawDecision)
    ensures d == InsufficientBalance <==> vaultBalance.Some? && requested > vaultBalance.value
    ensures d == GasFeeNotice <==>
      vaultBalance.Some? && requested == vaultBalance.value && walletBalance == Some(0)
    ensures d.Submit? ==> d.amount == requested
  {
    if vaultBalance.Some? && requested > vaultBalance.value then InsufficientBalance
    else if vaultBalance.Some? && requested == vaultBalance.value && walletBalance == Some(0) then GasFeeNotice
    else Submit(requested)
  }

  /**
   * A submitted withdrawal never exceeds a known vault balance, and withdrawing all of it is
   * only submitted when the wallet is not known to be empty.
   */
  lemma {:induction false} SubmittedWithdrawalIsCovered(requested: nat, vaultBalance: Option<nat>, walletBalance: Option<nat>)
    requires WithdrawGate(requested, vaultBalance, walletBalance).Submit?
    requires vaultBalance.Some?
    ensures requested <= vaultBalance.value
    ensures requested == vaultBalance.value ==> walletBalance != Some(0)
  {
  }

  /**
   * `GasFeeEstimator`'s fee in wei: the product of the gas estimate and the gas price, shown
   * only when both are present and non-zero (`0n` is falsy).
   */
  function EstimatedFee(gasEstimate: Option<nat>, gasPrice: Option<nat>): (fee: Option<nat>)
    ensures fee.Some? <==> gasEstimate.Some? && gasEstimate.value != 0 && gasPrice.Some? && gasPrice.value != 0
    ensures fee.Some? ==> fee.value == gasEstimate.value * gasPrice.value
    ensures fee.Some? ==> fee.value >= gasEstimate.value && fee.value >= gasPrice.value
  {
    if gasEstimate.Some? && gasEstimate.value != 0 && gasPrice.Some? && gasPrice.value != 0 then
      var e, p := gasEstimate.value, gasPrice.value;
      assert e * p >= e * 1 && e * p >= 1 * p;
      Some(e * p)
    else None
  }
}
