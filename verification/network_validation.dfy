/**
 * `useNetworkValidation` and `useNetworkGuardedAction`: whether the wallet is on Base
 * mainnet, the display name of the current chain, and an action wrapper that refuses to run
 * off Base and asks the wallet to switch instead.
 */
module NetworkValidation {
  import opened Common

  /** `SUPPORTED_CHAIN_ID`: Base mainnet. */
  const SupportedChainId: nat := 8453

  /** `base.id`, the chain `switchToBase` asks the wallet for. */
  const BaseChainId: nat := 8453

  /** `isCorrectNetwork`: an unconnected wallet is not blocked; a connected one must be on the supported chain. */
  function IsCorrectNetwork(isConnected: bool, chainId: nat): bool {
    if !isConnected then true else chainId == SupportedChainId
  }

  /** `isWrongNetwork`: only a connected wallet can be on the wrong chain. */
  function IsWrongNetwork(isConnected: bool, chainId: nat): bool {
    if !isConnected then false else chainId != SupportedChainId
  }

  /** The two flags are each other's negation in every state, and the wrong network needs a connected wallet off chain 8453. */
  lemma WrongIsNotCorrect(isConnected: bool, chainId: nat)
    ensures IsWrongNetwork(isConnected, chainId) == !IsCorrectNetwork(isConnected, chainId)
    ensures IsWrongNetwork(isConnected, chainId) <==> isConnected && chainId != 8453
  {
  }

  /** The decimal digit of `d`. */
  function DigitChar(d: nat): char
    requires d < 10
  {
    ['0', '1', '2', '3', '4', '5', '6', '7', '8', '9'][d]
  }

  /** The digit character of `d` stands for `d`. */
  lemma DigitValue(d: nat)
    requires d < 10
    ensures DigitChar(d) as int - '0' as int == d
  {
  }

  /** `${n}` for a non-negative integer: its decimal digits, most significant first, without leading zeros. */
  function Decimal(n: nat): (s: string)
    ensures |s| >= 1
    ensures forall i :: 0 <= i < |s| ==> '0' <= s[i] <= '9'
  {
    if n < 10 then [DigitChar(n)] else Decimal(n / 10) + [DigitChar(n % 10)]
  }

  /** The value of a string of decimal digits. */
  function ParseDecimal(s: string): nat
    requires forall i :: 0 <= i < |s| ==> '0' <= s[i] <= '9'
  {
    if s == [] then 0 else ParseDecimal(s[..|s| - 1]) * 10 + (s[|s| - 1] as int - '0' as int)
  }

  /** Reading the decimal form back gives the number. */
  lemma {:induction false} DecimalRoundTrip(n: nat)
    ensures ParseDecimal(Decimal(n)) == n
  {
    var s := Decimal(n);
    DigitValue(n % 10);
    if n >= 10 {
      DecimalRoundTrip(n / 10);
      assert s[..|s| - 1] == Decimal(n / 10);
      assert s[|s| - 1] == DigitChar(n % 10);
      assert ParseDecimal(s) == (n / 10) * 10 + n % 10;
    } else {
      assert s == [DigitChar(n)] && s[..0] == [];
    }
  }

  /** `networkName`: the fixed names of six chains, otherwise "Chain " and the decimal id. */
  function NetworkName(chainId: nat): string {
    match chainId
    case 1 => "Ethereum"
    case 8453 => "Base"
    case 84532 => "Base Sepolia"
    case 10 => "Optimism"
    case 42161 => "Arbitrum"
    case 137 => "Polygon"
    case _ => "Chain " + Decimal(chainId)
  }

  predicate IsNamedChain(chainId: nat) {
    chainId in {1, 8453, 84532, 10, 42161, 137}
  }

  /** An unnamed chain is shown by its id, so two different unnamed chains never share a name. */
  lemma UnnamedChainsDistinct(a: nat, b: nat)
    requires !IsNamedChain(a) && !IsNamedChain(b)
    requires NetworkName(a) == NetworkName(b)
    ensures a == b
  {
    assert Decimal(a) == NetworkName(a)[6..];
    assert Decimal(b) == NetworkName(b)[6..];
    DecimalRoundTrip(a);
    DecimalRoundTrip(b);
  }

  /** An unnamed chain's name never collides with a fixed name: it always starts with "Chain ". */
  lemma UnnamedChainShownById(chainId: nat)
    requires !IsNamedChain(chainId)
    ensures NetworkName(chainId)[..6] == "Chain "
    ensures forall k :: IsNamedChain(k) ==> NetworkName(k) != NetworkName(chainId)
  {
    var name := NetworkName(chainId);
    assert name[..6] == "Chain ";
    assert name[0] == 'C';
    forall k | IsNamedChain(k) ensures NetworkName(k) != name {
      assert NetworkName(k)[0] != 'C';
    }
  }

  /** What one call of the guarded wrapper does. */
  datatype GuardOutcome<+R> = GuardOutcome(
    actionInvoked: bool,
    onWrongNetworkCalled: bool,
    switchRequestedTo: Option<nat>,
    result: Option<R>)

  /**
   * The wrapper `useNetworkGuardedAction` returns, called with `args`: off the correct network
   * it calls `onWrongNetwork` (when given), asks for Base and returns `undefined`; otherwise
   * it returns `action(args)`. The outcome of the switch request is swallowed.
   */
  function GuardedCall<A, R>(isConnected: bool, chainId: nat, action: A -> R, hasOnWrongNetwork: bool, args: A)
    : (o: GuardOutcome<R>)
    ensures o.actionInvoked <==> IsCorrectNetwork(isConnected, chainId)
    ensures o.actionInvoked ==> o.result == Some(action(args)) && o.switchRequestedTo == None && !o.onWrongNetworkCalled
    ensures !o.actionInvoked ==>
      o.result == None && o.switchRequestedTo == Some(BaseChainId) && o.onWrongNetworkCalled == hasOnWrongNetwork
  {
    if !IsCorrectNetwork(isConnected, chainId) then
      GuardOutcome(false, hasOnWrongNetwork, Some(BaseChainId), None)
    else
      GuardOutcome(true, false, None, Some(action(args)))
  }

  /** A switch request, once granted, puts the wallet on the correct network, so the next call runs the action. */
  lemma SwitchFixesNetwork<A, R>(chainId: nat, action: A -> R, hasOnWrongNetwork: bool, args: A)
    requires GuardedCall(true, chainId, action, hasOnWrongNetwork, args).switchRequestedTo.Some?
    ensures var target := GuardedCall(true, chainId, action, hasOnWrongNetwork, args).switchRequestedTo.value;
      IsCorrectNetwork(true, target) && GuardedCall(true, target, action, hasOnWrongNetwork, args).actionInvoked
    ensures chainId != SupportedChainId
  {
  }
}
