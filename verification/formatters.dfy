/**
 * The address helpers of the formatting library: shortening an address for display, and
 * checking that a string has the shape of an Ethereum address.
 */
module Formatters {

  function Min(a: int, b: int): int { if a <= b then a else b }

  /** How `String.prototype.slice` reads an index: negative counts from the end, and both are clamped to the string. */
  function SliceIndex(len: nat, i: int): (r: nat)
    ensures r <= len
  {
    if i < 0 then (if len + i < 0 then 0 else len + i) else Min(i, len)
  }

  /** `s.slice(begin, end)`: empty when the clamped end is not after the clamped begin. */
  function Slice(s: string, begin: int, end: int): (r: string)
    ensures |r| <= |s|
  {
    var b, e := SliceIndex(|s|, begin), SliceIndex(|s|, end);
    if b < e then s[b..e] else ""
  }

  /** `s.slice(begin)`. */
  function SliceFrom(s: string, begin: int): (r: string)
    ensures |r| <= |s|
  {
    s[SliceIndex(|s|, begin)..]
  }

  /**
   * `truncateAddress(address, startChars, endChars)`: the empty string stays empty, a string
   * that fits stays whole, and any other keeps its first `startChars` and last `endChars`
   * characters around "...".
   */
  function TruncateAddress(address: string, startChars: int, endChars: int): string {
    if address == "" then ""
    else if |address| <= startChars + endChars then address
    else Slice(address, 0, startChars) + "..." + SliceFrom(address, -endChars)
  }

  /** The defaults: 6 leading and 4 trailing characters. */
  function TruncateAddressDefault(address: string): string {
    TruncateAddress(address, 6, 4)
  }

  /** An empty address, and one that fits in the two ends, are returned as they are. */
  lemma ShortAddressUnchanged(address: string, startChars: int, endChars: int)
    requires address == "" || |address| <= startChars + endChars
    ensures TruncateAddress(address, startChars, endChars) == address
  {
  }

  /** A longer address becomes its head, "..." and its tail, so it is `startChars + endChars + 3` long. */
  lemma TruncatedShape(address: string, startChars: nat, endChars: nat)
    requires endChars >= 1 && |address| > startChars + endChars
    ensures var r := TruncateAddress(address, startChars, endChars);
      && r == address[..startChars] + "..." + address[|address| - endChars..]
      && |r| == startChars + endChars + 3
  {
  }

  /**
   * With `endChars` 0, `slice(-0)` is `slice(0)`: the whole address follows the "...", so the
   * result is longer than the address itself.
   */
  lemma ZeroEndKeepsWholeTail(address: string, startChars: nat)
    requires |address| > startChars
    ensures var r := TruncateAddress(address, startChars, 0);
      r == address[..startChars] + "..." + address && |r| > |address|
  {
  }

  /** Truncating a truncated address changes nothing, for the same ends (with at least one trailing character). */
  lemma {:induction false} TruncateIdempotent(address: string, startChars: nat, endChars: nat)
    requires endChars >= 1
    ensures var once := TruncateAddress(address, startChars, endChars);
      TruncateAddress(once, startChars, endChars) == once
  {
    if address != "" && |address| > startChars + endChars {
      TruncatedShape(address, startChars, endChars);
      var once := TruncateAddress(address, startChars, endChars);
      TruncatedShape(once, startChars, endChars);
      assert once[..startChars] == address[..startChars];
      assert once[|once| - endChars..] == address[|address| - endChars..];
    }
  }

  /** A zero tail breaks idempotence: each pass appends the whole string again. */
  lemma ZeroEndNotIdempotent()
    ensures TruncateAddress(TruncateAddress("abc", 1, 0), 1, 0) != TruncateAddress("abc", 1, 0)
  {
    assert TruncateAddress("abc", 1, 0) == "a...abc";
  }

  /** A character of the class `[a-fA-F0-9]`. */
  predicate IsHexDigit(c: char) {
    ('0' <= c <= '9') || ('a' <= c <= 'f') || ('A' <= c <= 'F')
  }

  /** How many characters of the class `[a-fA-F0-9]` `s` starts with. */
  function HexRun(s: string): (n: nat)
    ensures n <= |s|
  {
    if s == [] || !IsHexDigit(s[0]) then 0 else 1 + HexRun(s[1..])
  }

  /**
   * `/^0x[a-fA-F0-9]{40}$/.test(address)`: the literal "0x", then exactly forty characters of
   * the class, then the end of the input.
   */
  function IsValidEthereumAddress(address: string): bool {
    |address| >= 2 && address[..2] == "0x" && HexRun(address[2..]) == 40 && |address| == 42
  }

  /** The run covers the whole string exactly when every character is of the class. */
  lemma {:induction false} HexRunWhole(s: string)
    ensures HexRun(s) == |s| <==> forall i :: 0 <= i < |s| ==> IsHexDigit(s[i])
  {
    if s != [] {
      HexRunWhole(s[1..]);
      if IsHexDigit(s[0]) {
        forall i | 0 <= i < |s[1..]| ensures s[1..][i] == s[i + 1] {}
        if forall i :: 0 <= i < |s| ==> IsHexDigit(s[i]) {
          assert forall i :: 0 <= i < |s[1..]| ==> IsHexDigit(s[1..][i]);
        }
      }
    }
  }

  /**
   * An address is valid exactly when it is 42 characters long, starts with "0x" (lower-case
   * x) and the other 40 characters are hexadecimal digits of either case. No checksum is
   * involved.
   */
  lemma ValidAddressShape(address: string)
    ensures IsValidEthereumAddress(address) <==>
      && |address| == 42
      && address[0] == '0' && address[1] == 'x'
      && forall i :: 2 <= i < 42 ==> IsHexDigit(address[i])
  {
    if |address| >= 2 {
      var rest := address[2..];
      HexRunWhole(rest);
      if |address| == 42 {
        forall i | 2 <= i < 42 ensures address[i] == rest[i - 2] {}
        if forall i :: 2 <= i < 42 ==> IsHexDigit(address[i]) {
          assert forall i :: 0 <= i < |rest| ==> IsHexDigit(rest[i]);
        }
      }
      assert address[..2] == "0x" <==> address[0] == '0' && address[1] == 'x';
    }
  }

  /** An address made of a 6-character head, a non-empty middle and a 4-character tail shows as head, "..." and tail. */
  lemma DefaultDisplayParts(head: string, middle: string, tail: string)
    requires |head| == 6 && |middle| > 0 && |tail| == 4
    ensures TruncateAddressDefault(head + middle + tail) == head + "..." + tail
  {
    var a := head + middle + tail;
    TruncatedShape(a, 6, 4);
    assert a[..6] == head;
    assert a[|a| - 4..] == tail;
  }

  /** The vault contract's address, `CONTRACT_ADDRESS`, written as its head, middle and tail. */
  const ContractAddress := "0x2d71" + "De053e0DEFbCE58D609E36568d874D07" + "e1a5"

  /** The vault contract's address shows as "0x2d71...e1a5" with the defaults. */
  lemma ContractAddressDisplay()
    ensures TruncateAddressDefault(ContractAddress) == "0x2d71...e1a5"
  {
    DefaultDisplayParts("0x2d71", "De053e0DEFbCE58D609E36568d874D07", "e1a5");
  }

  /** A valid address always shows as 13 characters with the defaults. */
  lemma ValidAddressDisplayLength(address: string)
    requires IsValidEthereumAddress(address)
    ensures |TruncateAddressDefault(address)| == 13
  {
    TruncatedShape(address, 6, 4);
  }
}
