/**
 * The text `CountUp` renders for a number: `formatNumber` splits the fixed-point string at
 * its ".", inserts the separator into the integer part with
 * `integer.replace(/\B(?=(\d{3})+(?!\d))/g, separator)`, and puts the fractional part back
 * when it is not empty.
 *
 * The input here is the string `num.toFixed(decimals)` produced; the floating-point
 * conversion itself is not modelled. The regular expression is modelled position by
 * position, as the engine evaluates it, and then proved equal to grouping the digits by
 * threes from the right.
 */
module CountUp {
  import opened Common

  predicate IsDigit(c: char) { '0' <= c <= '9' }

  /** A character of `\w`: `[A-Za-z0-9_]`. */
  predicate IsWordChar(c: char) {
    IsDigit(c) || ('a' <= c <= 'z') || ('A' <= c <= 'Z') || c == '_'
  }

  /** `\B` at position `p`: both neighbours (a missing one counts as non-word) are word characters, or neither is. */
  predicate NotBoundary(t: string, p: nat)
    requires p <= |t|
  {
    var before := p > 0 && IsWordChar(t[p - 1]);
    var after := p < |t| && IsWordChar(t[p]);
    before == after
  }

  /** The number of digits from position `p` on, up to the first non-digit. */
  function DigitRun(t: string, p: nat): (n: nat)
    requires p <= |t|
    ensures p + n <= |t|
    decreases |t| - p
  {
    if p == |t| || !IsDigit(t[p]) then 0 else 1 + DigitRun(t, p + 1)
  }

  /**
   * `(?=(\d{3})+(?!\d))` at position `p`: some number of whole groups of three digits, at
   * least one, is followed by a non-digit or the end; that is, the digit run from `p` is a
   * positive multiple of three.
   */
  predicate GroupsAhead(t: string, p: nat)
    requires p <= |t|
  {
    var n := DigitRun(t, p);
    n > 0 && n % 3 == 0
  }

  /** The empty match of the whole pattern at position `p`. */
  predicate SeparatorAt(t: string, p: nat)
    requires p <= |t|
  {
    NotBoundary(t, p) && GroupsAhead(t, p)
  }

  /** The first `n` characters of `t`, each preceded by the separator when the pattern matches before it. */
  function Replaced(t: string, sep: string, n: nat): string
    requires n <= |t|
  {
    if n == 0 then ""
    else Replaced(t, sep, n - 1) + (if SeparatorAt(t, n - 1) then sep else "") + [t[n - 1]]
  }

  /** `integer.replace(/\B(?=(\d{3})+(?!\d))/g, sep)`: every position, the end included, is tried. */
  function FormatInteger(integer: string, sep: string): string {
    Replaced(integer, sep, |integer|) + (if SeparatorAt(integer, |integer|) then sep else "")
  }

  /** The reference grouping: the separator before every block of three digits counted from the right. */
  function GroupDigits(d: string, sep: string): string {
    if |d| <= 3 then d else GroupDigits(d[..|d| - 3], sep) + sep + d[|d| - 3..]
  }

  predicate AllDigits(d: string) {
    forall i :: 0 <= i < |d| ==> IsDigit(d[i])
  }

  /** The sign `toFixed` writes: nothing, or a minus. */
  predicate IsSign(s: string) {
    s == "" || s == "-"
  }

  lemma {:induction false} DigitRunToEnd(t: string, p: nat)
    requires p <= |t|
    requires forall i :: p <= i < |t| ==> IsDigit(t[i])
    ensures DigitRun(t, p) == |t| - p
    decreases |t| - p
  {
    if p < |t| {
      DigitRunToEnd(t, p + 1);
    }
  }

  /**
   * In a signed digit string the pattern matches exactly at the positions after the first
   * digit that have a multiple of three digits to their right.
   */
  lemma SeparatorPositions(sign: string, d: string, p: nat)
    requires IsSign(sign) && AllDigits(d) && d != []
    requires p <= |sign + d|
    ensures SeparatorAt(sign + d, p) <==> |sign| < p < |sign + d| && (|sign + d| - p) % 3 == 0
  {
    var t := sign + d;
    if p >= |sign| {
      DigitRunToEnd(t, p);
    }
    if p == |sign| {
      assert IsWordChar(t[p]);
    }
  }

  /** `Replaced` only looks at the characters and the matches before `n`. */
  lemma {:induction false} ReplacedAgree(t: string, u: string, sep: string, n: nat)
    requires n <= |t| && n <= |u|
    requires forall p :: 0 <= p < n ==> t[p] == u[p] && SeparatorAt(t, p) == SeparatorAt(u, p)
    ensures Replaced(t, sep, n) == Replaced(u, sep, n)
  {
    if n > 0 {
      ReplacedAgree(t, u, sep, n - 1);
    }
  }

  /** Without a match before `n`, nothing is inserted. */
  lemma {:induction false} ReplacedNoMatch(t: string, sep: string, n: nat)
    requires n <= |t|
    requires forall p :: 0 <= p < n ==> !SeparatorAt(t, p)
    ensures Replaced(t, sep, n) == t[..n]
  {
    if n > 0 {
      ReplacedNoMatch(t, sep, n - 1);
      assert t[..n] == t[..n - 1] + [t[n - 1]];
    }
  }

  /** A block of at most three digits gets no separator. */
  lemma ShortRunUnchanged(sign: string, d: string, sep: string)
    requires IsSign(sign) && AllDigits(d) && d != [] && |d| <= 3
    ensures Replaced(sign + d, sep, |sign + d|) == sign + d
  {
    var t := sign + d;
    forall p | 0 <= p < |t| ensures !SeparatorAt(t, p) {
      SeparatorPositions(sign, d, p);
    }
    ReplacedNoMatch(t, sep, |t|);
    assert t[..|t|] == t;
  }

  /** Dropping the last three digits changes no match before them. */
  lemma PrefixAgrees(sign: string, d: string, sep: string)
    requires IsSign(sign) && AllDigits(d) && |d| > 3
    ensures var m := |sign| + |d| - 3;
      Replaced(sign + d, sep, m) == Replaced(sign + d[..|d| - 3], sep, m)
  {
    var t, t' := sign + d, sign + d[..|d| - 3];
    forall p | 0 <= p < |t'| ensures t[p] == t'[p] && SeparatorAt(t, p) == SeparatorAt(t', p) {
      SeparatorPositions(sign, d, p);
      SeparatorPositions(sign, d[..|d| - 3], p);
    }
    ReplacedAgree(t, t', sep, |t'|);
  }

  /** The last three digits get one separator, before the first of them. */
  lemma LastBlock(sign: string, d: string, sep: string)
    requires IsSign(sign) && AllDigits(d) && |d| > 3
    ensures var t, m := sign + d, |sign| + |d| - 3;
      Replaced(t, sep, |t|) == Replaced(t, sep, m) + sep + d[|d| - 3..]
  {
    var t, m := sign + d, |sign| + |d| - 3;
    SeparatorPositions(sign, d, m);
    SeparatorPositions(sign, d, m + 1);
    SeparatorPositions(sign, d, m + 2);
    assert Replaced(t, sep, m + 1) == Replaced(t, sep, m) + sep + [t[m]];
    assert Replaced(t, sep, m + 2) == Replaced(t, sep, m + 1) + [t[m + 1]];
    assert Replaced(t, sep, m + 3) == Replaced(t, sep, m + 2) + [t[m + 2]];
    assert d[|d| - 3..] == [t[m], t[m + 1], t[m + 2]];
  }

  /**
   * The regular expression inserts the separator exactly where grouping by threes from the
   * right does.
   */
  lemma {:induction false} RegexGroupsByThrees(sign: string, d: string, sep: string)
    requires IsSign(sign) && AllDigits(d) && d != []
    ensures Replaced(sign + d, sep, |sign + d|) == sign + GroupDigits(d, sep)
    decreases |d|
  {
    var t := sign + d;
    if |d| <= 3 {
      ShortRunUnchanged(sign, d, sep);
    } else {
      var d', tail := d[..|d| - 3], d[|d| - 3..];
      var m := |sign| + |d| - 3;
      assert |sign + d'| == m;
      calc {
        Replaced(t, sep, |t|);
        { LastBlock(sign, d, sep); }
        Replaced(t, sep, m) + sep + tail;
        { PrefixAgrees(sign, d, sep); }
        Replaced(sign + d', sep, m) + sep + tail;
        { RegexGroupsByThrees(sign, d', sep); }
        sign + GroupDigits(d', sep) + sep + tail;
        sign + GroupDigits(d, sep);
      }
    }
  }

  /** Nothing is inserted at the end, so the whole replacement is the grouped string. */
  lemma FormatIntegerGroups(sign: string, d: string, sep: string)
    requires IsSign(sign) && AllDigits(d) && d != []
    ensures FormatInteger(sign + d, sep) == sign + GroupDigits(d, sep)
  {
    SeparatorPositions(sign, d, |sign + d|);
    RegexGroupsByThrees(sign, d, sep);
  }

  /** Every character of the grouped string is a digit or part of a separator, and it starts with the first digit. */
  lemma {:induction false} GroupDigitsHead(d: string, sep: string)
    requires d != []
    ensures GroupDigits(d, sep) != [] && GroupDigits(d, sep)[0] == d[0]
    decreases |d|
  {
    if |d| > 3 {
      GroupDigitsHead(d[..|d| - 3], sep);
    }
  }

  /** One separator per full block of three after the first digit. */
  lemma {:induction false} GroupDigitsLength(d: string, sep: string)
    requires d != []
    ensures |GroupDigits(d, sep)| == |d| + (|d| - 1) / 3 * |sep|
    decreases |d|
  {
    if |d| > 3 {
      GroupDigitsLength(d[..|d| - 3], sep);
      var n, w := |d|, |sep|;
      var k := (n - 1) / 3;
      assert (n - 4) / 3 == k - 1;
      assert (k - 1) * w + w == k * w;
    }
  }

  /** An integer part of at most three digits is left as it is, and no separator follows a leading "-". */
  lemma ShortOrSigned(sign: string, d: string, sep: string)
    requires IsSign(sign) && AllDigits(d) && d != []
    ensures |d| <= 3 ==> FormatInteger(sign + d, sep) == sign + d
    ensures var r := FormatInteger(sign + d, sep); |r| > |sign| && r[..|sign|] == sign && r[|sign|] == d[0]
  {
    FormatIntegerGroups(sign, d, sep);
    GroupDigitsHead(d, sep);
  }

  /** `s` without the character `c`. */
  function Without(s: string, c: char): string {
    if s == [] then [] else (if s[0] == c then [] else [s[0]]) + Without(s[1..], c)
  }

  lemma {:induction false} WithoutAppend(a: string, b: string, c: char)
    ensures Without(a + b, c) == Without(a, c) + Without(b, c)
  {
    if a != [] {
      assert (a + b)[1..] == a[1..] + b;
      WithoutAppend(a[1..], b, c);
    } else {
      assert a + b == b;
    }
  }

  lemma {:induction false} WithoutAbsent(s: string, c: char)
    requires forall i :: 0 <= i < |s| ==> s[i] != c
    ensures Without(s, c) == s
  {
    if s != [] {
      WithoutAbsent(s[1..], c);
    }
  }

  /** Deleting a one-character, non-digit separator from the grouped digits gives the digits back. */
  lemma {:induction false} UngroupDigits(d: string, c: char)
    requires AllDigits(d) && !IsDigit(c)
    ensures Without(GroupDigits(d, [c]), c) == d
    decreases |d|
  {
    if |d| <= 3 {
      WithoutAbsent(d, c);
    } else {
      var init, last := d[..|d| - 3], d[|d| - 3..];
      assert AllDigits(init) by {
        forall i | 0 <= i < |init| ensures IsDigit(init[i]) {
          assert init[i] == d[i];
        }
      }
      forall i | 0 <= i < |last| ensures last[i] != c {
        assert last[i] == d[|d| - 3 + i];
      }
      UngroupDigits(init, c);
      var g := GroupDigits(init, [c]);
      assert GroupDigits(d, [c]) == (g + [c]) + last;
      WithoutAppend(g + [c], last, c);
      WithoutAppend(g, [c], c);
      WithoutSingle(c);
      WithoutAbsent(last, c);
      assert init + last == d;
    }
  }

  lemma WithoutSingle(c: char)
    ensures Without([c], c) == []
  {
    assert [c][1..] == [];
  }

  /** `s.indexOf(c)`, absent as `None`. */
  function IndexOf(s: string, c: char): (r: Option<nat>)
    ensures r.Some? ==> r.value < |s| && s[r.value] == c && forall i :: 0 <= i < r.value ==> s[i] != c
    ensures r.None? ==> forall i :: 0 <= i < |s| ==> s[i] != c
  {
    if s == [] then None
    else if s[0] == c then Some(0)
    else match IndexOf(s[1..], c)
      case None => None
      case Some(i) => Some(i + 1)
  }

  /** `const [integer, decimal] = fixed.split('.')`: the text before the first ".", and the text up to the next one, if there is a first. */
  function SplitAtDot(fixed: string): (string, Option<string>) {
    match IndexOf(fixed, '.')
    case None => (fixed, None)
    case Some(i) =>
      var rest := fixed[i + 1..];
      (fixed[..i], Some(match IndexOf(rest, '.') case None => rest case Some(j) => rest[..j]))
  }

  /** `formatNumber`: the grouped integer part, then "." and the decimal part when that part is a non-empty string. */
  function FormatNumber(fixed: string, sep: string): string {
    var (integer, decimal) := SplitAtDot(fixed);
    var formattedInteger := FormatInteger(integer, sep);
    if Truthy(decimal) then formattedInteger + "." + decimal.value else formattedInteger
  }

  /** Where the string has one "." between two dot-free parts, `split` yields those parts. */
  lemma SplitOneDot(integer: string, frac: string)
    requires forall i :: 0 <= i < |integer| ==> integer[i] != '.'
    requires forall i :: 0 <= i < |frac| ==> frac[i] != '.'
    ensures SplitAtDot(integer + "." + frac) == (integer, Some(frac))
  {
    var fixed := integer + "." + frac;
    forall i | 0 <= i < |integer| ensures fixed[i] != '.' {
      assert fixed[i] == integer[i];
    }
    assert fixed[|integer|] == '.';
    assert IndexOf(fixed, '.') == Some(|integer|);
    assert fixed[..|integer|] == integer;
    assert fixed[|integer| + 1..] == frac;
  }

  /** A string with one dot: the grouped integer part, then the fraction when it is not empty. */
  lemma FormatWithFraction(integer: string, frac: string, sep: string)
    requires forall i :: 0 <= i < |integer| ==> integer[i] != '.'
    requires forall i :: 0 <= i < |frac| ==> frac[i] != '.'
    ensures FormatNumber(integer + "." + frac, sep) ==
      FormatInteger(integer, sep) + (if frac != "" then "." + frac else "")
  {
    SplitOneDot(integer, frac);
  }

  /** A string without a dot is all integer part. */
  lemma FormatWithoutDot(integer: string, sep: string)
    requires forall i :: 0 <= i < |integer| ==> integer[i] != '.'
    ensures FormatNumber(integer, sep) == FormatInteger(integer, sep)
  {
    assert IndexOf(integer, '.') == None;
  }

  /**
   * For a `toFixed` string (a sign, digits, and optionally "." and more digits) the result is
   * the sign, the digits grouped by threes, and the fractional digits copied as they are;
   * without a fractional part, or with an empty one, only the grouped integer remains.
   */
  lemma FormatFixedString(sign: string, digits: string, frac: Option<string>, sep: string)
    requires IsSign(sign) && AllDigits(digits) && digits != []
    requires frac.Some? ==> AllDigits(frac.value)
    ensures var fixed := sign + digits + (if frac.Some? then "." + frac.value else "");
      FormatNumber(fixed, sep) ==
        sign + GroupDigits(digits, sep) + (if frac.Some? && frac.value != "" then "." + frac.value else "")
  {
    var integer := sign + digits;
    FormatIntegerGroups(sign, digits, sep);
    assert forall i :: 0 <= i < |integer| ==> integer[i] != '.';
    if frac.Some? {
      assert sign + digits + ("." + frac.value) == integer + "." + frac.value;
      FormatWithFraction(integer, frac.value, sep);
    } else {
      assert sign + digits + "" == integer;
      FormatWithoutDot(integer, sep);
    }
  }
}
