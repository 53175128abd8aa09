/** Strings as the plugin's .NET code sees them: whitespace tests, trimming,
    ordinal case-insensitive comparison, decimal parsing and formatting, and
    order-preserving case-insensitive de-duplication. */
module Text {

  datatype Option<+T> = None | Some(value: T)

  /** .NET `ulong` and `int`. */
  type UInt64 = n: nat | n < 0x1_0000_0000_0000_0000
  type Int32 = i: int | -0x8000_0000 <= i < 0x8000_0000

  /** `char.IsWhiteSpace`: the Unicode space separators, line and paragraph
      separators, and the control characters U+0009..U+000D and U+0085. */
  predicate IsWhiteSpace(c: char) {
    var n := c as int;
    n == 0x20 || (0x09 <= n <= 0x0D) || n == 0x85 || n == 0xA0 || n == 0x1680
    || (0x2000 <= n <= 0x200A) || n == 0x2028 || n == 0x2029 || n == 0x202F
    || n == 0x205F || n == 0x3000
  }

  /** The white space that `NumberStyles.AllowLeadingWhite`/`AllowTrailingWhite` skip. */
  predicate IsNumberWhite(c: char) {
    c == ' ' || (0x09 <= c as int <= 0x0D)
  }

  /** What `bool.TryParse` strips from both ends: white space and NUL. */
  predicate IsWhiteOrNul(c: char) {
    IsWhiteSpace(c) || c == '\0'
  }

  /** `string.IsNullOrWhiteSpace`; a null string is modelled as "". */
  predicate Blank(s: string) {
    forall i | 0 <= i < |s| :: IsWhiteSpace(s[i])
  }

  function TrimStartBy(s: string, white: char -> bool): (r: string)
    ensures |r| <= |s| && r == s[|s| - |r|..]
    ensures r == [] || !white(r[0])
    ensures forall i | 0 <= i < |s| - |r| :: white(s[i])
  {
    if |s| > 0 && white(s[0]) then TrimStartBy(s[1..], white) else s
  }

  function TrimEndBy(s: string, white: char -> bool): (r: string)
    ensures |r| <= |s| && r == s[..|r|]
    ensures r == [] || !white(r[|r| - 1])
    ensures forall i | |r| <= i < |s| :: white(s[i])
  {
    if |s| > 0 && white(s[|s| - 1]) then TrimEndBy(s[..|s| - 1], white) else s
  }

  /** Removes the leading and trailing characters that satisfy `white`. */
  function TrimBy(s: string, white: char -> bool): (r: string)
    ensures |r| <= |s|
    ensures r == [] || (!white(r[0]) && !white(r[|r| - 1]))
    ensures forall i | 0 <= i < |r| :: r[i] in s
  {
    TrimEndBy(TrimStartBy(s, white), white)
  }

  /** `string.Trim()`. */
  function Trim(s: string): string {
    TrimBy(s, IsWhiteSpace)
  }

  lemma TrimEmptyIffBlank(s: string)
    ensures Trim(s) == [] <==> Blank(s)
  {
    var t := TrimStartBy(s, IsWhiteSpace);
    assert Trim(s) == TrimEndBy(t, IsWhiteSpace);
    if Trim(s) == [] {
      assert |t| == 0;
    }
  }

  /** Trimming a string that has no white space at its ends changes nothing. */
  lemma TrimUnchanged(s: string, white: char -> bool)
    requires s == [] || (!white(s[0]) && !white(s[|s| - 1]))
    ensures TrimBy(s, white) == s
  {
  }

  /** Trimming a non-blank string leaves a non-blank string. */
  lemma TrimNotBlank(s: string)
    requires !Blank(s)
    ensures !Blank(Trim(s))
  {
    TrimEmptyIffBlank(s);
    assert !IsWhiteSpace(Trim(s)[0]);
  }

  lemma TrimIdempotent(s: string)
    ensures Trim(Trim(s)) == Trim(s)
  {
    TrimUnchanged(Trim(s), IsWhiteSpace);
  }

  /** The per-character mapping of `StringComparison.OrdinalIgnoreCase`,
      restricted to ASCII letters. */
  function FoldChar(c: char): char {
    if 'A' <= c <= 'Z' then (c as int + 32) as char else c
  }

  function Fold(s: string): (r: string)
    ensures |r| == |s|
    ensures forall i | 0 <= i < |s| :: r[i] == FoldChar(s[i])
  {
    seq(|s|, i requires 0 <= i < |s| => FoldChar(s[i]))
  }

  predicate EqualsIgnoreCase(a: string, b: string) {
    Fold(a) == Fold(b)
  }

  /** `haystack.IndexOf(needle, StringComparison.OrdinalIgnoreCase) >= 0`. */
  predicate ContainsIgnoreCase(haystack: string, needle: string) {
    exists i | 0 <= i <= |haystack| - |needle| :: MatchesAt(haystack, needle, i)
  }

  predicate MatchesAt(haystack: string, needle: string, i: int)
    requires 0 <= i <= |haystack| - |needle|
  {
    EqualsIgnoreCase(haystack[i..i + |needle|], needle)
  }

  /** The case-insensitive keys of a list of strings: what a
      `HashSet<string>(StringComparer.OrdinalIgnoreCase)` built from it holds. */
  function FoldSet(xs: seq<string>): set<string> {
    set x | x in xs :: Fold(x)
  }

  lemma FoldSetAppend(xs: seq<string>, x: string)
    ensures FoldSet(xs + [x]) == FoldSet(xs) + {Fold(x)}
  {
    assert forall y :: y in xs + [x] <==> y in xs || y == x;
  }

  // ---------------------------------------------------------------------------
  // Order-preserving case-insensitive de-duplication.

  /** The elements of `c` whose case-insensitive key does not occur earlier in
      `c`, in input order: the list that a loop adding each element to a
      case-insensitive "seen" set, and keeping it when the add succeeds, builds. */
  function KeepFirsts(c: seq<string>): seq<string> {
    if |c| == 0 then []
    else
      var rest := KeepFirsts(c[..|c| - 1]);
      if Fold(c[|c| - 1]) in FoldSet(c[..|c| - 1]) then rest else rest + [c[|c| - 1]]
  }

  /** `x` occurs in `c` with no case-insensitive equal before it. */
  ghost predicate IsFirstOccurrence(c: seq<string>, x: string) {
    exists p | 0 <= p < |c| :: c[p] == x && forall q | 0 <= q < p :: Fold(c[q]) != Fold(x)
  }

  /** De-duplication loses no key and invents none. */
  lemma {:induction false} KeepFirstsKeys(c: seq<string>)
    ensures FoldSet(KeepFirsts(c)) == FoldSet(c)
  {
    if |c| > 0 {
      var init, x := c[..|c| - 1], c[|c| - 1];
      assert c == init + [x];
      KeepFirstsKeys(init);
      FoldSetAppend(init, x);
      if Fold(x) !in FoldSet(init) {
        FoldSetAppend(KeepFirsts(init), x);
      }
    }
  }

  /** No two kept elements are equal ignoring case. */
  lemma {:induction false} KeepFirstsUnique(c: seq<string>)
    ensures forall i, j | 0 <= i < j < |KeepFirsts(c)| :: Fold(KeepFirsts(c)[i]) != Fold(KeepFirsts(c)[j])
  {
    if |c| > 0 {
      var init, x := c[..|c| - 1], c[|c| - 1];
      KeepFirstsUnique(init);
      KeepFirstsKeys(init);
      var r := KeepFirsts(init);
      if Fold(x) !in FoldSet(init) {
        forall i | 0 <= i < |r| ensures Fold(r[i]) != Fold(x) {
          assert r[i] in r;
        }
      }
    }
  }

  /** Every kept element is the first occurrence of its key in the input. */
  lemma {:induction false} KeepFirstsAreFirst(c: seq<string>)
    ensures forall k | 0 <= k < |KeepFirsts(c)| :: IsFirstOccurrence(c, KeepFirsts(c)[k])
  {
    if |c| > 0 {
      var init, x := c[..|c| - 1], c[|c| - 1];
      KeepFirstsAreFirst(init);
      var r := KeepFirsts(init);
      forall k | 0 <= k < |r| ensures IsFirstOccurrence(c, r[k]) {
        var p :| 0 <= p < |init| && init[p] == r[k] && forall q | 0 <= q < p :: Fold(init[q]) != Fold(r[k]);
        assert c[p] == r[k];
        forall q | 0 <= q < p ensures Fold(c[q]) != Fold(r[k]) {
          assert c[q] == init[q];
        }
      }
      if Fold(x) !in FoldSet(init) {
        forall q | 0 <= q < |c| - 1 ensures Fold(c[q]) != Fold(x) {
          assert init[q] in init;
        }
        assert IsFirstOccurrence(c, x);
      }
    }
  }

  /** Appending one element: the step a "seen set" loop takes. */
  lemma KeepFirstsStep(c: seq<string>, x: string)
    ensures KeepFirsts(c + [x]) == if Fold(x) in FoldSet(KeepFirsts(c)) then KeepFirsts(c) else KeepFirsts(c) + [x]
  {
    assert (c + [x])[..|c|] == c;
    KeepFirstsKeys(c);
  }

  /** The de-duplicating loop of `ParseFlags` and `BuildFlagList`: appends
      each item of `items` whose case-insensitive key `seen` does not hold
      yet, and records its key. */
  method AddUnseen(kept: seq<string>, seen: set<string>, ghost before: seq<string>, items: seq<string>)
    returns (kept': seq<string>, seen': set<string>)
    requires kept == KeepFirsts(before) && seen == FoldSet(kept)
    ensures kept' == KeepFirsts(before + items) && seen' == FoldSet(kept')
  {
    kept', seen' := kept, seen;
    var j := 0;
    assert before + items[..0] == before;
    while j < |items|
      invariant 0 <= j <= |items|
      invariant kept' == KeepFirsts(before + items[..j])
      invariant seen' == FoldSet(kept')
    {
      var item := items[j];
      KeepFirstsStep(before + items[..j], item);
      assert before + items[..j + 1] == (before + items[..j]) + [item];
      if Fold(item) !in seen' {
        FoldSetAppend(kept', item);
        seen' := seen' + {Fold(item)};
        kept' := kept' + [item];
      }
      j := j + 1;
    }
    assert items[..|items|] == items;
  }

  // ---------------------------------------------------------------------------
  // Joining.

  /** `string.Join(", ", parts)`. */
  function JoinComma(parts: seq<string>): string {
    if |parts| == 0 then ""
    else if |parts| == 1 then parts[0]
    else JoinComma(parts[..|parts| - 1]) + ", " + parts[|parts| - 1]
  }

  lemma {:induction false} JoinCommaNonBlank(parts: seq<string>)
    requires |parts| > 0 && forall k | 0 <= k < |parts| :: !Blank(parts[k])
    ensures !Blank(JoinComma(parts))
  {
    if |parts| > 1 {
      var last := parts[|parts| - 1];
      var j := JoinComma(parts);
      var i :| 0 <= i < |last| && !IsWhiteSpace(last[i]);
      assert j[|j| - |last| + i] == last[i];
    }
  }

  // ---------------------------------------------------------------------------
  // Decimal numbers.

  predicate IsDigit(c: char) {
    '0' <= c <= '9'
  }

  predicate AllDigits(s: string) {
    forall i | 0 <= i < |s| :: IsDigit(s[i])
  }

  function DecimalValue(s: string): nat
    requires AllDigits(s)
  {
    if |s| == 0 then 0 else DecimalValue(s[..|s| - 1]) * 10 + (s[|s| - 1] as int - '0' as int)
  }

  function DigitChar(d: nat): (c: char)
    requires d < 10
    ensures IsDigit(c) && c as int - '0' as int == d
  {
    ('0' as int + d) as char
  }

  /** `n.ToString(CultureInfo.InvariantCulture)` for a non-negative integer. */
  function DecimalText(n: nat): (r: string)
    ensures |r| >= 1 && AllDigits(r)
  {
    if n < 10 then [DigitChar(n)] else DecimalText(n / 10) + [DigitChar(n % 10)]
  }

  lemma {:induction false} DecimalRoundTrip(n: nat)
    ensures DecimalValue(DecimalText(n)) == n
  {
    if n >= 10 {
      DecimalRoundTrip(n / 10);
      var t := DecimalText(n);
      assert t[..|t| - 1] == DecimalText(n / 10);
    }
  }

  /** `i.ToString(CultureInfo.InvariantCulture)`. */
  function IntegerText(i: int): string {
    if i < 0 then "-" + DecimalText(-i) else DecimalText(i)
  }

  /** The integer forms `int.TryParse`/`ulong.TryParse` accept with
      `NumberStyles.Integer`: optional white space, an optional sign, one or
      more decimal digits, optional white space. */
  function ParseSignedDecimal(s: string): Option<int> {
    var t := TrimBy(s, IsNumberWhite);
    if |t| > 0 && (t[0] == '+' || t[0] == '-') then
      var d := t[1..];
      if |d| > 0 && AllDigits(d) then Some(if t[0] == '-' then 0 - DecimalValue(d) else DecimalValue(d))
      else None
    else if |t| > 0 && AllDigits(t) then Some(DecimalValue(t))
    else None
  }

  /** Text that parses as a number is not blank. */
  lemma ParsedNotBlank(s: string)
    requires ParseSignedDecimal(s).Some?
    ensures !Blank(s)
  {
    var t := TrimBy(s, IsNumberWhite);
    assert |t| > 0 && t[0] in s;
    var j :| 0 <= j < |s| && s[j] == t[0];
    assert !IsWhiteSpace(s[j]);
  }

  /** `ulong.TryParse`. */
  function ParseUInt64(s: string): (r: Option<UInt64>)
    ensures r.Some? <==> ParseSignedDecimal(s).Some? && 0 <= ParseSignedDecimal(s).value < 0x1_0000_0000_0000_0000
  {
    match ParseSignedDecimal(s)
    case Some(v) => if 0 <= v < 0x1_0000_0000_0000_0000 then Some(v as UInt64) else None
    case None => None
  }

  /** `int.TryParse`. */
  function ParseInt32(s: string): (r: Option<Int32>)
    ensures r.Some? <==> ParseSignedDecimal(s).Some? && -0x8000_0000 <= ParseSignedDecimal(s).value < 0x8000_0000
  {
    match ParseSignedDecimal(s)
    case Some(v) => if -0x8000_0000 <= v < 0x8000_0000 then Some(v as Int32) else None
    case None => None
  }

  lemma ParseDigits(d: string)
    requires |d| > 0 && AllDigits(d)
    ensures ParseSignedDecimal(d) == Some(DecimalValue(d))
  {
    assert IsDigit(d[0]) && IsDigit(d[|d| - 1]);
    TrimUnchanged(d, IsNumberWhite);
  }

  lemma ParseNegatedDigits(d: string)
    requires |d| > 0 && AllDigits(d)
    ensures ParseSignedDecimal("-" + d) == Some(0 - DecimalValue(d))
  {
    var s := "-" + d;
    assert IsDigit(s[|s| - 1]) && s[1..] == d;
    TrimUnchanged(s, IsNumberWhite);
  }

  /** Formatting an integer and parsing it back gives the integer. */
  lemma ParseIntegerText(i: int)
    ensures ParseSignedDecimal(IntegerText(i)) == Some(i)
  {
    if i < 0 {
      ParseNegativeText(i);
    } else {
      ParseNaturalText(i);
    }
  }

  lemma ParseNegativeText(i: int)
    requires i < 0
    ensures ParseSignedDecimal(IntegerText(i)) == Some(i)
  {
    var n: nat := -i;
    var d := DecimalText(n);
    calc {
      ParseSignedDecimal(IntegerText(i));
      ParseSignedDecimal("-" + d);
      { ParseNegatedDigits(d); }
      Some(0 - DecimalValue(d));
      { DecimalRoundTrip(n); }
      Some(i);
    }
  }

  lemma ParseNaturalText(n: nat)
    ensures ParseSignedDecimal(IntegerText(n)) == Some(n)
  {
    var d := DecimalText(n);
    assert IntegerText(n) == d;
    DecimalRoundTrip(n);
    ParseDigits(d);
  }

  lemma ParseUInt64RoundTrip(n: UInt64)
    ensures ParseUInt64(DecimalText(n)) == Some(n)
  {
    ParseIntegerText(n);
  }
}
