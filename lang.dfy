/** The parts of java.lang that the chat server's logic depends on: null
    (Option), thrown exceptions (Result), and the String, Integer and Long
    operations it calls, with their Java semantics written out. */
module Lang {

  /** A Java reference that may be null. */
  datatype Option<+T> = None | Some(value: T)

  /** The exceptions the modelled code can raise or catch. */
  datatype Exception =
    | NullPointer
    | ClassCast
    | NumberFormat
    | IllegalArgument
    | ArrayIndexOutOfBounds
    | IO
    | ConstraintViolation  // a NOT NULL column left null when a row is saved
    | JsonProcessing       // text that is not a JSON object

  /** A call that either returns a value or throws. */
  datatype Result<+T> = Ok(value: T) | Thrown(ex: Exception)

  // ---------------------------------------------------------------- searching

  /** `sub` occurs in `s` at position `j`. */
  predicate MatchesAt(s: string, sub: string, j: int) {
    0 <= j && j + |sub| <= |s| && s[j..j + |sub|] == sub
  }

  /** `s.indexOf(sub, from)`: the first position at or after `from` where `sub` occurs, or -1. */
  function IndexOfFrom(s: string, sub: string, from: nat): (r: int)
    ensures r == -1 || (from <= r && MatchesAt(s, sub, r))
    ensures r == -1 ==> forall j :: from <= j ==> !MatchesAt(s, sub, j)
    ensures r != -1 ==> forall j :: from <= j < r ==> !MatchesAt(s, sub, j)
    decreases |s| - from
  {
    if from + |sub| > |s| then -1
    else if s[from..from + |sub|] == sub then from
    else IndexOfFrom(s, sub, from + 1)
  }

  /** `s.indexOf(sub)`. */
  function IndexOf(s: string, sub: string): int {
    IndexOfFrom(s, sub, 0)
  }

  /** `s.contains(sub)`. */
  predicate Contains(s: string, sub: string) {
    IndexOf(s, sub) >= 0
  }

  /** `contains` holds exactly when the substring occurs somewhere. */
  lemma {:induction false} ContainsIff(s: string, sub: string)
    ensures Contains(s, sub) <==> exists j :: MatchesAt(s, sub, j)
  {
    if exists j :: MatchesAt(s, sub, j) {
      var j :| MatchesAt(s, sub, j);
      assert IndexOfFrom(s, sub, 0) != -1;
    }
  }

  /** A string contains each of its infixes. */
  lemma {:induction false} ContainsInfix(w: string, sub: string, x: string)
    ensures Contains(w + sub + x, sub)
  {
    assert (w + sub + x)[|w|..|w| + |sub|] == sub;
    assert MatchesAt(w + sub + x, sub, |w|);
    ContainsIff(w + sub + x, sub);
  }

  /** For a one-character string, `contains` is membership. */
  lemma {:induction false} ContainsChar(s: string, c: char)
    ensures Contains(s, [c]) <==> c in s
  {
    ContainsIff(s, [c]);
    if c in s {
      var j :| 0 <= j < |s| && s[j] == c;
      assert s[j..j + 1] == [c];
      assert MatchesAt(s, [c], j);
    }
    if Contains(s, [c]) {
      var j :| MatchesAt(s, [c], j);
      assert s[j] == s[j..j + 1][0];
    }
  }

  /** `s.indexOf(c)` for a character. */
  function IndexOfChar(s: string, c: char): (r: int)
    ensures -1 <= r < |s|
    ensures r == -1 <==> c !in s
    ensures r >= 0 ==> s[r] == c && c !in s[..r]
  {
    if s == [] then -1
    else if s[0] == c then 0
    else var k := IndexOfChar(s[1..], c); if k < 0 then -1 else k + 1
  }

  /** `s.lastIndexOf(c)` for a character. */
  function LastIndexOfChar(s: string, c: char): (r: int)
    ensures -1 <= r < |s|
    ensures r == -1 <==> c !in s
    ensures r >= 0 ==> s[r] == c && c !in s[r + 1..]
  {
    if s == [] then -1
    else if s[|s| - 1] == c then |s| - 1
    else LastIndexOfChar(s[..|s| - 1], c)
  }

  /** `s.startsWith(p)`. */
  predicate StartsWith(s: string, p: string) {
    |p| <= |s| && s[..|p|] == p
  }

  // ------------------------------------------------------------------ trimming

  /** The characters `String.trim` removes: every code point up to U+0020. */
  predicate IsTrimmable(c: char) {
    c <= ' '
  }

  function TrimStart(s: string): (t: string)
    ensures |t| <= |s| && t == s[|s| - |t|..]
    ensures t != [] ==> !IsTrimmable(t[0])
    ensures forall i :: 0 <= i < |s| - |t| ==> IsTrimmable(s[i])
  {
    if s != [] && IsTrimmable(s[0]) then TrimStart(s[1..]) else s
  }

  function TrimEnd(s: string): (t: string)
    ensures |t| <= |s| && t == s[..|t|]
    ensures t != [] ==> !IsTrimmable(t[|t| - 1])
    ensures forall i :: |t| <= i < |s| ==> IsTrimmable(s[i])
  {
    if s != [] && IsTrimmable(s[|s| - 1]) then TrimEnd(s[..|s| - 1]) else s
  }

  /** `s.trim()`: drops the leading and trailing characters up to U+0020. */
  function Trim(s: string): (t: string)
    ensures |t| <= |s|
    ensures t == [] || (!IsTrimmable(t[0]) && !IsTrimmable(t[|t| - 1]))
  {
    TrimEnd(TrimStart(s))
  }

  /** `s.trim().isEmpty()`: the string holds nothing but trimmable characters. */
  predicate IsBlank(s: string) {
    Trim(s) == []
  }

  lemma {:induction false} BlankIffAllTrimmable(s: string)
    ensures IsBlank(s) <==> forall i :: 0 <= i < |s| ==> IsTrimmable(s[i])
  {
    var u := TrimStart(s);
    if !IsBlank(s) {
      var t := TrimEnd(u);
      assert t[0] == u[0] == s[|s| - |u|];
    }
  }

  /** A string whose ends are not trimmable is its own trim. */
  lemma {:induction false} TrimNoop(s: string)
    requires s == [] || (!IsTrimmable(s[0]) && !IsTrimmable(s[|s| - 1]))
    ensures Trim(s) == s
  {
  }

  lemma {:induction false} TrimIdempotent(s: string)
    ensures Trim(Trim(s)) == Trim(s)
  {
    var t := Trim(s);
    assert TrimStart(t) == t;
    assert TrimEnd(t) == t;
  }

  // ------------------------------------------------------------- ignoring case

  /** `c` equals the lower-case ASCII letter `l` under `String.equalsIgnoreCase`:
      the letter itself, its upper case, and for `k` also KELVIN SIGN U+212A,
      whose lower case is `k`. */
  predicate FoldsTo(c: char, l: char)
    requires 'a' <= l <= 'z'
  {
    c == l || c as int == l as int - 32 || (l == 'k' && c == 'K')
  }

  /** `"unknown".equalsIgnoreCase(s)`. */
  predicate IsUnknownIgnoreCase(s: string) {
    var u := "unknown";
    |s| == |u| && forall i :: 0 <= i < |u| ==> FoldsTo(s[i], u[i])
  }

  // ------------------------------------------------------------------ splitting

  /** Every piece of `s` between occurrences of `c`, empty ones included. */
  function SplitAll(s: string, c: char): (ps: seq<string>)
    ensures |ps| >= 1
    ensures forall k :: 0 <= k < |ps| ==> c !in ps[k]
    decreases |s|
  {
    var i := IndexOfChar(s, c);
    if i < 0 then [s] else [s[..i]] + SplitAll(s[i + 1..], c)
  }

  /** Joins pieces with the separator `c`; the inverse of `SplitAll`. */
  function Join(ps: seq<string>, c: char): string {
    if |ps| == 0 then ""
    else if |ps| == 1 then ps[0]
    else ps[0] + [c] + Join(ps[1..], c)
  }

  lemma Decompose(s: string, i: nat)
    requires i < |s|
    ensures s == s[..i] + [s[i]] + s[i + 1..]
  {
  }

  /** Joining the pieces with the separator gives back the original string. */
  lemma {:induction false} JoinSplitAll(s: string, c: char)
    ensures Join(SplitAll(s, c), c) == s
    decreases |s|
  {
    var i := IndexOfChar(s, c);
    if i >= 0 {
      JoinSplitAll(s[i + 1..], c);
      Decompose(s, i);
      assert SplitAll(s, c) == [s[..i]] + SplitAll(s[i + 1..], c);
    }
  }

  lemma {:induction false} SplitAllPrefix(p: string, c: char, rest: string)
    requires c !in p
    ensures SplitAll(p + [c] + rest, c) == [p] + SplitAll(rest, c)
  {
    var s := p + [c] + rest;
    assert s[|p|] == c;
    assert s[..|p|] == p;
    var i := IndexOfChar(s, c);
    assert i == |p|;
    assert s[i + 1..] == rest;
  }

  /** Drops the empty strings at the end of `ps`. */
  function DropTrailingEmpty(ps: seq<string>): (r: seq<string>)
    ensures |r| <= |ps| && r == ps[..|r|]
    ensures r == [] || r[|r| - 1] != ""
    ensures forall k :: |r| <= k < |ps| ==> ps[k] == ""
  {
    if |ps| > 0 && ps[|ps| - 1] == "" then DropTrailingEmpty(ps[..|ps| - 1]) else ps
  }

  /** `s.split(regex)` where the regex matches exactly the one character `c`
      (",", "#", "\\|", "\\."): when `c` does not occur the result is `[s]`,
      otherwise the pieces with trailing empty strings removed. */
  function Split(s: string, c: char): (ps: seq<string>)
    ensures forall k :: 0 <= k < |ps| ==> c !in ps[k]
  {
    if c !in s then [s] else DropTrailingEmpty(SplitAll(s, c))
  }

  lemma {:induction false} SplitAllOnlySeparators(s: string, c: char)
    requires forall i :: 0 <= i < |s| ==> s[i] == c
    ensures forall k :: 0 <= k < |SplitAll(s, c)| ==> SplitAll(s, c)[k] == ""
    decreases |s|
  {
    if s != [] {
      assert IndexOfChar(s, c) == 0;
      SplitAllOnlySeparators(s[1..], c);
      assert SplitAll(s, c) == [""] + SplitAll(s[1..], c);
    }
  }

  /** Splitting a string made only of separators gives the empty array. */
  lemma {:induction false} SplitOnlySeparators(s: string, c: char)
    requires s != [] && forall i :: 0 <= i < |s| ==> s[i] == c
    ensures Split(s, c) == []
  {
    assert s[0] == c;
    SplitAllOnlySeparators(s, c);
    var ps := SplitAll(s, c);
  }

  /** Joining empty pieces gives nothing but separators. */
  lemma {:induction false} JoinEmptyPieces(ps: seq<string>, c: char)
    requires forall k :: 0 <= k < |ps| ==> ps[k] == ""
    ensures forall i :: 0 <= i < |Join(ps, c)| ==> Join(ps, c)[i] == c
    decreases |ps|
  {
    if |ps| > 1 {
      JoinEmptyPieces(ps[1..], c);
      assert Join(ps, c) == [c] + Join(ps[1..], c);
    }
  }

  /** Java's split gives the empty array exactly for a non-empty string made
      only of separators. */
  lemma {:induction false} SplitEmptyIff(s: string, c: char)
    ensures Split(s, c) == [] <==> (s != [] && forall i :: 0 <= i < |s| ==> s[i] == c)
  {
    if s != [] && forall i :: 0 <= i < |s| ==> s[i] == c {
      SplitOnlySeparators(s, c);
    } else if Split(s, c) == [] {
      var all := SplitAll(s, c);
      assert forall k :: 0 <= k < |all| ==> all[k] == "";
      JoinSplitAll(s, c);
      JoinEmptyPieces(all, c);
      assert c in s;
    }
  }

  /** The first piece of a split is the text before the first separator,
      unless the whole string is separators. */
  lemma {:induction false} SplitFirstPiece(first: string, c: char, rest: string)
    requires c !in first
    ensures var ps := Split(first + [c] + rest, c);
      ps == [] || ps[0] == first
  {
    var s := first + [c] + rest;
    assert s[|first|] == c;
    SplitAllPrefix(first, c, rest);
  }

  /** Two separator-free pieces joined by one separator split back into those
      two pieces. */
  lemma {:induction false} SplitTwo(p: string, q: string, c: char)
    requires c !in p && c !in q && q != ""
    ensures Split(p + [c] + q, c) == [p, q]
  {
    var s := p + [c] + q;
    assert s[|p|] == c;
    SplitAllPrefix(p, c, q);
    assert IndexOfChar(q, c) < 0;
    assert SplitAll(s, c) == [p, q];
  }

  lemma {:induction false} SplitAllJoin(ps: seq<string>, c: char)
    requires |ps| >= 1 && forall k :: 0 <= k < |ps| ==> c !in ps[k]
    ensures SplitAll(Join(ps, c), c) == ps
    decreases |ps|
  {
    if |ps| == 1 {
      assert IndexOfChar(ps[0], c) < 0;
    } else {
      SplitAllJoin(ps[1..], c);
      SplitAllPrefix(ps[0], c, Join(ps[1..], c));
      assert ps == [ps[0]] + ps[1..];
    }
  }

  /** `split` inverts joining with the separator when no piece holds the
      separator and the last piece is not empty. */
  lemma {:induction false} SplitJoin(ps: seq<string>, c: char)
    requires |ps| >= 1 && ps[|ps| - 1] != "" && forall k :: 0 <= k < |ps| ==> c !in ps[k]
    ensures Split(Join(ps, c), c) == ps
  {
    SplitAllJoin(ps, c);
    if |ps| > 1 {
      var s := Join(ps, c);
      assert s == ps[0] + [c] + Join(ps[1..], c);
      assert s[|ps[0]|] == c;
    }
  }

  // ------------------------------------------------------------ parsing numbers

  /** The zero of the run of ten decimal digits (Unicode general category
      Nd) that `c` belongs to, or -1 when `c` is not a decimal digit. Only
      digits a single UTF-16 unit can hold count: 37 runs, from ASCII through
      Arabic-Indic, Devanagari and the other Indic and Southeast Asian
      scripts to the fullwidth forms. These are the characters
      `Character.digit(c, 10)` gives a value to. */
  function DigitZero(c: char): (z: int)
    ensures z == -1 || z <= c as int < z + 10
  {
    var n := c as int;
    if n < 0x0030 then -1
    else if n < 0x003A then 0x0030
    else if n < 0x1000 then LowDigitZero(n)
    else if n < 0xA000 then MidDigitZero(n)
    else HighDigitZero(n)
  }

  /** The runs above ASCII and below U+1000. */
  function LowDigitZero(n: int): (z: int)
    ensures z == -1 || z <= n < z + 10
  {
    if 0x0660 <= n < 0x066A then 0x0660
    else if 0x06F0 <= n < 0x06FA then 0x06F0
    else if 0x07C0 <= n < 0x07CA then 0x07C0
    else if 0x0966 <= n < 0x0970 then 0x0966
    else if 0x09E6 <= n < 0x09F0 then 0x09E6
    else if 0x0A66 <= n < 0x0A70 then 0x0A66
    else if 0x0AE6 <= n < 0x0AF0 then 0x0AE6
    else if 0x0B66 <= n < 0x0B70 then 0x0B66
    else if 0x0BE6 <= n < 0x0BF0 then 0x0BE6
    else if 0x0C66 <= n < 0x0C70 then 0x0C66
    else if 0x0CE6 <= n < 0x0CF0 then 0x0CE6
    else if 0x0D66 <= n < 0x0D70 then 0x0D66
    else if 0x0DE6 <= n < 0x0DF0 then 0x0DE6
    else if 0x0E50 <= n < 0x0E5A then 0x0E50
    else if 0x0ED0 <= n < 0x0EDA then 0x0ED0
    else if 0x0F20 <= n < 0x0F2A then 0x0F20
    else -1
  }

  /** The runs from U+1000 to U+9FFF. */
  function MidDigitZero(n: int): (z: int)
    ensures z == -1 || z <= n < z + 10
  {
    if 0x1040 <= n < 0x104A then 0x1040
    else if 0x1090 <= n < 0x109A then 0x1090
    else if 0x17E0 <= n < 0x17EA then 0x17E0
    else if 0x1810 <= n < 0x181A then 0x1810
    else if 0x1946 <= n < 0x1950 then 0x1946
    else if 0x19D0 <= n < 0x19DA then 0x19D0
    else if 0x1A80 <= n < 0x1A8A then 0x1A80
    else if 0x1A90 <= n < 0x1A9A then 0x1A90
    else if 0x1B50 <= n < 0x1B5A then 0x1B50
    else if 0x1BB0 <= n < 0x1BBA then 0x1BB0
    else if 0x1C40 <= n < 0x1C4A then 0x1C40
    else if 0x1C50 <= n < 0x1C5A then 0x1C50
    else -1
  }

  /** The runs from U+A000 up. */
  function HighDigitZero(n: int): (z: int)
    ensures z == -1 || z <= n < z + 10
  {
    if 0xA620 <= n < 0xA62A then 0xA620
    else if 0xA8D0 <= n < 0xA8DA then 0xA8D0
    else if 0xA900 <= n < 0xA90A then 0xA900
    else if 0xA9D0 <= n < 0xA9DA then 0xA9D0
    else if 0xA9F0 <= n < 0xA9FA then 0xA9F0
    else if 0xAA50 <= n < 0xAA5A then 0xAA50
    else if 0xABF0 <= n < 0xABFA then 0xABF0
    else if 0xFF10 <= n < 0xFF1A then 0xFF10
    else -1
  }

  predicate IsDigit(c: char) {
    DigitZero(c) != -1
  }

  /** `Character.digit(c, 10)` for a decimal digit. */
  function DigitOf(c: char): (d: nat)
    requires IsDigit(c)
    ensures d < 10
  {
    c as int - DigitZero(c)
  }

  function DigitsValue(s: string): (n: nat)
    requires forall i :: 0 <= i < |s| ==> IsDigit(s[i])
  {
    if s == [] then 0
    else
      assert IsDigit(s[|s| - 1]);
      DigitsValue(s[..|s| - 1]) * 10 + DigitOf(s[|s| - 1])
  }

  /** The text after an optional leading sign. */
  function Unsigned(s: string): string {
    if |s| > 0 && (s[0] == '-' || s[0] == '+') then s[1..] else s
  }

  /** What `parseInt` / `parseLong` accept before the range check: an
      optional sign and then at least one decimal digit. */
  predicate DecimalSyntax(s: string) {
    var digits := Unsigned(s);
    digits != [] && forall i :: 0 <= i < |digits| ==> IsDigit(digits[i])
  }

  /** The number a well-formed decimal text denotes: its digits' value,
      negated after a leading "-". */
  function DecimalValue(s: string): int
    requires DecimalSyntax(s)
  {
    if s[0] == '-' then 0 - DigitsValue(Unsigned(s)) else DigitsValue(Unsigned(s))
  }

  /** `Integer.parseInt` / `Long.parseLong`: an optional "+" or "-", at least
      one decimal digit of any script, and a value in `[lo, hi]`; anything
      else throws `NumberFormatException`. */
  function ParseDecimal(s: string, lo: int, hi: int): (r: Result<int>)
    ensures r.Ok? ==> DecimalSyntax(s) && r.value == DecimalValue(s) && lo <= r.value <= hi
    ensures r.Thrown? ==> r.ex == NumberFormat
    ensures !DecimalSyntax(s) ==> r.Thrown?
    ensures DecimalSyntax(s) ==> (r.Ok? <==> lo <= DecimalValue(s) <= hi)
  {
    var digits := Unsigned(s);
    if digits == [] || exists i :: 0 <= i < |digits| && !IsDigit(digits[i]) then Thrown(NumberFormat)
    else
      var v: int := if s[0] == '-' then 0 - DigitsValue(digits) as int else DigitsValue(digits);
      if lo <= v <= hi then Ok(v) else Thrown(NumberFormat)
  }

  function DigitChar(d: nat): (c: char)
    requires d < 10
    ensures IsDigit(c) && DigitOf(c) == d
  {
    ('0' as int + d) as char
  }

  /** The decimal digits of `n`, without leading zeros. */
  function NatText(n: nat): (s: string)
    ensures |s| >= 1 && forall i :: 0 <= i < |s| ==> IsDigit(s[i])
  {
    if n < 10 then [DigitChar(n)] else NatText(n / 10) + [DigitChar(n % 10)]
  }

  /** `String.valueOf(n)` for an integral number: a minus sign for negative
      values, then the digits. */
  function IntText(n: int): string {
    if n < 0 then "-" + NatText(-n) else NatText(n)
  }

  lemma {:induction false} DigitsValueOfNatText(n: nat)
    ensures DigitsValue(NatText(n)) == n
  {
    if n >= 10 {
      DigitsValueOfNatText(n / 10);
      var s := NatText(n);
      assert s[..|s| - 1] == NatText(n / 10);
    }
  }

  /** Parsing the decimal text of a number in range gives the number back. */
  lemma {:induction false} ParseDecimalIntText(n: int, lo: int, hi: int)
    requires lo <= n <= hi
    ensures ParseDecimal(IntText(n), lo, hi) == Ok(n)
  {
    var s := IntText(n);
    if n < 0 {
      DigitsValueOfNatText(-n);
      assert s[1..] == NatText(-n);
    } else {
      DigitsValueOfNatText(n);
      assert IsDigit(s[0]);
    }
  }

  /** Each digit replaced by the ASCII digit of the same value. */
  function AsciiDigits(s: string): (r: string)
    ensures |r| == |s|
    ensures forall i :: 0 <= i < |s| ==> r[i] == if IsDigit(s[i]) then DigitChar(DigitOf(s[i])) else s[i]
  {
    if s == [] then []
    else AsciiDigits(s[..|s| - 1]) + [if IsDigit(s[|s| - 1]) then DigitChar(DigitOf(s[|s| - 1])) else s[|s| - 1]]
  }

  lemma {:induction false} DigitsValueAscii(s: string)
    requires forall i :: 0 <= i < |s| ==> IsDigit(s[i])
    ensures forall i :: 0 <= i < |s| ==> IsDigit(AsciiDigits(s)[i])
    ensures DigitsValue(AsciiDigits(s)) == DigitsValue(s)
  {
    if s != [] {
      var init := s[..|s| - 1];
      DigitsValueAscii(init);
      var a := AsciiDigits(s);
      assert a[..|a| - 1] == AsciiDigits(init);
    }
  }

  /** The script of the digits does not matter: a number written in, say,
      fullwidth or Devanagari digits parses to the same result as the same
      number in ASCII digits. */
  lemma {:induction false} ParseDecimalIgnoresScript(s: string, lo: int, hi: int)
    ensures ParseDecimal(s, lo, hi) == ParseDecimal(AsciiDigits(s), lo, hi)
  {
    var a := AsciiDigits(s);
    var digits := Unsigned(s);
    if |s| > 0 && (s[0] == '-' || s[0] == '+') {
      assert !IsDigit(s[0]);
      assert a[0] == s[0];
      assert a[1..] == AsciiDigits(s[1..]);
    }
    assert Unsigned(a) == AsciiDigits(digits);
    if DecimalSyntax(s) {
      DigitsValueAscii(digits);
    } else if digits != [] {
      var i :| 0 <= i < |digits| && !IsDigit(digits[i]);
      assert Unsigned(a)[i] == digits[i];
    }
  }

  const IntMin := -0x8000_0000
  const IntMax := 0x7fff_ffff
  const LongMin := -0x8000_0000_0000_0000
  const LongMax := 0x7fff_ffff_ffff_ffff

  /** `Integer.parseInt(s)`. */
  function ParseInt(s: string): Result<int> {
    ParseDecimal(s, IntMin, IntMax)
  }

  /** `Long.valueOf(s)`. */
  function ParseLong(s: string): Result<int> {
    ParseDecimal(s, LongMin, LongMax)
  }
}
