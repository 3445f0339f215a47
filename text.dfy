/**
 * The Kotlin string operations the interpreter relies on, restricted to ASCII:
 * character classes, `trim`, `isBlank`, `split`, `indexOf`, `toIntOrNull` and
 * `Int.toString` (string templates).
 */
module Text {
  import opened Outcomes
  import opened Int32s

  predicate IsDigit(c: char) {
    '0' <= c <= '9'
  }

  predicate IsLetter(c: char) {
    'a' <= c <= 'z' || 'A' <= c <= 'Z'
  }

  /** The characters that may start an identifier in an expression. */
  predicate IsIdentStart(c: char) {
    IsLetter(c) || c == '_'
  }

  /** `isLetterOrDigit() || == '_'`: the characters that may continue an identifier. */
  predicate IsIdentChar(c: char) {
    IsLetter(c) || IsDigit(c) || c == '_'
  }

  /** Kotlin `Char.isWhitespace` on ASCII: TAB..CR, FS..US and SPACE. */
  predicate IsWhitespace(c: char) {
    var n := c as int;
    n == 32 || 9 <= n <= 13 || 28 <= n <= 31
  }

  predicate IsBlank(s: string) {
    forall i :: 0 <= i < |s| ==> IsWhitespace(s[i])
  }

  predicate AllDigits(s: string) {
    forall i :: 0 <= i < |s| ==> IsDigit(s[i])
  }

  function DigitValue(c: char): (d: nat)
    requires IsDigit(c)
    ensures d < 10
  {
    c as int - '0' as int
  }

  function DigitChar(d: nat): (c: char)
    requires d < 10
    ensures IsDigit(c) && DigitValue(c) == d
  {
    ('0' as int + d) as char
  }

  /** The mathematical value of a run of decimal digits, most significant first. */
  function DecimalValue(ds: string): nat
    requires AllDigits(ds)
  {
    if ds == [] then 0 else DecimalValue(ds[..|ds| - 1]) * 10 + DigitValue(ds[|ds| - 1])
  }

  /** Decimal rendering of a natural number: digits only, no leading zero, denoting `n`. */
  function NatToString(n: nat): (s: string)
    ensures |s| > 0 && AllDigits(s)
    ensures DecimalValue(s) == n
    ensures s[0] == '0' ==> n == 0
  {
    if n < 10 then [DigitChar(n)]
    else
      var s := NatToString(n / 10) + [DigitChar(n % 10)];
      assert s[..|s| - 1] == NatToString(n / 10);
      s
  }

  /** Kotlin `Int.toString()`, as used by string templates. */
  function IntToString(i: int): string {
    if i < 0 then "-" + NatToString(-i) else NatToString(i)
  }

  /**
   * Kotlin `String.toIntOrNull()`: an optional `+` or `-`, at least one decimal
   * digit and nothing else, and a value in the `Int` range; otherwise `None`.
   */
  function ToIntOrNull(s: string): Option<Int32> {
    if |s| == 0 then None
    else
      var digits := if s[0] == '-' || s[0] == '+' then s[1..] else s;
      if |digits| == 0 || !AllDigits(digits) then None
      else
        var v: int := if s[0] == '-' then -(DecimalValue(digits) as int) else DecimalValue(digits);
        if MIN_VALUE <= v <= MAX_VALUE then Some(v) else None
  }

  /** Every `Int` rendered by a string template reads back as itself. */
  lemma IntToStringRoundTrip(v: Int32)
    ensures ToIntOrNull(IntToString(v)) == Some(v)
  {
    var s := IntToString(v);
    if v < 0 {
      var n: int := -(v as int);
      assert s[1..] == NatToString(n);
    } else {
      assert IsDigit(s[0]);
    }
  }

  /** The number of leading whitespace characters of `s`. */
  function TrimStartIndex(s: string): (i: nat)
    ensures i <= |s|
  {
    if s == [] || !IsWhitespace(s[0]) then 0 else 1 + TrimStartIndex(s[1..])
  }

  /** The end of `s` once its trailing whitespace (at or after `from`) is cut off. */
  function TrimEndIndex(s: string, from: nat): (j: nat)
    requires from <= |s|
    ensures from <= j <= |s|
    decreases |s|
  {
    if |s| == from || !IsWhitespace(s[|s| - 1]) then |s|
    else TrimEndIndex(s[..|s| - 1], from)
  }

  /** `TrimStartIndex` stops at the first character that is not whitespace. */
  lemma {:induction false} TrimStartSkipsWhitespace(s: string)
    ensures forall k :: 0 <= k < TrimStartIndex(s) ==> IsWhitespace(s[k])
    ensures TrimStartIndex(s) == |s| || !IsWhitespace(s[TrimStartIndex(s)])
  {
    if s != [] && IsWhitespace(s[0]) {
      TrimStartSkipsWhitespace(s[1..]);
    }
  }

  /** `TrimEndIndex` stops after the last character at or after `from` that is not whitespace. */
  lemma {:induction false} TrimEndSkipsWhitespace(s: string, from: nat)
    requires from <= |s|
    ensures forall k :: TrimEndIndex(s, from) <= k < |s| ==> IsWhitespace(s[k])
    ensures TrimEndIndex(s, from) == from || !IsWhitespace(s[TrimEndIndex(s, from) - 1])
    decreases |s|
  {
    if |s| != from && IsWhitespace(s[|s| - 1]) {
      TrimEndSkipsWhitespace(s[..|s| - 1], from);
    }
  }

  /** Kotlin `String.trim()`: `s` without its leading and trailing whitespace. */
  function Trim(s: string): string {
    var i := TrimStartIndex(s);
    s[i..TrimEndIndex(s, i)]
  }

  /**
   * The trimmed text is the longest middle part of `s` that neither starts nor
   * ends with whitespace: everything cut off on either side is whitespace, and it
   * is empty exactly when `s` is blank.
   */
  lemma TrimmedPart(s: string)
    ensures Trim(s) == [] || (!IsWhitespace(Trim(s)[0]) && !IsWhitespace(Trim(s)[|Trim(s)| - 1]))
    ensures Trim(s) == [] <==> IsBlank(s)
    ensures exists i :: 0 <= i <= |s| - |Trim(s)| && s[i..i + |Trim(s)|] == Trim(s)
                        && IsBlank(s[..i]) && IsBlank(s[i + |Trim(s)|..])
  {
    var i := TrimStartIndex(s);
    var j := TrimEndIndex(s, i);
    TrimStartSkipsWhitespace(s);
    TrimEndSkipsWhitespace(s, i);
    var r := s[i..j];
    assert IsBlank(s[..i]) && IsBlank(s[j..]);
    assert s[i..i + |r|] == r;
  }

  /** Joins the pieces with one separator between neighbours (the inverse of `Split`). */
  function Join(pieces: seq<string>, sep: char): string
    requires |pieces| > 0
  {
    if |pieces| == 1 then pieces[0] else pieces[0] + [sep] + Join(pieces[1..], sep)
  }

  /** Kotlin `split(sep)`: the pieces between separators, empty ones included. */
  function Split(s: string, sep: char): (pieces: seq<string>)
    ensures |pieces| > 0
  {
    if s == [] then [""]
    else
      var rest := Split(s[1..], sep);
      if s[0] == sep then [""] + rest else [[s[0]] + rest[0]] + rest[1..]
  }

  /**
   * The pieces are the maximal separator-free parts of `s`: joined with the
   * separator they give `s` back, and there is one more piece than separators.
   */
  lemma SplitPieces(s: string, sep: char)
    ensures Join(Split(s, sep), sep) == s
    ensures forall k :: 0 <= k < |Split(s, sep)| ==> sep !in Split(s, sep)[k]
    ensures |Split(s, sep)| == 1 + Count(s, sep)
  {
    SplitJoin(s, sep);
    SplitSeparatorFree(s, sep);
    SplitCount(s, sep);
  }

  lemma {:induction false} SplitJoin(s: string, sep: char)
    ensures Join(Split(s, sep), sep) == s
  {
    if s != [] {
      SplitJoin(s[1..], sep);
      var rest := Split(s[1..], sep);
      if s[0] == sep {
        assert ([""] + rest)[1..] == rest;
        assert s == [] + [sep] + s[1..];
      } else {
        var r := [[s[0]] + rest[0]] + rest[1..];
        assert r[1..] == rest[1..];
        if |rest| > 1 {
          assert Join(rest, sep) == rest[0] + [sep] + Join(rest[1..], sep);
          assert Join(r, sep) == r[0] + [sep] + Join(r[1..], sep);
        }
      }
    }
  }

  lemma {:induction false} SplitSeparatorFree(s: string, sep: char)
    ensures forall k :: 0 <= k < |Split(s, sep)| ==> sep !in Split(s, sep)[k]
  {
    if s != [] {
      SplitSeparatorFree(s[1..], sep);
      var rest := Split(s[1..], sep);
      if s[0] == sep {
        assert ([""] + rest)[1..] == rest;
      } else {
        var r := [[s[0]] + rest[0]] + rest[1..];
        forall k | 0 <= k < |r| ensures sep !in r[k] {
          if k > 0 {
            assert r[k] == rest[k];
          }
        }
      }
    }
  }

  lemma {:induction false} SplitCount(s: string, sep: char)
    ensures |Split(s, sep)| == 1 + Count(s, sep)
  {
    if s != [] {
      SplitCount(s[1..], sep);
    }
  }

  /** The number of occurrences of `c` in `s`. */
  function Count(s: string, c: char): nat {
    if s == [] then 0 else (if s[0] == c then 1 else 0) + Count(s[1..], c)
  }

  /** `pat` occurs in `s` starting at index `i`. */
  predicate OccursAt(s: string, pat: string, i: int) {
    0 <= i && i + |pat| <= |s| && s[i..i + |pat|] == pat
  }

  function IndexOfFrom(s: string, pat: string, from: nat): (r: int)
    ensures r == -1 || (from <= r && OccursAt(s, pat, r))
    decreases |s| - from
  {
    if from + |pat| > |s| then -1
    else if s[from..from + |pat|] == pat then from
    else IndexOfFrom(s, pat, from + 1)
  }

  /** Kotlin `String.indexOf(pat)`: the first index where `pat` occurs, or -1 if it never does. */
  function IndexOf(s: string, pat: string): (r: int)
    ensures r == -1 || OccursAt(s, pat, r)
  {
    IndexOfFrom(s, pat, 0)
  }

  /** `IndexOfFrom` skips only indices where `pat` does not occur. */
  lemma {:induction false} IndexOfFromFirst(s: string, pat: string, from: nat)
    ensures IndexOfFrom(s, pat, from) == -1 ==> forall i :: from <= i ==> !OccursAt(s, pat, i)
    ensures IndexOfFrom(s, pat, from) != -1 ==> forall i :: from <= i < IndexOfFrom(s, pat, from) ==> !OccursAt(s, pat, i)
    decreases |s| - from
  {
    if from + |pat| <= |s| && s[from..from + |pat|] != pat {
      IndexOfFromFirst(s, pat, from + 1);
    }
  }

  /** `indexOf` finds the first occurrence, and -1 means there is none. */
  lemma IndexOfFirst(s: string, pat: string)
    ensures IndexOf(s, pat) == -1 <==> forall i :: !OccursAt(s, pat, i)
    ensures IndexOf(s, pat) != -1 ==> forall i :: 0 <= i < IndexOf(s, pat) ==> !OccursAt(s, pat, i)
  {
    IndexOfFromFirst(s, pat, 0);
  }
}
