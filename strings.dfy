/**
 * The string operations of Python's `str` that the ingestion pipeline relies on:
 * `isspace`/`strip`, `startswith`, `replace`, `join`, and the decimal
 * integer syntax accepted by `int(...)` and produced by `str(...)`.
 */
module Strings {
  import opened Options

  /** Python's `str.isspace()` for a single character (the Unicode white-space set). */
  predicate IsSpace(c: char) {
    var n := c as int;
    n == 0x20 || 0x09 <= n <= 0x0D || 0x1C <= n <= 0x1F || n == 0x85 || n == 0xA0
    || n == 0x1680 || 0x2000 <= n <= 0x200A || n == 0x2028 || n == 0x2029
    || n == 0x202F || n == 0x205F || n == 0x3000
  }

  predicate AllSpace(s: string) {
    forall i :: 0 <= i < |s| ==> IsSpace(s[i])
  }

  /** `s.lstrip()`: drops the leading white space and nothing else. */
  function TrimStart(s: string): (r: string)
    ensures |r| <= |s| && r == s[|s| - |r|..]
    ensures forall i :: 0 <= i < |s| - |r| ==> IsSpace(s[i])
    ensures r == [] || !IsSpace(r[0])
  {
    if |s| > 0 && IsSpace(s[0]) then
      var r := TrimStart(s[1..]);
      assert forall i :: 0 < i < |s| - |r| ==> s[i] == s[1..][i - 1];
      r
    else s
  }

  /** `s.rstrip()`: drops the trailing white space and nothing else. */
  function TrimEnd(s: string): (r: string)
    ensures |r| <= |s| && r == s[..|r|]
    ensures forall i :: |r| <= i < |s| ==> IsSpace(s[i])
    ensures r == [] || !IsSpace(r[|r| - 1])
  {
    if |s| > 0 && IsSpace(s[|s| - 1]) then
      var r := TrimEnd(s[..|s| - 1]);
      assert forall i :: |r| <= i < |s| - 1 ==> s[i] == s[..|s| - 1][i];
      r
    else s
  }

  /** `s.strip()`. */
  function Strip(s: string): string {
    TrimEnd(TrimStart(s))
  }

  /** A string strips to nothing exactly when it is all white space. */
  lemma StripEmptyIff(s: string)
    ensures Strip(s) == [] <==> AllSpace(s)
  {
    var t := TrimStart(s);
    assert t[0..] == t;
    if t != [] {
      assert t[0] == s[|s| - |t|];
    }
  }

  /** A string that starts and ends with a non-space character is its own strip. */
  lemma StripNoSpaceEnds(s: string)
    requires s != [] && !IsSpace(s[0]) && !IsSpace(s[|s| - 1])
    ensures Strip(s) == s
  {
    assert TrimStart(s) == s;
    assert TrimEnd(s) == s;
  }

  /** A string with no white space at either end. */
  predicate Trimmed(s: string) {
    s == [] || (!IsSpace(s[0]) && !IsSpace(s[|s| - 1]))
  }

  /** What `strip()` leaves has no white space at either end. */
  lemma StripTrimmed(s: string)
    ensures Trimmed(Strip(s))
  {
    var u := TrimStart(s);
    var t := TrimEnd(u);
    if t != [] {
      assert t == u[..|t|] && t[0] == u[0];
    }
  }

  /** Stripping twice is stripping once. */
  lemma StripIdempotent(s: string)
    ensures Strip(Strip(s)) == Strip(s)
  {
    var t := Strip(s);
    if t != [] {
      var u := TrimStart(s);
      assert t == u[..|t|] && t[0] == u[0];
      StripNoSpaceEnds(t);
    }
  }

  /** Dropping leading white space commutes with appending, once something is left. */
  lemma {:induction false} TrimStartAppend(a: string, b: string)
    requires TrimStart(a) != []
    ensures TrimStart(a + b) == TrimStart(a) + b
  {
    if |a| > 0 && IsSpace(a[0]) {
      assert (a + b)[1..] == a[1..] + b;
      TrimStartAppend(a[1..], b);
    }
  }

  /** A trailing white-space character never survives `strip`. */
  lemma StripAppendSpace(s: string, c: char)
    requires IsSpace(c)
    ensures Strip(s + [c]) == Strip(s)
  {
    if TrimStart(s) == [] {
      StripAllSpaceAppend(s, c);
    } else {
      StripKeptAppend(s, c);
    }
  }

  lemma StripAllSpaceAppend(s: string, c: char)
    requires IsSpace(c) && TrimStart(s) == []
    ensures TrimStart(s + [c]) == []
  {
    var t := s + [c];
    forall i | 0 <= i < |t| ensures IsSpace(t[i]) {
      if i < |s| { assert t[i] == s[i]; }
    }
    TrimStartAllSpace(t);
  }

  lemma StripKeptAppend(s: string, c: char)
    requires IsSpace(c) && TrimStart(s) != []
    ensures TrimEnd(TrimStart(s + [c])) == TrimEnd(TrimStart(s))
  {
    var u := TrimStart(s);
    TrimStartAppend(s, [c]);
    assert (u + [c])[..|u|] == u;
  }

  lemma TrimStartAllSpace(t: string)
    requires forall i :: 0 <= i < |t| ==> IsSpace(t[i])
    ensures TrimStart(t) == []
  {
  }

  /** `s.startswith(p)`. */
  predicate StartsWith(s: string, p: string) {
    |p| <= |s| && s[..|p|] == p
  }

  /** `p` occurs in `s` starting at index `i`. */
  predicate OccursAt(s: string, p: string, i: nat) {
    i + |p| <= |s| && s[i..i + |p|] == p
  }

  /**
   * `s.replace(pat, rep)`: every non-overlapping occurrence of `pat`, scanning
   * from the left, is replaced by `rep`.
   */
  function ReplaceAll(s: string, pat: string, rep: string): (r: string)
    requires pat != []
    decreases |s|
  {
    if s == [] then []
    else if StartsWith(s, pat) then rep + ReplaceAll(s[|pat|..], pat, rep)
    else [s[0]] + ReplaceAll(s[1..], pat, rep)
  }

  /** Replacing a character by nothing removes every copy of it and keeps the rest in order. */
  lemma {:induction false} RemoveCharSpec(s: string, c: char)
    ensures c !in ReplaceAll(s, [c], [])
    ensures ReplaceAll(s, [c], []) == s <==> c !in s
    ensures |ReplaceAll(s, [c], [])| == |s| - multiset(s)[c]
  {
    if s != [] {
      RemoveCharSpec(s[1..], c);
      assert s == [s[0]] + s[1..];
      assert multiset(s) == multiset{s[0]} + multiset(s[1..]);
      if s[0] == c {
        assert StartsWith(s, [c]);
        assert |ReplaceAll(s, [c], [])| < |s|;
      } else {
        assert !StartsWith(s, [c]);
      }
    }
  }

  /**
   * Deleting every copy of a pattern from `s + pat` gives `s` back when `s`
   * holds no copy and the pattern's first character does not recur in it (so
   * no copy can straddle the junction).
   */
  lemma {:induction false} RemoveSuffixOccurrence(s: string, pat: string)
    requires pat != [] && pat[0] !in pat[1..]
    requires forall i: nat :: !OccursAt(s, pat, i)
    ensures ReplaceAll(s + pat, pat, []) == s
  {
    var t := s + pat;
    if s == [] {
      assert StartsWith(t, pat) && t[|pat|..] == [];
    } else {
      assert !StartsWith(t, pat) by {
        if |s| >= |pat| {
          assert !OccursAt(s, pat, 0);
          assert t[..|pat|] == s[..|pat|];
        } else {
          assert t[|s|] == pat[0];
          assert pat[|s|] == pat[1..][|s| - 1];
        }
      }
      assert t[1..] == s[1..] + pat;
      forall i: nat ensures !OccursAt(s[1..], pat, i) {
        assert !OccursAt(s, pat, i + 1);
        if i + |pat| <= |s[1..]| {
          assert s[1..][i..i + |pat|] == s[i + 1..i + 1 + |pat|];
        }
      }
      RemoveSuffixOccurrence(s[1..], pat);
    }
  }

  /** `sep.join(parts)`. */
  function Join(sep: string, parts: seq<string>): string {
    if parts == [] then []
    else if |parts| == 1 then parts[0]
    else parts[0] + sep + Join(sep, parts[1..])
  }

  /** Non-empty parts without white space at their ends join into a string without white space at its ends. */
  lemma {:induction false} JoinTrimmed(sep: string, parts: seq<string>)
    requires forall i :: 0 <= i < |parts| ==> parts[i] != [] && Trimmed(parts[i])
    ensures Trimmed(Join(sep, parts))
    ensures parts != [] ==> Join(sep, parts) != []
  {
    if |parts| > 1 {
      JoinTrimmed(sep, parts[1..]);
      var rest := Join(sep, parts[1..]);
      var j := parts[0] + sep + rest;
      assert j[0] == parts[0][0];
      assert j[|j| - 1] == rest[|rest| - 1];
    }
  }

  /** Joining one more part adds the separator and the part at the end. */
  lemma {:induction false} JoinSnoc(sep: string, parts: seq<string>, x: string)
    requires parts != []
    ensures Join(sep, parts + [x]) == Join(sep, parts) + sep + x
  {
    if |parts| > 1 {
      assert (parts + [x])[1..] == parts[1..] + [x];
      JoinSnoc(sep, parts[1..], x);
    }
  }

  // ---- decimal integers -------------------------------------------------

  predicate IsDigit(c: char) {
    '0' <= c <= '9'
  }

  predicate AllDigits(s: string) {
    forall i :: 0 <= i < |s| ==> IsDigit(s[i])
  }

  function DigitValue(c: char): nat
    requires IsDigit(c)
  {
    (c as int) - ('0' as int)
  }

  function DigitChar(d: nat): (c: char)
    requires d < 10
    ensures IsDigit(c) && DigitValue(c) == d
  {
    (('0' as int) + d) as char
  }

  /** The value of a string of decimal digits, most significant first. */
  function DigitsValue(s: string): nat
    requires AllDigits(s)
  {
    if s == [] then 0 else DigitsValue(s[..|s| - 1]) * 10 + DigitValue(s[|s| - 1])
  }

  /** `str(n)` for a natural number. */
  function ShowNat(n: nat): (r: string)
    ensures r != [] && AllDigits(r)
  {
    if n < 10 then [DigitChar(n)] else ShowNat(n / 10) + [DigitChar(n % 10)]
  }

  /** `str(i)` for an integer. */
  function ShowInt(i: int): (r: string)
    ensures r != []
  {
    if i < 0 then "-" + ShowNat(-i) else ShowNat(i)
  }

  /**
   * `int(s)` for a string: surrounding white space is ignored, then an optional
   * sign and at least one decimal digit; anything else is a `ValueError` (`None`).
   */
  function ParseInt(s: string): Option<int> {
    var t := Strip(s);
    if t != [] && (t[0] == '-' || t[0] == '+') then
      var d := t[1..];
      if d != [] && AllDigits(d) then
        Some(if t[0] == '-' then -(DigitsValue(d) as int) else DigitsValue(d) as int)
      else None
    else if t != [] && AllDigits(t) then Some(DigitsValue(t) as int)
    else None
  }

  lemma {:induction false} ShowNatValue(n: nat)
    ensures DigitsValue(ShowNat(n)) == n
  {
    if n >= 10 {
      ShowNatValue(n / 10);
      var s := ShowNat(n);
      assert s[..|s| - 1] == ShowNat(n / 10);
    }
  }

  /** `int(str(i)) == i`. */
  lemma ParseShowInt(i: int)
    ensures ParseInt(ShowInt(i)) == Some(i)
  {
    var s := ShowInt(i);
    var n: nat := if i < 0 then -i else i;
    ShowNatValue(n);
    var digits := ShowNat(n);
    assert !IsSpace(s[0]) && !IsSpace(s[|s| - 1]) by {
      assert IsDigit(digits[|digits| - 1]);
      assert s[|s| - 1] == digits[|digits| - 1];
    }
    StripNoSpaceEnds(s);
    if i < 0 {
      assert s[1..] == digits;
    } else {
      assert s == digits && IsDigit(s[0]);
    }
  }
}
