/**
 * The JavaScript string operations the bot relies on: `trim`, the NUL-stripping `safeText`,
 * ASCII case mapping, `includes`, `split` and the `Number(...)` conversion of a string.
 */
module JsText {
  import opened Wrappers

  // ---------------------------------------------------------------------------------------------
  // trim

  /** The characters `String.prototype.trim` removes: ECMAScript WhiteSpace and LineTerminator. */
  predicate IsSpace(c: char) {
    || c == ' ' || c == '\t' || c == '\n' || c == '\r' || c == '\U{000B}' || c == '\U{000C}'
    || c == '\U{00A0}' || c == '\U{1680}' || ('\U{2000}' <= c <= '\U{200A}')
    || c == '\U{2028}' || c == '\U{2029}' || c == '\U{202F}' || c == '\U{205F}'
    || c == '\U{3000}' || c == '\U{FEFF}'
  }

  /** The number of white-space characters at the start of `s`. */
  function LeadingSpaces(s: string): (n: nat)
    ensures n <= |s|
    ensures forall i :: 0 <= i < n ==> IsSpace(s[i])
    ensures n < |s| ==> !IsSpace(s[n])
  {
    if |s| > 0 && IsSpace(s[0]) then 1 + LeadingSpaces(s[1..]) else 0
  }

  /** The number of white-space characters at the end of `s`. */
  function TrailingSpaces(s: string): (n: nat)
    ensures n <= |s|
    ensures forall i :: |s| - n <= i < |s| ==> IsSpace(s[i])
    ensures n < |s| ==> !IsSpace(s[|s| - 1 - n])
  {
    if |s| > 0 && IsSpace(s[|s| - 1]) then 1 + TrailingSpaces(s[..|s| - 1]) else 0
  }

  /**
   * `s.trim()`: the longest infix of `s` that neither starts nor ends with white space, found
   * after the leading white space; everything cut off on either side is white space.
   */
  function Trim(s: string): (r: string)
    ensures LeadingSpaces(s) + |r| <= |s|
    ensures r == [] || (!IsSpace(r[0]) && !IsSpace(r[|r| - 1]))
    ensures r == s[LeadingSpaces(s)..LeadingSpaces(s) + |r|]
    ensures forall i :: LeadingSpaces(s) + |r| <= i < |s| ==> IsSpace(s[i])
  {
    var rest := s[LeadingSpaces(s)..];
    rest[..|rest| - TrailingSpaces(rest)]
  }

  /** A string that starts and ends with non-white-space is its own trim. */
  lemma TrimOfTrimmed(s: string)
    requires s == [] || (!IsSpace(s[0]) && !IsSpace(s[|s| - 1]))
    ensures Trim(s) == s
  {
    assert LeadingSpaces(s) == 0;
    if s != [] {
      assert TrailingSpaces(s) == 0;
    }
  }

  /** Trimming twice is trimming once. */
  lemma TrimIdempotent(s: string)
    ensures Trim(Trim(s)) == Trim(s)
  {
    TrimOfTrimmed(Trim(s));
  }

  // ---------------------------------------------------------------------------------------------
  // safeText

  const Nul: char := '\0'

  /** `safeText(s)`: `String(s ?? '')` with every U+0000 removed, order otherwise kept. */
  function SafeText(s: string): (r: string)
    ensures Nul !in r
    ensures |r| <= |s|
  {
    if s == [] then [] else (if s[0] == Nul then [] else [s[0]]) + SafeText(s[1..])
  }

  /**
   * The text gets shorter by exactly its number of NULs: each NUL is dropped, not replaced, and
   * a lone NUL leaves nothing.
   */
  lemma {:induction false} SafeTextDropsNuls(s: string)
    ensures |SafeText(s)| == |s| - multiset(s)[Nul]
    ensures SafeText([Nul]) == []
  {
    if s != [] {
      SafeTextDropsNuls(s[1..]);
      assert s == [s[0]] + s[1..];
    }
  }

  /** A string without NULs passes `safeText` unchanged. */
  lemma {:induction false} SafeTextKeeps(s: string)
    requires Nul !in s
    ensures SafeText(s) == s
  {
    if s != [] {
      SafeTextKeeps(s[1..]);
    }
  }

  /** safeText works piece by piece: it commutes with concatenation. */
  lemma {:induction false} SafeTextConcat(a: string, b: string)
    ensures SafeText(a + b) == SafeText(a) + SafeText(b)
  {
    if a != [] {
      assert (a + b)[1..] == a[1..] + b;
      SafeTextConcat(a[1..], b);
    } else {
      assert a + b == b;
    }
  }

  /** `safeText(safeText(s)) == safeText(s)`. */
  lemma SafeTextIdempotent(s: string)
    ensures SafeText(SafeText(s)) == SafeText(s)
  {
    SafeTextKeeps(SafeText(s));
  }

  // ---------------------------------------------------------------------------------------------
  // `x || fallback` for a nullable string

  /** JavaScript's `x || fallback` on a string that may be null: the empty string is falsy too. */
  function Or(x: Option<string>, fallback: string): (r: string)
    ensures x.Some? && x.value != "" ==> r == x.value
    ensures x.None? || x.value == "" ==> r == fallback
  {
    if x.Some? && x.value != "" then x.value else fallback
  }

  // ---------------------------------------------------------------------------------------------
  // case mapping (ASCII letters only)

  function UpperChar(c: char): char {
    if 'a' <= c <= 'z' then (c as int - 32) as char else c
  }

  function LowerChar(c: char): char {
    if 'A' <= c <= 'Z' then (c as int + 32) as char else c
  }

  /** `s.toUpperCase()` on the ASCII letters: same length, letter by letter. */
  function ToUpper(s: string): (r: string)
    ensures |r| == |s| && forall i :: 0 <= i < |s| ==> r[i] == UpperChar(s[i])
  {
    seq(|s|, i requires 0 <= i < |s| => UpperChar(s[i]))
  }

  /** `s.toLowerCase()` on the ASCII letters: same length, letter by letter. */
  function ToLower(s: string): (r: string)
    ensures |r| == |s| && forall i :: 0 <= i < |s| ==> r[i] == LowerChar(s[i])
  {
    seq(|s|, i requires 0 <= i < |s| => LowerChar(s[i]))
  }

  /** Upper-casing adds no NUL and is idempotent. */
  lemma ToUpperFacts(s: string)
    ensures Nul !in s ==> Nul !in ToUpper(s)
    ensures ToUpper(ToUpper(s)) == ToUpper(s)
  {
    if Nul in s {
    } else {
      forall i | 0 <= i < |s| ensures ToUpper(s)[i] != Nul {
        assert s[i] != Nul;
      }
    }
  }

  /**
   * Case mapping forgets the case the text was typed in: lower-casing an upper-cased text, or
   * lower-casing twice, gives the same as lower-casing once, so a command is matched in any case.
   */
  lemma CaseFolding(s: string)
    ensures ToLower(ToUpper(s)) == ToLower(s)
    ensures ToLower(ToLower(s)) == ToLower(s)
    ensures ToUpper(ToLower(s)) == ToUpper(s)
  {
  }

  // ---------------------------------------------------------------------------------------------
  // includes

  predicate StartsWith(s: string, prefix: string) {
    |prefix| <= |s| && s[..|prefix|] == prefix
  }

  /** `s.includes(sub)`. */
  predicate Contains(s: string, sub: string)
    decreases |s|
  {
    StartsWith(s, sub) || (|s| > 0 && Contains(s[1..], sub))
  }

  /** Whatever surrounds it, a string contains its own middle piece. */
  lemma {:induction false} ContainsMiddle(before: string, sub: string, after: string)
    ensures Contains(before + sub + after, sub)
  {
    if before == [] {
      assert before + sub + after == sub + after;
      assert (sub + after)[..|sub|] == sub;
    } else {
      assert (before + sub + after)[1..] == before[1..] + sub + after;
      ContainsMiddle(before[1..], sub, after);
    }
  }

  // ---------------------------------------------------------------------------------------------
  // split and join

  /** `s.split(sep)` for a one-character separator: never empty, no piece holds `sep`. */
  function Split(s: string, sep: char): (parts: seq<string>)
    ensures |parts| >= 1
    ensures forall i :: 0 <= i < |parts| ==> sep !in parts[i]
  {
    if s == [] then [""]
    else
      var rest := Split(s[1..], sep);
      if s[0] == sep then [""] + rest else [[s[0]] + rest[0]] + rest[1..]
  }

  /** `parts.join(sep)`. */
  function Join(parts: seq<string>, sep: char): string
    requires |parts| >= 1
  {
    if |parts| == 1 then parts[0] else parts[0] + [sep] + Join(parts[1..], sep)
  }

  /** Joining the pieces of a split gives back the original string. */
  lemma {:induction false} JoinSplit(s: string, sep: char)
    ensures Join(Split(s, sep), sep) == s
  {
    if s != [] {
      var rest := Split(s[1..], sep);
      JoinSplit(s[1..], sep);
      if s[0] == sep {
        assert Split(s, sep)[1..] == rest;
      } else if |rest| == 1 {
      } else {
        var parts := Split(s, sep);
        assert parts[1..] == rest[1..];
        assert Join(rest, sep) == rest[0] + [sep] + Join(rest[1..], sep);
        assert s == [s[0]] + s[1..];
      }
    }
  }

  /** A string free of `sep` splits into itself alone. */
  lemma {:induction false} SplitWithoutSep(a: string, sep: char)
    requires sep !in a
    ensures Split(a, sep) == [a]
  {
    if a != [] {
      SplitWithoutSep(a[1..], sep);
      assert [a[0]] + a[1..] == a;
    }
  }

  /** Splitting at the first separator peels off the first piece. */
  lemma {:induction false} SplitAtSep(a: string, sep: char, t: string)
    requires sep !in a
    ensures Split(a + [sep] + t, sep) == [a] + Split(t, sep)
  {
    if a == [] {
      assert a + [sep] + t == [sep] + t;
      assert ([sep] + t)[1..] == t;
    } else {
      assert (a + [sep] + t)[1..] == a[1..] + [sep] + t;
      SplitAtSep(a[1..], sep, t);
      assert [a[0]] + a[1..] == a;
    }
  }

  /** Splitting a join of separator-free pieces gives back the pieces. */
  lemma {:induction false} SplitJoin(parts: seq<string>, sep: char)
    requires |parts| >= 1
    requires forall i :: 0 <= i < |parts| ==> sep !in parts[i]
    ensures Split(Join(parts, sep), sep) == parts
  {
    if |parts| == 1 {
      SplitWithoutSep(parts[0], sep);
    } else {
      SplitJoin(parts[1..], sep);
      SplitAtSep(parts[0], sep, Join(parts[1..], sep));
      assert [parts[0]] + parts[1..] == parts;
    }
  }

  // ---------------------------------------------------------------------------------------------
  // Number(s) for decimal integers

  predicate IsDigit(c: char) {
    '0' <= c <= '9'
  }

  predicate AllDigits(s: string) {
    forall i :: 0 <= i < |s| ==> IsDigit(s[i])
  }

  /** The value of a string of decimal digits, most significant first. */
  function DigitsValue(s: string): nat
    requires AllDigits(s)
  {
    if s == [] then 0 else 10 * DigitsValue(s[..|s| - 1]) + (s[|s| - 1] as int - '0' as int)
  }

  /** The decimal notation of `n`, without leading zeros. */
  function ShowNat(n: nat): (r: string)
    ensures |r| >= 1 && AllDigits(r)
  {
    var d := ['0' + (n % 10) as char];
    if n < 10 then d else ShowNat(n / 10) + d
  }

  /** The decimal notation of `i`, with a minus sign when negative. */
  function ShowInt(i: int): (r: string)
    ensures |r| >= 1
    ensures forall k :: 0 <= k < |r| ==> IsDigit(r[k]) || (k == 0 && r[k] == '-')
  {
    if i < 0 then "-" + ShowNat(-i) else ShowNat(i)
  }

  /**
   * `Number(t)` of a trimmed, non-empty string, for the forms this bot meets: an optional sign
   * followed by decimal digits. Every other string is NaN here (None).
   */
  function ParseInt(t: string): Option<int> {
    if |t| >= 2 && (t[0] == '-' || t[0] == '+') && AllDigits(t[1..]) then
      var v: int := DigitsValue(t[1..]);
      Some(if t[0] == '-' then -v else v)
    else if |t| >= 1 && AllDigits(t) then
      Some(DigitsValue(t))
    else
      None
  }

  /** `Number(s)` when it is finite: it trims, and a blank string is 0. None stands for NaN. */
  function JsNumber(s: string): Option<int> {
    var t := Trim(s);
    if t == "" then Some(0) else ParseInt(t)
  }

  /** Reading back a decimal digit string gives its value. */
  lemma {:induction false} DigitsOfShowNat(n: nat)
    ensures DigitsValue(ShowNat(n)) == n
  {
    var d := ['0' + (n % 10) as char];
    if n >= 10 {
      DigitsOfShowNat(n / 10);
      var s := ShowNat(n / 10) + d;
      assert s[..|s| - 1] == ShowNat(n / 10);
    }
  }

  /** `Number(String(i)) === i`. */
  lemma ParseShowInt(i: int)
    ensures ParseInt(ShowInt(i)) == Some(i)
    ensures Trim(ShowInt(i)) == ShowInt(i)
  {
    var r := ShowInt(i);
    if i < 0 {
      assert r[1..] == ShowNat(-i);
      DigitsOfShowNat(-i);
      var v: int := DigitsValue(r[1..]);
      assert ParseInt(r) == Some(-v);
    } else {
      DigitsOfShowNat(i);
      assert IsDigit(r[0]);
      assert ParseInt(r) == Some(DigitsValue(r));
    }
    ShowIntUntrimmed(i);
  }

  /** A decimal notation has no white space to trim. */
  lemma ShowIntUntrimmed(i: int)
    ensures Trim(ShowInt(i)) == ShowInt(i)
  {
    var r := ShowInt(i);
    assert !IsSpace(r[0]) && !IsSpace(r[|r| - 1]);
    TrimOfTrimmed(r);
  }
}
