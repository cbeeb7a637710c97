/** String helpers that mirror the JavaScript built-ins the announcement
    pipeline relies on: `trim`, `replace` of a single character, the
    `[0-9A-Fa-f]` and `https?://` regular expressions, `parseInt(_, 16)`,
    `Number` on digit strings and `String.prototype.length`. */
module Text {

  /** The characters `String.prototype.trim` removes: the ECMAScript
      WhiteSpace and LineTerminator productions. */
  predicate IsJsWhitespace(c: char) {
    || c == '\t' || c == '\n' || c == '\U{000B}' || c == '\U{000C}' || c == '\r'
    || c == ' ' || c == '\U{00A0}' || c == '\U{1680}'
    || ('\U{2000}' <= c <= '\U{200A}')
    || c == '\U{2028}' || c == '\U{2029}' || c == '\U{202F}' || c == '\U{205F}'
    || c == '\U{3000}' || c == '\U{FEFF}'
  }

  predicate NoWhitespace(s: string) {
    forall i :: 0 <= i < |s| ==> !IsJsWhitespace(s[i])
  }

  predicate AllWhitespace(s: string) {
    forall i :: 0 <= i < |s| ==> IsJsWhitespace(s[i])
  }

  function TrimStart(s: string): (r: string)
    ensures r == "" || !IsJsWhitespace(r[0])
    ensures |r| <= |s| && r == s[|s| - |r|..]
    ensures NoWhitespace(s) ==> r == s
  {
    if s != [] && IsJsWhitespace(s[0]) then TrimStart(s[1..]) else s
  }

  function TrimEnd(s: string): (r: string)
    ensures r == "" || !IsJsWhitespace(r[|r| - 1])
    ensures |r| <= |s| && r == s[..|r|]
    ensures NoWhitespace(s) ==> r == s
  {
    if s != [] && IsJsWhitespace(s[|s| - 1]) then TrimEnd(s[..|s| - 1]) else s
  }

  /** What `TrimStart` drops is whitespace. */
  lemma {:induction false} TrimStartDropsWhitespace(s: string)
    ensures AllWhitespace(s[..|s| - |TrimStart(s)|])
  {
    if s != [] && IsJsWhitespace(s[0]) {
      var r := TrimStart(s[1..]);
      TrimStartDropsWhitespace(s[1..]);
      assert s[..|s| - |r|] == [s[0]] + s[1..][..|s| - 1 - |r|];
    }
  }

  /** What `TrimEnd` drops is whitespace. */
  lemma {:induction false} TrimEndDropsWhitespace(s: string)
    ensures AllWhitespace(s[|TrimEnd(s)|..])
  {
    if s != [] && IsJsWhitespace(s[|s| - 1]) {
      var r := TrimEnd(s[..|s| - 1]);
      TrimEndDropsWhitespace(s[..|s| - 1]);
      assert s[|r|..] == s[..|s| - 1][|r|..] + [s[|s| - 1]];
    }
  }

  /** `r` is the part of `s` that starts at `a` and has whitespace only
      before and after it. */
  predicate TrimmedAt(s: string, r: string, a: int) {
    && 0 <= a && a + |r| <= |s| && r == s[a..a + |r|]
    && AllWhitespace(s[..a]) && AllWhitespace(s[a + |r|..])
  }

  /** Whitespace taken off the front, then off the back, leaves a middle
      slice with whitespace on both sides of it. */
  lemma MiddleSlice(s: string, t: string, r: string)
    requires |t| <= |s| && t == s[|s| - |t|..] && AllWhitespace(s[..|s| - |t|])
    requires |r| <= |t| && r == t[..|r|] && AllWhitespace(t[|r|..])
    ensures TrimmedAt(s, r, |s| - |t|)
  {
    var a := |s| - |t|;
    assert r == s[a..a + |r|];
    assert s[a + |r|..] == t[|r|..];
  }

  /** `s.trim()`: the middle of `s` left after removing whitespace from
      both ends, so it neither starts nor ends with whitespace, and is `s`
      itself when `s` has none. */
  function Trim(s: string): (r: string)
    ensures r == "" || (!IsJsWhitespace(r[0]) && !IsJsWhitespace(r[|r| - 1]))
    ensures |r| <= |s|
    ensures NoWhitespace(s) ==> r == s
  {
    TrimEnd(TrimStart(s))
  }

  /** Trimming removes characters only at the two ends, and only
      whitespace: what is left is the slice of `s` starting where the
      leading whitespace stops, with only whitespace after it. */
  lemma TrimIsMiddle(s: string)
    ensures TrimmedAt(s, Trim(s), |s| - |TrimStart(s)|)
  {
    TrimStartDropsWhitespace(s);
    TrimEndDropsWhitespace(TrimStart(s));
    MiddleSlice(s, TrimStart(s), TrimEnd(TrimStart(s)));
  }

  /** Trimming removes whitespace only: every other character survives. */
  lemma {:induction false} TrimStartKeeps(s: string, i: nat)
    requires i < |s| && !IsJsWhitespace(s[i])
    ensures |s| - |TrimStart(s)| <= i
  {
    if IsJsWhitespace(s[0]) {
      TrimStartKeeps(s[1..], i - 1);
    }
  }

  lemma {:induction false} TrimEndKeeps(s: string, i: nat)
    requires i < |s| && !IsJsWhitespace(s[i])
    ensures i < |TrimEnd(s)|
  {
    if IsJsWhitespace(s[|s| - 1]) {
      TrimEndKeeps(s[..|s| - 1], i);
    }
  }

  lemma TrimKeeps(s: string, i: nat)
    requires i < |s| && !IsJsWhitespace(s[i])
    ensures s[i] in Trim(s)
  {
    var t := TrimStart(s);
    var k := |s| - |t|;
    TrimStartKeeps(s, i);
    assert t[i - k] == s[i];
    var r := TrimEnd(t);
    TrimEndKeeps(t, i - k);
    assert r[i - k] == t[i - k];
    assert r == Trim(s);
    assert Trim(s)[i - k] == s[i];
  }

  predicate StartsWith(s: string, prefix: string) {
    |prefix| <= |s| && s[..|prefix|] == prefix
  }

  /** `r` is `s` without its character at `k`, which is the first `c`. */
  predicate RemovedAt(s: string, c: char, k: int, r: string) {
    0 <= k < |s| && s[k] == c && c !in s[..k] && r == s[..k] + s[k + 1..]
  }

  /** `s.replace(c, '')` with a one-character string pattern: only the
      first occurrence of `c` is removed. */
  function RemoveFirst(s: string, c: char): (r: string)
    ensures c in s ==> |r| == |s| - 1 && exists k :: RemovedAt(s, c, k, r)
    ensures c !in s ==> r == s
  {
    if s == [] then []
    else if s[0] == c then
      assert RemovedAt(s, c, 0, s[1..]) by {
        assert s[..0] == [] && s[1..] == s[..0] + s[1..];
      }
      s[1..]
    else
      var rest := RemoveFirst(s[1..], c);
      RemoveFirstStep(s, c, rest);
      [s[0]] + rest
  }

  lemma RemoveFirstStep(s: string, c: char, rest: string)
    requires s != [] && s[0] != c
    requires c in s[1..] ==> exists k :: RemovedAt(s[1..], c, k, rest)
    ensures c in s ==> exists k :: RemovedAt(s, c, k, [s[0]] + rest)
  {
    if c in s {
      var t := s[1..];
      assert s == [s[0]] + t;
      assert c in t;
      var k :| RemovedAt(t, c, k, rest);
      assert s[..k + 1] == [s[0]] + t[..k];
      assert c !in s[..k + 1];
      assert s[k + 2..] == t[k + 1..];
      assert [s[0]] + rest == s[..k + 1] + s[k + 2..];
      assert RemovedAt(s, c, k + 1, [s[0]] + rest);
    }
  }

  /** Removing the first `c` keeps every other character. */
  lemma {:induction false} RemoveFirstKeeps(s: string, c: char, x: char)
    requires x in s && x != c
    ensures x in RemoveFirst(s, c)
  {
    if s[0] != c && s[0] != x {
      RemoveFirstKeeps(s[1..], c, x);
    }
  }

  predicate IsHexDigit(c: char) {
    ('0' <= c <= '9') || ('a' <= c <= 'f') || ('A' <= c <= 'F')
  }

  predicate IsDecimalDigit(c: char) {
    '0' <= c <= '9'
  }

  predicate AllHex(s: string) {
    forall i :: 0 <= i < |s| ==> IsHexDigit(s[i])
  }

  /** The regular expression `^[0-9A-Fa-f]{6}$`. */
  predicate IsHex6(s: string) {
    |s| == 6 && AllHex(s)
  }

  function HexDigitValue(c: char): (v: nat)
    requires IsHexDigit(c)
    ensures v < 16
  {
    if '0' <= c <= '9' then c as int - '0' as int
    else if 'a' <= c <= 'f' then c as int - 'a' as int + 10
    else c as int - 'A' as int + 10
  }

  function Pow16(n: nat): (p: nat)
    ensures p >= 1
  {
    if n == 0 then 1 else 16 * Pow16(n - 1)
  }

  /** `parseInt(s, 16)` on a string made only of hexadecimal digits: a
      number with `|s|` base-16 digits, so below 16 to the power `|s|`. */
  function HexValue(s: string): (v: nat)
    requires AllHex(s)
    ensures v < Pow16(|s|)
  {
    if s == [] then 0
    else
      var init := s[..|s| - 1];
      var h := HexValue(init);
      assert 16 * (h + 1) <= 16 * Pow16(|init|);
      16 * h + HexDigitValue(s[|s| - 1])
  }

  /** Six hexadecimal digits always denote a 24-bit RGB value. */
  lemma Hex6Bound(s: string)
    requires IsHex6(s)
    ensures HexValue(s) <= 0xFF_FFFF
  {
    assert Pow16(6) == 0x100_0000;
  }

  function DecimalValue(s: string): nat
    requires forall i :: 0 <= i < |s| ==> IsDecimalDigit(s[i])
  {
    if s == [] then 0
    else 10 * DecimalValue(s[..|s| - 1]) + DecimalDigitValue(s[|s| - 1])
  }

  function DecimalDigitValue(c: char): (v: nat)
    requires IsDecimalDigit(c)
    ensures v < 10
  {
    c as int - '0' as int
  }

  /** The value of `String.prototype.length`: the number of UTF-16 code
      units, so a character outside the Basic Multilingual Plane counts
      twice. */
  function Utf16Length(s: string): (n: nat)
    ensures |s| <= n <= 2 * |s|
  {
    if s == [] then 0
    else Utf16Length(s[..|s| - 1]) + (if s[|s| - 1] as int > 0xFFFF then 2 else 1)
  }

  /** ASCII-only lower-casing, which is what a JavaScript regular
      expression with the `i` flag (and no `u` flag) compares by for the
      letters of `https?://`. */
  function LowerAscii(c: char): (d: char)
    ensures 'A' <= c <= 'Z' ==> 'a' <= d <= 'z'
    ensures !('A' <= c <= 'Z') ==> d == c
  {
    if 'A' <= c <= 'Z' then (c as int + 32) as char else c
  }

  predicate EqualsIgnoringAsciiCase(s: string, lower: string) {
    |s| == |lower| && forall i :: 0 <= i < |s| ==> LowerAscii(s[i]) == lower[i]
  }

  /** The regular expression `/^https?:\/\//i`. */
  predicate HasHttpScheme(url: string) {
    || (|url| >= 7 && EqualsIgnoringAsciiCase(url[..7], "http://"))
    || (|url| >= 8 && EqualsIgnoringAsciiCase(url[..8], "https://"))
  }
}
