/** The dashboard form script (web/public/js/script.js): the two string
    escapers, the hex colour field, the button rows, the embed object sent
    on submit and the live preview. The DOM is reduced to the values the
    script reads from it; the preview is a sequence of blocks instead of an
    HTML string, and markdown rendering of the body is left to the caller. */
module Client {
  import opened Announcements
  import opened Text
  import Renderer
  import Server

  // ------------------------------------------------------------ escaping

  /** The characters neither escaper lets through raw. */
  predicate IsMarkupSpecial(c: char) {
    c == '<' || c == '>' || c == '"' || c == '\''
  }

  /** `s.replace(/c/g, rep)` for a one-character pattern: every `c` is
      replaced, every other character is kept. */
  function ReplaceAll(s: string, c: char, rep: string): string {
    if s == [] then []
    else (if s[0] == c then rep else [s[0]]) + ReplaceAll(s[1..], c, rep)
  }

  /** Without a `c` there is nothing to replace. */
  lemma {:induction false} ReplaceAllAbsent(s: string, c: char, rep: string)
    requires c !in s
    ensures ReplaceAll(s, c, rep) == s
  {
    if s != [] {
      assert s == [s[0]] + s[1..];
      ReplaceAllAbsent(s[1..], c, rep);
    }
  }

  /** Each `c` becomes `rep` and each other character stays, so the
      length grows by `|rep| - 1` per `c`. */
  lemma {:induction false} ReplaceAllLength(s: string, c: char, rep: string)
    ensures |ReplaceAll(s, c, rep)| == |s| + multiset(s)[c] * (|rep| - 1)
  {
    if s != [] {
      ReplaceAllLength(s[1..], c, rep);
      assert s == [s[0]] + s[1..];
      var m, k := multiset(s[1..])[c], |rep| - 1;
      assert multiset(s) == multiset([s[0]]) + multiset(s[1..]);
      if s[0] == c {
        assert multiset(s)[c] == m + 1;
        MulSucc(m, k);
      } else {
        assert multiset(s)[c] == m;
      }
    }
  }

  /** A replacement at least one character long never shortens. */
  lemma {:induction false} ReplaceAllGrows(s: string, c: char, rep: string)
    requires |rep| >= 1
    ensures |s| <= |ReplaceAll(s, c, rep)|
  {
    if s != [] {
      ReplaceAllGrows(s[1..], c, rep);
    }
  }

  lemma MulSucc(m: int, k: int)
    ensures (m + 1) * k == m * k + k
  {
  }

  /** Every character of the result is a character of `s` other than `c`
      or one of `rep`, and every character of `s` other than `c` is kept. */
  lemma {:induction false} ReplaceAllChars(s: string, c: char, rep: string, x: char)
    ensures x in ReplaceAll(s, c, rep) ==> (x in s && x != c) || x in rep
    ensures x in s && x != c ==> x in ReplaceAll(s, c, rep)
  {
    if s != [] {
      ReplaceAllChars(s[1..], c, rep, x);
      assert s == [s[0]] + s[1..];
    }
  }

  lemma {:induction false} ReplaceAllAppend(a: string, b: string, c: char, rep: string)
    ensures ReplaceAll(a + b, c, rep) == ReplaceAll(a, c, rep) + ReplaceAll(b, c, rep)
  {
    if a == [] {
      assert a + b == b;
    } else {
      assert (a + b)[0] == a[0];
      assert (a + b)[1..] == a[1..] + b;
      ReplaceAllAppend(a[1..], b, c, rep);
    }
  }

  /** `escapeHtml`: five global replacements, `&` first. Text without
      any of the five characters comes back unchanged, and escaping never
      shortens its input. */
  function EscapeHtml(s: string): (r: string)
  {
    ReplaceAll(ReplaceAll(ReplaceAll(ReplaceAll(ReplaceAll(
      s, '&', "&amp;"), '<', "&lt;"), '>', "&gt;"), '"', "&quot;"), '\'', "&#039;")
  }

  /** Text without `&`, `<`, `>`, `"` or `'` comes back unchanged. */
  lemma EscapeHtmlPlain(s: string)
    requires '&' !in s && forall i :: 0 <= i < |s| ==> !IsMarkupSpecial(s[i])
    ensures EscapeHtml(s) == s
  {
    assert '<' !in s && '>' !in s && '"' !in s && '\'' !in s;
    ReplaceAllAbsent(s, '&', "&amp;");
    ReplaceAllAbsent(s, '<', "&lt;");
    ReplaceAllAbsent(s, '>', "&gt;");
    ReplaceAllAbsent(s, '"', "&quot;");
    ReplaceAllAbsent(s, '\'', "&#039;");
  }

  /** Escaping never shortens: each replaced character grows by the length
      of its entity less one. */
  lemma EscapeHtmlLength(s: string)
    ensures |s| <= |EscapeHtml(s)|
  {
    var s1 := ReplaceAll(s, '&', "&amp;");
    var s2 := ReplaceAll(s1, '<', "&lt;");
    var s3 := ReplaceAll(s2, '>', "&gt;");
    var s4 := ReplaceAll(s3, '"', "&quot;");
    ReplaceAllGrows(s, '&', "&amp;");
    ReplaceAllGrows(s1, '<', "&lt;");
    ReplaceAllGrows(s2, '>', "&gt;");
    ReplaceAllGrows(s3, '"', "&quot;");
    ReplaceAllGrows(s4, '\'', "&#039;");
  }

  predicate IsEntity(e: string) {
    e == "&amp;" || e == "&lt;" || e == "&gt;" || e == "&quot;" || e == "&#039;"
  }

  predicate BeginsEntity(t: string) {
    StartsWith(t, "&amp;") || StartsWith(t, "&lt;") || StartsWith(t, "&gt;")
    || StartsWith(t, "&quot;") || StartsWith(t, "&#039;")
  }

  /** The reference escaping of one character: its entity, or the
      character itself. */
  function EscapeChar(c: char): (r: string)
    ensures c == '&' || IsMarkupSpecial(c) <==> IsEntity(r)
    ensures !IsEntity(r) ==> r == [c]
    ensures forall i :: 0 <= i < |r| ==> !IsMarkupSpecial(r[i])
    ensures forall i :: 0 < i < |r| ==> r[i] != '&'
  {
    if c == '&' then "&amp;"
    else if c == '<' then "&lt;"
    else if c == '>' then "&gt;"
    else if c == '"' then "&quot;"
    else if c == '\'' then "&#039;"
    else [c]
  }

  /** Escaping character by character, the independent definition
      `escapeHtml` is compared with. */
  function EscapePerChar(s: string): string {
    if s == [] then [] else EscapeChar(s[0]) + EscapePerChar(s[1..])
  }

  lemma EscapeHtmlAppend(a: string, b: string)
    ensures EscapeHtml(a + b) == EscapeHtml(a) + EscapeHtml(b)
  {
    var a1, b1 := ReplaceAll(a, '&', "&amp;"), ReplaceAll(b, '&', "&amp;");
    ReplaceAllAppend(a, b, '&', "&amp;");
    var a2, b2 := ReplaceAll(a1, '<', "&lt;"), ReplaceAll(b1, '<', "&lt;");
    ReplaceAllAppend(a1, b1, '<', "&lt;");
    var a3, b3 := ReplaceAll(a2, '>', "&gt;"), ReplaceAll(b2, '>', "&gt;");
    ReplaceAllAppend(a2, b2, '>', "&gt;");
    var a4, b4 := ReplaceAll(a3, '"', "&quot;"), ReplaceAll(b3, '"', "&quot;");
    ReplaceAllAppend(a3, b3, '"', "&quot;");
    ReplaceAllAppend(a4, b4, '\'', "&#039;");
  }

  lemma ReplaceAllSingle(c: char, d: char, rep: string)
    ensures ReplaceAll([c], d, rep) == if c == d then rep else [c]
  {
    assert [c][1..] == [];
  }

  lemma EscapeAmpersand()
    ensures EscapeHtml("&") == "&amp;"
  {
    ReplaceAllSingle('&', '&', "&amp;");
    assert ReplaceAll("&amp;", '<', "&lt;") == "&amp;";
    assert ReplaceAll("&amp;", '>', "&gt;") == "&amp;";
    assert ReplaceAll("&amp;", '"', "&quot;") == "&amp;";
    ReplaceAllAbsent("&amp;", '\'', "&#039;");
  }

  lemma EscapeLess()
    ensures EscapeHtml("<") == "&lt;"
  {
    ReplaceAllSingle('<', '&', "&amp;");
    ReplaceAllSingle('<', '<', "&lt;");
    assert ReplaceAll("&lt;", '>', "&gt;") == "&lt;";
    assert ReplaceAll("&lt;", '"', "&quot;") == "&lt;";
    ReplaceAllAbsent("&lt;", '\'', "&#039;");
  }

  lemma EscapeGreater()
    ensures EscapeHtml(">") == "&gt;"
  {
    ReplaceAllSingle('>', '&', "&amp;");
    ReplaceAllSingle('>', '<', "&lt;");
    ReplaceAllSingle('>', '>', "&gt;");
    assert ReplaceAll("&gt;", '"', "&quot;") == "&gt;";
    ReplaceAllAbsent("&gt;", '\'', "&#039;");
  }

  lemma EscapeDoubleQuote()
    ensures EscapeHtml("\"") == "&quot;"
  {
    ReplaceAllSingle('"', '&', "&amp;");
    ReplaceAllSingle('"', '<', "&lt;");
    ReplaceAllSingle('"', '>', "&gt;");
    ReplaceAllSingle('"', '"', "&quot;");
    ReplaceAllAbsent("&quot;", '\'', "&#039;");
  }

  lemma EscapeSingleQuote()
    ensures EscapeHtml("'") == "&#039;"
  {
    ReplaceAllSingle('\'', '&', "&amp;");
    ReplaceAllSingle('\'', '<', "&lt;");
    ReplaceAllSingle('\'', '>', "&gt;");
    ReplaceAllSingle('\'', '"', "&quot;");
    ReplaceAllSingle('\'', '\'', "&#039;");
  }

  lemma EscapeOther(c: char)
    requires c != '&' && !IsMarkupSpecial(c)
    ensures EscapeHtml([c]) == [c]
  {
    ReplaceAllSingle(c, '&', "&amp;");
    ReplaceAllSingle(c, '<', "&lt;");
    ReplaceAllSingle(c, '>', "&gt;");
    ReplaceAllSingle(c, '"', "&quot;");
    ReplaceAllSingle(c, '\'', "&#039;");
  }

  /** One character through the five replacements: it is rewritten by at
      most one of them, since no entity holds a character a later step
      looks for. */
  lemma EscapeHtmlChar(c: char)
    ensures EscapeHtml([c]) == EscapeChar(c)
  {
    if c == '&' {
      EscapeAmpersand();
    } else if c == '<' {
      EscapeLess();
    } else if c == '>' {
      EscapeGreater();
    } else if c == '"' {
      EscapeDoubleQuote();
    } else if c == '\'' {
      EscapeSingleQuote();
    } else {
      EscapeOther(c);
    }
  }

  /** Escaping `&` first makes the chain of global replacements the same
      as escaping each character on its own: no entity produced by one
      step is rewritten by a later one. */
  lemma {:induction false} EscapeHtmlIsPerChar(s: string)
    ensures EscapeHtml(s) == EscapePerChar(s)
  {
    if s != [] {
      assert s == [s[0]] + s[1..];
      EscapeHtmlAppend([s[0]], s[1..]);
      EscapeHtmlChar(s[0]);
      EscapeHtmlIsPerChar(s[1..]);
    }
  }

  lemma {:induction false} PerCharHasNoSpecials(s: string)
    ensures forall i :: 0 <= i < |EscapePerChar(s)| ==> !IsMarkupSpecial(EscapePerChar(s)[i])
  {
    if s != [] {
      PerCharHasNoSpecials(s[1..]);
      var chunk, rest := EscapeChar(s[0]), EscapePerChar(s[1..]);
      forall i | 0 <= i < |chunk + rest|
        ensures !IsMarkupSpecial((chunk + rest)[i])
      {
        if i >= |chunk| {
          assert (chunk + rest)[i] == rest[i - |chunk|];
        }
      }
    }
  }

  /** No raw `<`, `>`, `"` or `'` survives escaping. */
  lemma EscapedHasNoSpecials(s: string)
    ensures forall i :: 0 <= i < |EscapeHtml(s)| ==> !IsMarkupSpecial(EscapeHtml(s)[i])
  {
    EscapeHtmlIsPerChar(s);
    PerCharHasNoSpecials(s);
  }

  lemma EntityBegins(e: string, x: string)
    requires IsEntity(e)
    ensures BeginsEntity(e + x)
  {
    assert (e + x)[..|e|] == e;
  }

  predicate AmpersandsBeginEntities(t: string) {
    forall i :: 0 <= i < |t| && t[i] == '&' ==> BeginsEntity(t[i..])
  }

  lemma {:induction false} PerCharAmpersands(s: string)
    ensures AmpersandsBeginEntities(EscapePerChar(s))
  {
    if s != [] {
      PerCharAmpersands(s[1..]);
      var chunk, rest := EscapeChar(s[0]), EscapePerChar(s[1..]);
      var t := chunk + rest;
      forall i | 0 <= i < |t| && t[i] == '&'
        ensures BeginsEntity(t[i..])
      {
        if i < |chunk| {
          assert i == 0 && IsEntity(chunk);
          EntityBegins(chunk, rest);
          assert t[i..] == t;
          assert BeginsEntity(t[i..]);
        } else {
          var k := i - |chunk|;
          assert t[i..] == rest[k..];
          assert rest[k] == '&';
          assert AmpersandsBeginEntities(rest);
          assert BeginsEntity(rest[k..]);
          assert BeginsEntity(t[i..]);
        }
      }
    }
  }

  /** Every `&` in the output begins one of the five entities. */
  lemma EscapedAmpersandsBeginEntities(s: string)
    ensures AmpersandsBeginEntities(EscapeHtml(s))
  {
    EscapeHtmlIsPerChar(s);
    PerCharAmpersands(s);
  }

  /** What a browser makes of the five entities when it reads text back. */
  function Unescape(t: string): string
    decreases |t|
  {
    if t == [] then []
    else if StartsWith(t, "&amp;") then "&" + Unescape(t[5..])
    else if StartsWith(t, "&lt;") then "<" + Unescape(t[4..])
    else if StartsWith(t, "&gt;") then ">" + Unescape(t[4..])
    else if StartsWith(t, "&quot;") then "\"" + Unescape(t[6..])
    else if StartsWith(t, "&#039;") then "'" + Unescape(t[6..])
    else [t[0]] + Unescape(t[1..])
  }

  lemma Differs(t: string, e: string, k: nat)
    requires k < |e| && k < |t| && t[k] != e[k]
    ensures !StartsWith(t, e)
  {
    if |e| <= |t| {
      assert t[..|e|][k] == t[k];
    }
  }

  lemma UnescapeChunk(c: char, x: string)
    ensures Unescape(EscapeChar(c) + x) == [c] + Unescape(x)
  {
    var e := EscapeChar(c);
    var t := e + x;
    assert t[..|e|] == e && t[|e|..] == x;
    if c == '&' {
    } else if c == '<' {
      Differs(t, "&amp;", 1);
    } else if c == '>' {
      Differs(t, "&amp;", 1);
      Differs(t, "&lt;", 1);
    } else if c == '"' {
      Differs(t, "&amp;", 1);
      Differs(t, "&lt;", 1);
      Differs(t, "&gt;", 1);
    } else if c == '\'' {
      Differs(t, "&amp;", 1);
      Differs(t, "&lt;", 1);
      Differs(t, "&gt;", 1);
      Differs(t, "&quot;", 1);
    } else {
      Differs(t, "&amp;", 0);
      Differs(t, "&lt;", 0);
      Differs(t, "&gt;", 0);
      Differs(t, "&quot;", 0);
      Differs(t, "&#039;", 0);
    }
  }

  lemma {:induction false} UnescapePerChar(s: string)
    ensures Unescape(EscapePerChar(s)) == s
  {
    if s != [] {
      UnescapeChunk(s[0], EscapePerChar(s[1..]));
      UnescapePerChar(s[1..]);
      assert s == [s[0]] + s[1..];
    }
  }

  /** Escaping loses nothing and never escapes twice: reading the output
      back as HTML text gives the input. */
  lemma EscapeHtmlRoundTrip(s: string)
    ensures Unescape(EscapeHtml(s)) == s
  {
    EscapeHtmlIsPerChar(s);
    UnescapePerChar(s);
  }

  /** `sanitize`: `String(s).replace(/["'><]/g, '')` for attribute values. */
  function Sanitize(s: string): (r: string)
    ensures |r| <= |s|
    ensures forall i :: 0 <= i < |r| ==> !IsMarkupSpecial(r[i])
    ensures (forall i :: 0 <= i < |s| ==> !IsMarkupSpecial(s[i])) ==> r == s
  {
    if s == [] then []
    else (if IsMarkupSpecial(s[0]) then [] else [s[0]]) + Sanitize(s[1..])
  }

  /** Sanitizing keeps the relative order of what it keeps. */
  lemma {:induction false} SanitizeAppend(a: string, b: string)
    ensures Sanitize(a + b) == Sanitize(a) + Sanitize(b)
  {
    if a == [] {
      assert a + b == b;
    } else {
      var head := if IsMarkupSpecial(a[0]) then [] else [a[0]];
      assert (a + b)[0] == a[0];
      assert (a + b)[1..] == a[1..] + b;
      SanitizeAppend(a[1..], b);
      assert Sanitize(a + b) == head + (Sanitize(a[1..]) + Sanitize(b));
    }
  }

  /** Exactly the four markup characters go; every other character stays. */
  lemma {:induction false} SanitizeKeeps(s: string, c: char)
    ensures c in Sanitize(s) <==> c in s && !IsMarkupSpecial(c)
  {
    if s != [] {
      SanitizeKeeps(s[1..], c);
      assert s == [s[0]] + s[1..];
    }
  }

  lemma SanitizeIdempotent(s: string)
    ensures Sanitize(Sanitize(s)) == Sanitize(s)
  {
  }

  // ---------------------------------------------------------- hex colour

  /** The digits of the default embed colour, and that colour. */
  const DefaultDigits := "2f3136"
  const DefaultEmbedHex := "#" + DefaultDigits

  /** The colour both colour inputs get back on reset. */
  const ResetColor := "#5865f2"

  /** `/^#[0-9A-Fa-f]{6}$/`. */
  predicate IsHashHex6(w: string) {
    |w| == 7 && w[0] == '#' && IsHex6(w[1..])
  }

  /** The digits the user typed in the hex field: the trimmed text
      without its leading `#`, if it has one. */
  function TypedDigits(v: string): string {
    var t := Trim(v);
    if StartsWith(t, "#") then t[1..] else t
  }

  /** The colour the hex field denotes: `#` and six hex digits, when it
      holds (up to surrounding whitespace and an optional `#`) exactly six
      hex digits. */
  function NormalizeHex(v: string): (r: Option<string>)
    ensures r.Some? <==> IsHex6(TypedDigits(v))
    ensures r.Some? ==> IsHashHex6(r.value) && r.value[1..] == TypedDigits(v)
  {
    var d := TypedDigits(v);
    if IsHex6(d) then Some("#" + d) else None
  }

  /** The checks of the `embedColorHex` input handler: trim, prefix `#`
      when it is missing, then match `/^#[0-9A-Fa-f]{6}$/`. */
  method CheckHex(text: string) returns (r: Option<string>)
    ensures r == NormalizeHex(text)
  {
    var v := Trim(text);
    if !StartsWith(v, "#") {
      v := "#" + v;
    } else {
      assert v == "#" + v[1..];
    }
    assert v[1..] == TypedDigits(text);
    if IsHashHex6(v) {
      r := Some(v);
    } else {
      r := None;
    }
  }

  lemma Hex6HasNoWhitespace(d: string)
    requires IsHex6(d)
    ensures NoWhitespace(d) && '#' !in d
  {
    forall i | 0 <= i < |d|
      ensures !IsJsWhitespace(d[i]) && d[i] != '#'
    {
      assert IsHexDigit(d[i]);
    }
  }

  // ----------------------------------------------------- embed on submit

  /** The embed object built on submit: trimmed title and description, each
      absent when empty, and the trimmed hex field (or the default) as the
      colour string. The other embed members are never set by the form. */
  function EmbedObject(title: string, content: string, colorHex: string): (e: EmbedData)
    ensures e.title == Trim(title) && e.description == Trim(content)
    ensures e.color == ColorText(Trim(if colorHex == "" then DefaultEmbedHex else colorHex))
    ensures e.image == "" && e.thumbnail == "" && e.footer == ""
  {
    EmbedData(Trim(title), Trim(content),
              ColorText(Trim(if colorHex == "" then DefaultEmbedHex else colorHex)), "", "", "")
  }

  /** A colour the hex field accepts is the colour the bot gives the embed:
      the value of its six digits, whether or not `#` was typed and
      whatever whitespace surrounds it. */
  lemma AcceptedHexReachesBot(title: string, content: string, colorHex: string)
    requires NormalizeHex(colorHex).Some?
    ensures var w := NormalizeHex(colorHex).value;
      Renderer.EmbedColor(EmbedObject(title, content, colorHex).color) == Some(HexValue(w[1..]))
  {
    var t := Trim(colorHex);
    var d := TypedDigits(colorHex);
    assert colorHex != "";
    Hex6HasNoWhitespace(d);
    if StartsWith(t, "#") {
      assert t == [t[0]] + d;
      assert RemoveFirst(t, '#') == d;
    } else {
      assert t == d;
    }
    assert Renderer.HexCandidate(t) == d;
  }

  lemma DefaultHexValue()
    ensures AllHex(DefaultDigits) && HexValue(DefaultDigits) == 0x2F3136
  {
    var d := DefaultDigits;
    assert AllHex(d) by {
      forall i | 0 <= i < |d| ensures IsHexDigit(d[i]) { }
    }
    assert d[..5] == "2f313";
    assert "2"[..0] == [];
    assert HexValue("2") == 2;
    assert "2f"[..1] == "2";
    assert HexValue("2f") == 0x2F;
    assert "2f3"[..2] == "2f";
    assert HexValue("2f3") == 0x2F3;
    assert "2f31"[..3] == "2f3";
    assert HexValue("2f31") == 0x2F31;
    assert "2f313"[..4] == "2f31";
    assert HexValue("2f313") == 0x2F313;
  }

  /** A `#` followed by six hex digits is accepted unchanged. */
  lemma HashHexAccepted(d: string)
    requires IsHex6(d)
    ensures NormalizeHex("#" + d) == Some("#" + d)
  {
    var w := "#" + d;
    Hex6HasNoWhitespace(d);
    assert NoWhitespace(w) by {
      forall i | 0 <= i < |w| ensures !IsJsWhitespace(w[i]) {
        if i > 0 {
          assert w[i] == d[i - 1];
        }
      }
    }
    assert w[..1] == "#" && w[1..] == d;
  }

  /** With the hex field left empty the embed is `#2f3136`. */
  lemma DefaultHexReachesBot(title: string, content: string)
    ensures Renderer.EmbedColor(EmbedObject(title, content, "").color) == Some(0x2F3136)
  {
    DefaultHexValue();
    HashHexAccepted(DefaultDigits);
    AcceptedHexReachesBot(title, content, DefaultEmbedHex);
  }

  // ------------------------------------------------------------- buttons

  /** One `.button-item` row: the values of its text and URL inputs. */
  datatype ButtonRow = ButtonRow(caption: string, url: string)

  /** The rows whose label and URL are both non-empty, in DOM order. */
  function FilledRows(rows: seq<ButtonRow>): (r: seq<Button>)
    ensures |r| <= |rows|
  {
    if rows == [] then []
    else
      var row := rows[|rows| - 1];
      FilledRows(rows[..|rows| - 1]) + (if row.caption != "" && row.url != "" then [Button(row.caption, row.url)] else [])
  }

  function FirstFive(bs: seq<Button>): (r: seq<Button>)
    ensures r <= bs && |r| == if |bs| < 5 then |bs| else 5
  {
    if |bs| <= 5 then bs else bs[..5]
  }

  /** A button is collected exactly when some row holds it with both
      inputs filled. */
  lemma {:induction false} FilledRowsExactly(rows: seq<ButtonRow>, b: Button)
    ensures b in FilledRows(rows) <==> ButtonRow(b.caption, b.url) in rows && b.caption != "" && b.url != ""
  {
    if rows != [] {
      FilledRowsExactly(rows[..|rows| - 1], b);
      assert rows == rows[..|rows| - 1] + [rows[|rows| - 1]];
    }
  }

  /** The collected buttons keep the order of their rows. */
  lemma {:induction false} FilledRowsAppend(a: seq<ButtonRow>, b: seq<ButtonRow>)
    ensures FilledRows(a + b) == FilledRows(a) + FilledRows(b)
  {
    if b == [] {
      assert a + b == a;
    } else {
      assert (a + b)[..|a + b| - 1] == a + b[..|b| - 1];
      FilledRowsAppend(a, b[..|b| - 1]);
    }
  }

  /** The JSON array the form submits, as the server parses it. */
  function AsRaw(bs: seq<Button>): (r: seq<Server.RawButton>)
    ensures |r| == |bs|
    ensures forall i :: 0 <= i < |bs| ==> r[i] == Server.ButtonObject(bs[i].caption, bs[i].url)
  {
    if bs == [] then [] else AsRaw(bs[..|bs| - 1]) + [Server.ButtonObject(bs[|bs| - 1].caption, bs[|bs| - 1].url)]
  }

  lemma {:induction false} AllAllowedKept(bs: seq<Button>)
    requires forall i :: 0 <= i < |bs| ==> Server.ButtonAllowed(Server.ButtonObject(bs[i].caption, bs[i].url))
    ensures Server.AllowedButtons(AsRaw(bs)) == bs
  {
    if bs != [] {
      AllAllowedKept(bs[..|bs| - 1]);
      assert AsRaw(bs)[..|bs| - 1] == AsRaw(bs[..|bs| - 1]);
    }
  }

  /** The server keeps every button the form submits when each label fits
      in 80 UTF-16 units and each URL is http(s); the form's own cap of five
      is then the only one applied. */
  lemma SubmittedButtonsKept(bs: seq<Button>)
    requires |bs| <= 5
    requires forall i :: 0 <= i < |bs| ==> Server.ButtonAllowed(Server.ButtonObject(bs[i].caption, bs[i].url))
    ensures Server.FilterButtons(Server.Parsed(AsRaw(bs))) == bs
  {
    AllAllowedKept(bs);
  }

  // ------------------------------------------------------------- preview

  /** A file chosen in the file input. */
  datatype LocalFile = LocalFile(name: string, mimeType: string, size: nat)

  datatype FileTile = ImageTile(alt: string) | IconTile(caption: string)
  datatype LinkTile = LinkTile(href: string, text: string)

  /** The pieces `updatePreview` concatenates. A body of `""` is shown as
      the placeholder text. */
  datatype Block =
    | RoleBlock(name: string)
    | FilesBlock(tiles: seq<FileTile>)
    | EmbedBlock(borderColor: string, title: Option<string>, body: string)
    | TextBlock(body: string)
    | ButtonsBlock(links: seq<LinkTile>)

  predicate IsBody(b: Block) {
    b.EmbedBlock? || b.TextBlock?
  }

  function Tile(f: LocalFile): FileTile {
    if StartsWith(f.mimeType, "image/") then ImageTile(EscapeHtml(f.name)) else IconTile(EscapeHtml(f.name))
  }

  /** `f` applied to each element, in order. */
  function Map<A, B>(f: A -> B, xs: seq<A>): (r: seq<B>)
    ensures |r| == |xs| && forall i :: 0 <= i < |xs| ==> r[i] == f(xs[i])
  {
    seq(|xs|, i requires 0 <= i < |xs| => f(xs[i]))
  }

  lemma MapAppend<A, B>(f: A -> B, xs: seq<A>, ys: seq<A>)
    ensures Map(f, xs + ys) == Map(f, xs) + Map(f, ys)
  {
    assert forall i :: 0 <= i < |xs + ys| ==> Map(f, xs + ys)[i] == (Map(f, xs) + Map(f, ys))[i];
  }

  /** `renderFilesPreview`: one tile per file, in order. */
  function Tiles(files: seq<LocalFile>): (r: seq<FileTile>)
    ensures |r| == |files|
    ensures forall i :: 0 <= i < |files| ==> r[i] == Tile(files[i])
  {
    Map(Tile, files)
  }

  function Link(b: Button): LinkTile {
    LinkTile(Sanitize(b.url), EscapeHtml(b.caption))
  }

  /** The buttons whose label and URL are both set, in their order. */
  function FilledButtons(bs: seq<Button>): (r: seq<Button>)
    ensures |r| <= |bs|
  {
    if bs == [] then []
    else
      var b := bs[|bs| - 1];
      FilledButtons(bs[..|bs| - 1]) + (if b.caption != "" && b.url != "" then [b] else [])
  }

  lemma {:induction false} FilledButtonsExactly(bs: seq<Button>, b: Button)
    ensures b in FilledButtons(bs) <==> b in bs && b.caption != "" && b.url != ""
  {
    if bs != [] {
      FilledButtonsExactly(bs[..|bs| - 1], b);
      assert bs == bs[..|bs| - 1] + [bs[|bs| - 1]];
    }
  }

  lemma {:induction false} AllFilledKept(bs: seq<Button>)
    requires forall i :: 0 <= i < |bs| ==> bs[i].caption != "" && bs[i].url != ""
    ensures FilledButtons(bs) == bs
  {
    if bs != [] {
      AllFilledKept(bs[..|bs| - 1]);
      assert bs == bs[..|bs| - 1] + [bs[|bs| - 1]];
    }
  }

  /** The links drawn for the buttons (the label-and-URL test repeats the
      one already made when they were collected): one link per button
      with both set, in order, and nothing else. */
  function Links(bs: seq<Button>): (r: seq<LinkTile>)
    ensures |r| <= |bs|
  {
    Map(Link, FilledButtons(bs))
  }

  /** Every link is drawn for a button with label and URL set, and when
      every button has both, there is one link per button, in order. */
  lemma LinksExactly(bs: seq<Button>)
    ensures forall l :: l in Links(bs) ==> LinkOfFilled(bs, l)
    ensures (forall i :: 0 <= i < |bs| ==> bs[i].caption != "" && bs[i].url != "") ==>
      |Links(bs)| == |bs| && forall i :: 0 <= i < |bs| ==> Links(bs)[i] == Link(bs[i])
  {
    var kept := FilledButtons(bs);
    var r := Links(bs);
    forall l | l in r ensures LinkOfFilled(bs, l) {
      var i :| 0 <= i < |r| && r[i] == l;
      FilledButtonsExactly(bs, kept[i]);
    }
    if forall i :: 0 <= i < |bs| ==> bs[i].caption != "" && bs[i].url != "" {
      AllFilledKept(bs);
    }
  }

  /** `l` is the link drawn for a button of `bs` with label and URL set. */
  predicate LinkOfFilled(bs: seq<Button>, l: LinkTile) {
    exists b :: b in bs && b.caption != "" && b.url != "" && l == Link(b)
  }

  lemma {:induction false} FilledButtonsAppend(a: seq<Button>, b: seq<Button>)
    ensures FilledButtons(a + b) == FilledButtons(a) + FilledButtons(b)
  {
    if b == [] {
      assert a + b == a;
    } else {
      assert (a + b)[..|a + b| - 1] == a + b[..|b| - 1];
      FilledButtonsAppend(a, b[..|b| - 1]);
    }
  }

  /** One more button adds its link at the end when its label and URL
      are set, and nothing otherwise. */
  lemma LinksSnoc(bs: seq<Button>, b: Button)
    ensures Links(bs + [b]) == Links(bs) + (if b.caption != "" && b.url != "" then [Link(b)] else [])
  {
    assert (bs + [b])[..|bs|] == bs;
    var tail := if b.caption != "" && b.url != "" then [b] else [];
    assert FilledButtons(bs + [b]) == FilledButtons(bs) + tail;
    MapAppend(Link, FilledButtons(bs), tail);
  }

  /** The links keep the order of their buttons. */
  lemma LinksAppend(a: seq<Button>, b: seq<Button>)
    ensures Links(a + b) == Links(a) + Links(b)
  {
    FilledButtonsAppend(a, b);
    MapAppend(Link, FilledButtons(a), FilledButtons(b));
  }

  /** What the preview depends on. */
  datatype FormView = FormView(
    content: string,
    role: string,
    roleLabel: string,
    position: string,
    files: seq<LocalFile>,
    useEmbed: bool,
    title: string,
    colorHex: string,
    buttons: seq<Button>)

  function RolePart(v: FormView): seq<Block> {
    if v.role == "" then [] else [RoleBlock(if v.role == "everyone" then "@everyone" else v.roleLabel)]
  }

  function FilesAt(v: FormView, where: string): seq<Block> {
    if v.position == where && |v.files| > 0 then [FilesBlock(Tiles(v.files))] else []
  }

  function Body(v: FormView): Block {
    if v.useEmbed then
      var title := Trim(v.title);
      EmbedBlock(Sanitize(Trim(if v.colorHex == "" then DefaultEmbedHex else v.colorHex)),
                 if title != "" then Some(EscapeHtml(title)) else None, v.content)
    else TextBlock(v.content)
  }

  function ButtonsPart(v: FormView): seq<Block> {
    if |v.buttons| > 0 then [ButtonsBlock(Links(v.buttons))] else []
  }

  /** The preview, top to bottom. */
  function Preview(v: FormView): seq<Block> {
    RolePart(v) + FilesAt(v, "start") + [Body(v)] + FilesAt(v, "end") + ButtonsPart(v)
  }

  /** The role line comes first when a role is chosen, one attachments
      block appears when files are chosen and placed at the start or the
      end, the body sits at its index, and the buttons come last when
      there are any. */
  lemma PreviewLayout(v: FormView)
    ensures var r := Preview(v);
      && |r| == 1 + (if v.role != "" then 1 else 0)
                  + (if |v.files| > 0 && (v.position == "start" || v.position == "end") then 1 else 0)
                  + (if |v.buttons| > 0 then 1 else 0)
      && r[BodyIndex(v)] == Body(v)
      && (r[0].RoleBlock? <==> v.role != "")
      && (r[|r| - 1].ButtonsBlock? <==> |v.buttons| > 0)
      && (|v.buttons| > 0 ==> r[|r| - 1] == ButtonsBlock(Links(v.buttons)))
  {
    var r := Preview(v);
    var rp, s, e, b := RolePart(v), FilesAt(v, "start"), FilesAt(v, "end"), ButtonsPart(v);
    var tail := [Body(v)] + e + b;
    assert r == rp + s + tail;
    assert "start"[0] != "end"[0];
    assert |s| + |e| == if |v.files| > 0 && (v.position == "start" || v.position == "end") then 1 else 0;
    assert r[BodyIndex(v)] == tail[0] == Body(v);
    if rp == [] {
      assert r[0] == (s + tail)[0];
    }
    if b == [] {
      assert r[|r| - 1] == ([Body(v)] + e)[|e|];
    } else {
      assert r[|r| - 1] == b[0];
    }
  }

  function BodyIndex(v: FormView): nat {
    |RolePart(v)| + |FilesAt(v, "start")|
  }

  /** The preview has exactly one body block: the embed when the embed is
      on, holding the message text, which then appears nowhere else. */
  lemma PreviewHasOneBody(v: FormView)
    ensures var p := Preview(v);
      && BodyIndex(v) < |p| && IsBody(p[BodyIndex(v)])
      && (forall j :: 0 <= j < |p| && j != BodyIndex(v) ==> !IsBody(p[j]))
      && (p[BodyIndex(v)].EmbedBlock? <==> v.useEmbed)
      && p[BodyIndex(v)].body == v.content
  {
    var p := Preview(v);
    var r, s, e, b := RolePart(v), FilesAt(v, "start"), FilesAt(v, "end"), ButtonsPart(v);
    assert p == r + s + [Body(v)] + e + b;
    forall j | 0 <= j < |p| && j != BodyIndex(v)
      ensures !IsBody(p[j])
    {
      if j < |r| {
        assert p[j] == r[j];
      } else if j < |r| + |s| {
        assert p[j] == s[j - |r|];
      } else if j < |r| + |s| + 1 + |e| {
        assert p[j] == e[j - |r| - |s| - 1];
      } else {
        assert p[j] == b[j - |r| - |s| - 1 - |e|];
      }
    }
  }

  /** The attachments block is drawn only when files are chosen and the
      placement is `'start'` or `'end'`; it precedes the body exactly for
      `'start'` and follows it exactly for `'end'`. */
  lemma AttachmentPlacement(v: FormView)
    ensures var p := Preview(v);
      && ((exists j :: 0 <= j < |p| && p[j].FilesBlock?) <==>
            |v.files| > 0 && (v.position == "start" || v.position == "end"))
      && (forall j :: 0 <= j < |p| && p[j].FilesBlock? ==>
            && (j < BodyIndex(v) <==> v.position == "start")
            && (j > BodyIndex(v) <==> v.position == "end")
            && p[j].tiles == Tiles(v.files))
  {
    var p := Preview(v);
    var r, s, e, b := RolePart(v), FilesAt(v, "start"), FilesAt(v, "end"), ButtonsPart(v);
    assert p == r + s + [Body(v)] + e + b;
    forall j | 0 <= j < |p| && p[j].FilesBlock?
      ensures && (j < BodyIndex(v) <==> v.position == "start")
              && (j > BodyIndex(v) <==> v.position == "end")
              && p[j].tiles == Tiles(v.files)
    {
      if j < |r| {
        assert false;
      } else if j < |r| + |s| {
        assert p[j] == s[j - |r|];
      } else if j == |r| + |s| {
        assert false;
      } else if j < |r| + |s| + 1 + |e| {
        assert p[j] == e[j - |r| - |s| - 1];
      } else {
        assert false;
      }
    }
    if |v.files| > 0 && v.position == "start" {
      assert p[|r|] == s[0];
    }
    if |v.files| > 0 && v.position == "end" {
      assert p[|r| + |s| + 1] == e[0];
    }
  }

  /** `getButtonsData`: walk the rows in DOM order, collect the filled
      ones, keep the first five. */
  method CollectButtons(rows: seq<ButtonRow>) returns (bs: seq<Button>)
    ensures bs == FirstFive(FilledRows(rows))
  {
    var acc: seq<Button> := [];
    var i := 0;
    while i < |rows|
      invariant 0 <= i <= |rows|
      invariant acc == FilledRows(rows[..i])
    {
      var row := rows[i];
      if row.caption != "" && row.url != "" {
        acc := acc + [Button(row.caption, row.url)];
      }
      assert rows[..i + 1][..i] == rows[..i];
      i := i + 1;
    }
    assert rows[..i] == rows;
    bs := if |acc| <= 5 then acc else acc[..5];
  }

  /** `renderFilesPreview`. */
  method RenderFiles(files: seq<LocalFile>) returns (tiles: seq<FileTile>)
    ensures tiles == Tiles(files)
  {
    tiles := [];
    var i := 0;
    while i < |files|
      invariant 0 <= i <= |files|
      invariant tiles == Tiles(files[..i])
    {
      assert files[..i + 1][..i] == files[..i];
      tiles := tiles + [Tile(files[i])];
      i := i + 1;
    }
    assert files[..i] == files;
  }

  /** The `buttons.forEach` loop of `updatePreview`. */
  method LinkTiles(buttons: seq<Button>) returns (links: seq<LinkTile>)
    ensures links == Links(buttons)
  {
    links := [];
    var i := 0;
    while i < |buttons|
      invariant 0 <= i <= |buttons|
      invariant links == Links(buttons[..i])
    {
      var b := buttons[i];
      if b.caption != "" && b.url != "" {
        links := links + [Link(b)];
      }
      LinksSnoc(buttons[..i], b);
      assert buttons[..i + 1] == buttons[..i] + [b];
      i := i + 1;
    }
    assert buttons[..i] == buttons;
  }

  /** The embed-or-text step of `updatePreview`: the body is an embed
      exactly when the embed is on, and holds the message text either way.
      The embed's border colour carries no markup character, and its title
      shows exactly when the trimmed title is not blank, escaped so that
      reading it back as HTML gives that trimmed title. */
  method DrawBody(v: FormView) returns (b: Block)
    ensures b == Body(v)
    ensures (b.EmbedBlock? <==> v.useEmbed) && (b.EmbedBlock? || b.TextBlock?) && b.body == v.content
    ensures b.EmbedBlock? ==> forall i :: 0 <= i < |b.borderColor| ==> !IsMarkupSpecial(b.borderColor[i])
    ensures b.EmbedBlock? ==> (b.title.Some? <==> Trim(v.title) != "")
    ensures b.EmbedBlock? && b.title.Some? ==> Unescape(b.title.value) == Trim(v.title)
  {
    if v.useEmbed {
      var color := Trim(if v.colorHex == "" then DefaultEmbedHex else v.colorHex);
      var title := Trim(v.title);
      EscapeHtmlRoundTrip(title);
      b := EmbedBlock(Sanitize(color), if title != "" then Some(EscapeHtml(title)) else None, v.content);
    } else {
      b := TextBlock(v.content);
    }
  }

  /** The body of `updatePreview`: the blocks are appended in the order
      role, attachments at the start, embed or text, attachments at the
      end, buttons. */
  method Draw(v: FormView) returns (html: seq<Block>)
    ensures html == Preview(v)
  {
    html := [];
    if v.role != "" {
      html := html + [RoleBlock(if v.role == "everyone" then "@everyone" else v.roleLabel)];
    }
    if v.position == "start" && |v.files| > 0 {
      var tiles := RenderFiles(v.files);
      html := html + [FilesBlock(tiles)];
    }
    assert html == RolePart(v) + FilesAt(v, "start");
    var body := DrawBody(v);
    html := html + [body];
    ghost var upToBody := html;
    if v.position == "end" && |v.files| > 0 {
      var tiles := RenderFiles(v.files);
      html := html + [FilesBlock(tiles)];
    }
    assert html == upToBody + FilesAt(v, "end");
    if |v.buttons| > 0 {
      var links := LinkTiles(v.buttons);
      html := html + [ButtonsBlock(links)];
    }
  }

  /** After a reset the preview shows only the text placeholder. */
  lemma ResetPreview(roleLabel: string)
    ensures Preview(FormView("", "", roleLabel, "start", [], false, "", ResetColor,
                             FirstFive(FilledRows([ButtonRow("", "")])))) == [TextBlock("")]
  {
    var rows := [ButtonRow("", "")];
    assert rows[..0] == [];
    assert FilledRows(rows) == [];
  }

  /** The form's state as the script holds it: the inputs it reads, the
      module-level `currentFiles`, and the preview it writes. */
  class Form {
    var content: string
    var role: string
    /** The text of the selected role option. */
    var roleLabel: string
    /** The value of the checked attachment-position radio. */
    var position: string
    var currentFiles: seq<LocalFile>
    var useEmbed: bool
    var embedTitle: string
    var colorPicker: string
    var colorHex: string
    var rows: seq<ButtonRow>
    var scheduled: bool
    var preview: seq<Block>

    /** The page as loaded: its inputs hold the same defaults `resetForm`
        restores, `currentFiles` is empty, and the script's first
        `updatePreview` draws the preview. */
    constructor ()
      ensures content == "" && role == "" && position == "start" && currentFiles == []
      ensures !useEmbed && embedTitle == "" && colorPicker == ResetColor && colorHex == ResetColor
      ensures rows == [ButtonRow("", "")] && !scheduled
      ensures preview == Preview(View()) && preview == [TextBlock("")]
    {
      content, role, roleLabel, position, currentFiles := "", "", "", "start", [];
      useEmbed, embedTitle, colorPicker, colorHex := false, "", ResetColor, ResetColor;
      rows, scheduled, preview := [ButtonRow("", "")], false, [];
      new;
      ghost var v := View();
      assert v == FormView("", "", "", "start", [], false, "", ResetColor,
                           FirstFive(FilledRows([ButtonRow("", "")])));
      ResetPreview("");
      UpdatePreview();
      assert View() == v;
    }

    /** What `updatePreview` reads, with the buttons `getButtonsData`
        would collect from the rows. */
    function View(): FormView
      reads `content, `role, `roleLabel, `position, `currentFiles, `useEmbed, `embedTitle, `colorHex, `rows
    {
      FormView(content, role, roleLabel, position, currentFiles, useEmbed, embedTitle, colorHex,
               FirstFive(FilledRows(rows)))
    }

    /** `updatePreview`. */
    method UpdatePreview()
      modifies `preview
      ensures preview == Preview(View())
    {
      var buttons := CollectButtons(rows);
      var html := Draw(FormView(content, role, roleLabel, position, currentFiles, useEmbed, embedTitle, colorHex, buttons));
      preview := html;
    }

    /** `handleFileSelect`: the chosen files replace `currentFiles`. */
    method HandleFileSelect(files: seq<LocalFile>)
      modifies `currentFiles, `preview
      ensures currentFiles == files
      ensures preview == Preview(View())
    {
      currentFiles := files;
      UpdatePreview();
    }

    /** The field assignments of `resetForm`. */
    method ResetFields()
      modifies `content, `role, `currentFiles, `useEmbed, `embedTitle, `colorPicker, `colorHex, `position
      modifies `rows, `scheduled
      ensures content == "" && role == "" && currentFiles == [] && !useEmbed && embedTitle == ""
      ensures colorPicker == ResetColor && colorHex == ResetColor && position == "start"
      ensures rows == [ButtonRow("", "")] && !scheduled
    {
      content, role, currentFiles, useEmbed, embedTitle := "", "", [], false, "";
      colorPicker, colorHex, position := ResetColor, ResetColor, "start";
      rows, scheduled := [ButtonRow("", "")], false;
    }

    /** `resetForm`: every input back to its default, one empty button
        row, and a preview holding only the text placeholder. */
    method ResetForm()
      modifies this
      ensures content == "" && role == "" && currentFiles == [] && !useEmbed && embedTitle == ""
      ensures colorPicker == ResetColor && colorHex == ResetColor && position == "start"
      ensures rows == [ButtonRow("", "")] && !scheduled
      ensures roleLabel == old(roleLabel)
      ensures preview == [TextBlock("")]
    {
      ResetFields();
      ghost var v := View();
      assert v == FormView("", "", roleLabel, "start", [], false, "", ResetColor,
                           FirstFive(FilledRows([ButtonRow("", "")])));
      ResetPreview(roleLabel);
      UpdatePreview();
    }

    /** The `input` handler of the hex field: an accepted value moves the
        picker and redraws; anything else changes nothing. */
    method OnHexInput()
      modifies `colorPicker, `preview
      ensures NormalizeHex(colorHex).Some? ==>
        colorPicker == NormalizeHex(colorHex).value && preview == Preview(View())
      ensures NormalizeHex(colorHex).None? ==>
        colorPicker == old(colorPicker) && preview == old(preview)
    {
      var v := CheckHex(colorHex);
      if v.Some? {
        colorPicker := v.value;
        UpdatePreview();
      }
      assert colorHex == old(colorHex);
    }

    /** The `input` handler of the colour picker: the hex field follows it. */
    method OnColorInput()
      modifies `colorHex, `preview
      ensures colorHex == colorPicker
      ensures preview == Preview(View())
    {
      colorHex := colorPicker;
      UpdatePreview();
    }
  }
}
