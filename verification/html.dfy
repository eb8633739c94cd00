/** `sanitizeForHtml` (app.js:80-87): the text of a value with the five
    characters that are special in HTML replaced by character references,
    one global `replace` per character, ampersands first. */
module Html {
  import opened JsString

  /** `s.replace(/c/g, rep)`. */
  function ReplaceChar(s: string, c: char, rep: string): (r: string)
    ensures c !in s ==> r == s
  {
    if s == [] then []
    else (if s[0] == c then rep else [s[0]]) + ReplaceChar(s[1..], c, rep)
  }

  /** A character that cannot appear in escaped text. */
  predicate Unsafe(c: char) {
    c == '<' || c == '>' || c == '"' || c == '\''
  }

  /** The chain of five replacements. */
  function SanitizeText(s: string): string {
    var amp := ReplaceChar(s, '&', "&amp;");
    var lt := ReplaceChar(amp, '<', "&lt;");
    var gt := ReplaceChar(lt, '>', "&gt;");
    var quot := ReplaceChar(gt, '"', "&quot;");
    ReplaceChar(quot, '\'', "&#39;")
  }

  /** `sanitizeForHtml(value)`: `null` and `undefined` become the empty text. */
  function SanitizeForHtml(v: JsValue): (r: string)
    ensures v.Null? || v.Undefined? ==> r == []
  {
    SanitizeText(if v.Null? || v.Undefined? then "" else ToJsString(v))
  }

  /** The reference: every character escaped on its own. */
  function EscapeChar(c: char): string {
    match c
    case '&' => "&amp;"
    case '<' => "&lt;"
    case '>' => "&gt;"
    case '"' => "&quot;"
    case '\'' => "&#39;"
    case _ => [c]
  }

  function EscapeEach(s: string): string {
    if s == [] then [] else EscapeChar(s[0]) + EscapeEach(s[1..])
  }

  lemma {:induction false} ReplaceAppend(a: string, b: string, c: char, rep: string)
    ensures ReplaceChar(a + b, c, rep) == ReplaceChar(a, c, rep) + ReplaceChar(b, c, rep)
    decreases |a|
  {
    if a == [] {
      assert a + b == b;
    } else {
      assert (a + b)[1..] == a[1..] + b;
      ReplaceAppend(a[1..], b, c, rep);
    }
  }

  /** The chain distributes over concatenation. */
  lemma SanitizeAppend(a: string, b: string)
    ensures SanitizeText(a + b) == SanitizeText(a) + SanitizeText(b)
  {
    var amp := ReplaceChar(a, '&', "&amp;");
    var amp' := ReplaceChar(b, '&', "&amp;");
    ReplaceAppend(a, b, '&', "&amp;");
    var lt := ReplaceChar(amp, '<', "&lt;");
    var lt' := ReplaceChar(amp', '<', "&lt;");
    ReplaceAppend(amp, amp', '<', "&lt;");
    var gt := ReplaceChar(lt, '>', "&gt;");
    var gt' := ReplaceChar(lt', '>', "&gt;");
    ReplaceAppend(lt, lt', '>', "&gt;");
    var quot := ReplaceChar(gt, '"', "&quot;");
    var quot' := ReplaceChar(gt', '"', "&quot;");
    ReplaceAppend(gt, gt', '"', "&quot;");
    ReplaceAppend(quot, quot', '\'', "&#39;");
  }

  /** On one character the chain is the reference: no later replacement
      touches what an earlier one wrote. */
  lemma SanitizeChar(c: char)
    ensures SanitizeText([c]) == EscapeChar(c)
  {
    var e := EscapeChar(c);
    ReplaceSingle(c, '&', "&amp;");
    if c == '&' {
      PassesKeep(e);
    } else {
      ReplaceSingle(c, '<', "&lt;");
      if c == '<' {
        PassesKeep(e);
      } else {
        ReplaceSingle(c, '>', "&gt;");
        if c == '>' {
          PassesKeep(e);
        } else {
          ReplaceSingle(c, '"', "&quot;");
          if c == '"' {
            PassesKeep(e);
          } else {
            ReplaceSingle(c, '\'', "&#39;");
          }
        }
      }
    }
  }

  lemma ReplaceSingle(x: char, c: char, rep: string)
    ensures ReplaceChar([x], c, rep) == if x == c then rep else [x]
  {
    assert [x][1..] == [];
  }

  /** Text without the four unsafe characters passes every replacement but
      the first unchanged. */
  lemma PassesKeep(e: string)
    requires forall i :: 0 <= i < |e| ==> !Unsafe(e[i])
    ensures ReplaceChar(e, '<', "&lt;") == e
    ensures ReplaceChar(e, '>', "&gt;") == e
    ensures ReplaceChar(e, '"', "&quot;") == e
    ensures ReplaceChar(e, '\'', "&#39;") == e
  {
    assert '<' !in e && '>' !in e && '"' !in e && '\'' !in e;
  }

  /** The five passes in sequence escape every character on its own. */
  lemma {:induction false} SanitizeIsEscapeEach(s: string)
    ensures SanitizeText(s) == EscapeEach(s)
    decreases |s|
  {
    if s != [] {
      assert s == [s[0]] + s[1..];
      SanitizeAppend([s[0]], s[1..]);
      SanitizeChar(s[0]);
      SanitizeIsEscapeEach(s[1..]);
    }
  }

  /** Escaped text holds none of the four unsafe characters. */
  lemma {:induction false} EscapeEachSafe(s: string)
    ensures forall i :: 0 <= i < |EscapeEach(s)| ==> !Unsafe(EscapeEach(s)[i])
    decreases |s|
  {
    if s != [] {
      EscapeEachSafe(s[1..]);
      var head := EscapeChar(s[0]);
      var r := EscapeEach(s);
      forall i | 0 <= i < |r| ensures !Unsafe(r[i]) {
        if i >= |head| {
          assert r[i] == EscapeEach(s[1..])[i - |head|];
        }
      }
    }
  }

  /** Sanitized text holds no angle brackets and no quotes of either kind. */
  lemma SanitizedIsSafe(v: JsValue)
    ensures forall i :: 0 <= i < |SanitizeForHtml(v)| ==> !Unsafe(SanitizeForHtml(v)[i])
  {
    var s := if v.Null? || v.Undefined? then "" else ToJsString(v);
    SanitizeIsEscapeEach(s);
    EscapeEachSafe(s);
  }

  // --- decoding --------------------------------------------------------

  /** The character a reference at the start of `s` stands for, and the
      reference's length; `('&', 1)` for an ampersand that starts none. */
  function Reference(s: string): (r: (char, nat))
    requires s != [] && s[0] == '&'
    ensures 1 <= r.1 <= |s|
  {
    if |s| >= 5 && s[1] == 'a' && s[2] == 'm' && s[3] == 'p' && s[4] == ';' then ('&', 5)
    else if |s| >= 4 && s[1] == 'l' && s[2] == 't' && s[3] == ';' then ('<', 4)
    else if |s| >= 4 && s[1] == 'g' && s[2] == 't' && s[3] == ';' then ('>', 4)
    else if |s| >= 6 && s[1] == 'q' && s[2] == 'u' && s[3] == 'o' && s[4] == 't' && s[5] == ';' then ('"', 6)
    else if |s| >= 5 && s[1] == '#' && s[2] == '3' && s[3] == '9' && s[4] == ';' then ('\'', 5)
    else ('&', 1)
  }

  /** What an HTML parser reads back from text that only uses these five
      references. */
  function Decode(s: string): string
    decreases |s|
  {
    if s == [] then []
    else if s[0] != '&' then [s[0]] + Decode(s[1..])
    else
      var (c, n) := Reference(s);
      [c] + Decode(s[n..])
  }

  lemma DecodeEscapeChar(c: char, rest: string)
    ensures Decode(EscapeChar(c) + rest) == [c] + Decode(rest)
  {
    var e := EscapeChar(c);
    var s := e + rest;
    assert s[|e|..] == rest;
    if c == '&' || c == '<' || c == '>' || c == '"' || c == '\'' {
      assert forall i :: 0 <= i < |e| ==> s[i] == e[i];
      assert Reference(s) == (c, |e|);
    } else {
      assert s[0] == c;
    }
  }

  /** Decoding sanitized text gives the text back, so distinct texts stay
      distinct. */
  lemma {:induction false} DecodeEscapeEach(s: string)
    ensures Decode(EscapeEach(s)) == s
    decreases |s|
  {
    if s != [] {
      DecodeEscapeChar(s[0], EscapeEach(s[1..]));
      DecodeEscapeEach(s[1..]);
      assert [s[0]] + s[1..] == s;
    }
  }

  lemma SanitizeRoundTrip(v: JsValue)
    ensures Decode(SanitizeForHtml(v)) == (if v.Null? || v.Undefined? then "" else ToJsString(v))
  {
    var s := if v.Null? || v.Undefined? then "" else ToJsString(v);
    SanitizeIsEscapeEach(s);
    DecodeEscapeEach(s);
  }

  /** A character the chain replaces. */
  predicate Special(c: char) {
    c == '&' || Unsafe(c)
  }

  lemma {:induction false} PlainEscapesToItself(s: string)
    requires forall i :: 0 <= i < |s| ==> !Special(s[i])
    ensures EscapeEach(s) == s
    decreases |s|
  {
    if s != [] {
      PlainEscapesToItself(s[1..]);
      assert [s[0]] + s[1..] == s;
    }
  }

  /** Escaping never shortens text, and lengthens any text with a character
      to replace. */
  lemma {:induction false} EscapeEachLength(s: string)
    ensures |EscapeEach(s)| >= |s|
    ensures (exists i :: 0 <= i < |s| && Special(s[i])) ==> |EscapeEach(s)| > |s|
    decreases |s|
  {
    if s != [] {
      EscapeEachLength(s[1..]);
      if exists i :: 0 <= i < |s| && Special(s[i]) {
        var i :| 0 <= i < |s| && Special(s[i]);
        if i > 0 {
          assert s[1..][i - 1] == s[i];
        }
      }
    }
  }

  /** Escaped text with a replaced character holds an ampersand. */
  lemma {:induction false} EscapeEachAmpersand(s: string)
    requires exists i :: 0 <= i < |s| && Special(s[i])
    ensures exists j :: 0 <= j < |EscapeEach(s)| && EscapeEach(s)[j] == '&'
    decreases |s|
  {
    var i :| 0 <= i < |s| && Special(s[i]);
    if i == 0 {
      assert EscapeEach(s)[0] == '&';
    } else {
      assert s[1..][i - 1] == s[i];
      EscapeEachAmpersand(s[1..]);
      var j :| 0 <= j < |EscapeEach(s[1..])| && EscapeEach(s[1..])[j] == '&';
      var head := EscapeChar(s[0]);
      assert EscapeEach(s)[|head| + j] == '&';
    }
  }

  /** The chain leaves text unchanged exactly when it holds none of the five
      characters. */
  lemma SanitizeFixed(s: string)
    ensures SanitizeText(s) == s <==> forall i :: 0 <= i < |s| ==> !Special(s[i])
  {
    SanitizeIsEscapeEach(s);
    EscapeEachLength(s);
    if forall i :: 0 <= i < |s| ==> !Special(s[i]) {
      PlainEscapesToItself(s);
    }
  }

  /** So sanitizing twice escapes again whenever there was anything to escape. */
  lemma SanitizeTwice(s: string)
    ensures SanitizeText(SanitizeText(s)) == SanitizeText(s) <==> forall i :: 0 <= i < |s| ==> !Special(s[i])
  {
    var once := SanitizeText(s);
    SanitizeFixed(s);
    SanitizeFixed(once);
    SanitizeIsEscapeEach(s);
    if exists i :: 0 <= i < |s| && Special(s[i]) {
      EscapeEachAmpersand(s);
    }
  }
}
