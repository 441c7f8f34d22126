/** The XML escaper of the JUnit reporter (`xml__encode_text`): five replacements over the whole text. */
module XmlText {
  import opened Outcomes
  import opened Text

  /** `xml__encode_text`, replacement by replacement. */
  function EncodeText(s: string): string {
    var amp := ReplaceAll(s, "&", "&amp;");
    var lt := ReplaceAll(amp, "<", "&lt;");
    var gt := ReplaceAll(lt, ">", "&gt;");
    var quot := ReplaceAll(gt, "\"", "&quot;");
    ReplaceAll(quot, "'", "&apos;")
  }

  /** The predefined entities of section 4.6 of XML 1.0. */
  function EncodeChar(c: char): string {
    match c
    case '&' => "&amp;"
    case '<' => "&lt;"
    case '>' => "&gt;"
    case '"' => "&quot;"
    case '\'' => "&apos;"
    case _ => [c]
  }

  /** The same encoding in one pass, character by character. */
  function EncodeOnce(s: string): string {
    if s == "" then "" else EncodeChar(s[0]) + EncodeOnce(s[1..])
  }

  predicate IsMarkup(c: char) {
    c == '&' || c == '<' || c == '>' || c == '"' || c == '\''
  }

  /** Strict decoding: every markup character must be the start of a predefined entity. */
  function Decode(t: string): Option<string> {
    if t == "" then Some("")
    else if !IsMarkup(t[0]) then Prepend(t[0], Decode(t[1..]))
    else if "&amp;" <= t then Prepend('&', Decode(t[5..]))
    else if "&lt;" <= t then Prepend('<', Decode(t[4..]))
    else if "&gt;" <= t then Prepend('>', Decode(t[4..]))
    else if "&quot;" <= t then Prepend('"', Decode(t[6..]))
    else if "&apos;" <= t then Prepend('\'', Decode(t[6..]))
    else None
  }

  function Prepend(c: char, rest: Option<string>): Option<string> {
    if rest.None? then None else Some([c] + rest.value)
  }

  // ---------- five passes are one ----------

  lemma {:induction false} ReplaceCharAppend(a: string, b: string, c: char, value: string)
    ensures ReplaceAll(a + b, [c], value) == ReplaceAll(a, [c], value) + ReplaceAll(b, [c], value)
  {
    if a == "" {
      assert a + b == b;
    } else {
      var s := a + b;
      assert s[0] == a[0] && s[1..] == a[1..] + b;
      ReplaceCharAppend(a[1..], b, c, value);
      if a[0] == c {
        assert [c] <= s && [c] <= a;
      }
    }
  }

  lemma EncodeTextAppend(a: string, b: string)
    ensures EncodeText(a + b) == EncodeText(a) + EncodeText(b)
  {
    ReplaceCharAppend(a, b, '&', "&amp;");
    var a1, b1 := ReplaceAll(a, "&", "&amp;"), ReplaceAll(b, "&", "&amp;");
    ReplaceCharAppend(a1, b1, '<', "&lt;");
    var a2, b2 := ReplaceAll(a1, "<", "&lt;"), ReplaceAll(b1, "<", "&lt;");
    ReplaceCharAppend(a2, b2, '>', "&gt;");
    var a3, b3 := ReplaceAll(a2, ">", "&gt;"), ReplaceAll(b2, ">", "&gt;");
    ReplaceCharAppend(a3, b3, '"', "&quot;");
    var a4, b4 := ReplaceAll(a3, "\"", "&quot;"), ReplaceAll(b3, "\"", "&quot;");
    ReplaceCharAppend(a4, b4, '\'', "&apos;");
  }

  lemma ReplaceOther(s: string, c: char, value: string)
    requires c !in s
    ensures ReplaceAll(s, [c], value) == s
  {
    ReplaceNothing(s, [c], value);
  }

  lemma ReplaceSelf(c: char, value: string)
    ensures ReplaceAll([c], [c], value) == value
  {
    assert [c][1..] == "";
  }

  /** On a single character the five replacements do what the table of entities says. */
  lemma EncodeOneChar(c: char)
    ensures EncodeText([c]) == EncodeChar(c)
  {
    hide ReplaceAll;
    var amp := ReplaceAll([c], "&", "&amp;");
    if c == '&' { ReplaceSelf(c, "&amp;"); } else { ReplaceOther([c], '&', "&amp;"); }
    var lt := ReplaceAll(amp, "<", "&lt;");
    if c == '<' { ReplaceSelf(c, "&lt;"); } else { ReplaceOther(amp, '<', "&lt;"); }
    var gt := ReplaceAll(lt, ">", "&gt;");
    if c == '>' { ReplaceSelf(c, "&gt;"); } else { ReplaceOther(lt, '>', "&gt;"); }
    var quot := ReplaceAll(gt, "\"", "&quot;");
    if c == '"' { ReplaceSelf(c, "&quot;"); } else { ReplaceOther(gt, '"', "&quot;"); }
    if c == '\'' { ReplaceSelf(c, "&apos;"); } else { ReplaceOther(quot, '\'', "&apos;"); }
  }

  /** The five sequential replacements are one character-by-character encoding. */
  lemma {:induction false} FivePassesAreOne(s: string)
    ensures EncodeText(s) == EncodeOnce(s)
  {
    if s == "" {
    } else {
      assert s == [s[0]] + s[1..];
      EncodeTextAppend([s[0]], s[1..]);
      EncodeOneChar(s[0]);
      FivePassesAreOne(s[1..]);
    }
  }

  // ---------- decoding inverts encoding ----------

  lemma DecodeChar(c: char, rest: string)
    ensures Decode(EncodeChar(c) + rest) == Prepend(c, Decode(rest))
  {
    var t := EncodeChar(c) + rest;
    assert t[|EncodeChar(c)|..] == rest;
    assert t[..|EncodeChar(c)|] == EncodeChar(c);
    if c == '<' || c == '>' || c == '"' || c == '\'' {
      assert t[1] == EncodeChar(c)[1] && t[2] == EncodeChar(c)[2];
    }
  }

  lemma {:induction false} DecodeEncoded(s: string)
    ensures Decode(EncodeOnce(s)) == Some(s)
  {
    if s != "" {
      DecodeChar(s[0], EncodeOnce(s[1..]));
      DecodeEncoded(s[1..]);
      assert s == [s[0]] + s[1..];
    }
  }

  lemma {:induction false} EncodeDecoded(t: string)
    requires Decode(t).Some?
    ensures EncodeOnce(Decode(t).value) == t
  {
    if t != "" {
      var s := Decode(t).value;
      var c := s[0];
      assert s[1..] == (if !IsMarkup(t[0]) then Decode(t[1..]) else Decode(t[|EncodeChar(c)|..])).value;
      assert EncodeChar(c) <= t;
      assert t == EncodeChar(c) + t[|EncodeChar(c)|..];
      EncodeDecoded(t[|EncodeChar(c)|..]);
    }
  }

  /**
   The escaper and strict decoding are inverse: a text decodes to `s` exactly when it is the encoding of `s`.
   In particular an encoding holds no markup character except at the start of a predefined entity.
   */
  lemma EncodingIsInvertible(s: string, t: string)
    ensures Decode(t) == Some(s) <==> t == EncodeText(s)
  {
    FivePassesAreOne(s);
    DecodeEncoded(s);
    if Decode(t) == Some(s) {
      EncodeDecoded(t);
    }
  }

  lemma {:induction false} EncodedHasNoMarkup(s: string)
    ensures '<' !in EncodeText(s) && '>' !in EncodeText(s) && '"' !in EncodeText(s) && '\'' !in EncodeText(s)
  {
    FivePassesAreOne(s);
    OncePassHasNoMarkup(s);
  }

  lemma CharHasNoMarkup(c: char)
    ensures '<' !in EncodeChar(c) && '>' !in EncodeChar(c) && '"' !in EncodeChar(c) && '\'' !in EncodeChar(c)
  {
  }

  lemma {:induction false} OncePassHasNoMarkup(s: string)
    ensures '<' !in EncodeOnce(s) && '>' !in EncodeOnce(s) && '"' !in EncodeOnce(s) && '\'' !in EncodeOnce(s)
  {
    if s != "" {
      hide EncodeChar;
      OncePassHasNoMarkup(s[1..]);
      CharHasNoMarkup(s[0]);
    }
  }
}
