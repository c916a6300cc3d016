/** The `escapeXml` helper of the RSS feed and the sitemap: a chain of five
    global replacements mapping & < > " ' to the predefined entities of
    section 4.6 of XML 1.0 (&amp; &lt; &gt; &quot; &apos;), "&" first. */
module Xml {
  import opened Strings

  /** `s.replace(/c/g, rep)` for a single character `c`. */
  function ReplaceAll(s: string, c: char, rep: string): (r: string)
  {
    if |s| == 0 then "" else (if s[0] == c then rep else [s[0]]) + ReplaceAll(s[1..], c, rep)
  }

  /** escapeXml, as the chain of replacements the source writes. */
  function EscapeXml(s: string): string
  {
    ReplaceAll(ReplaceAll(ReplaceAll(ReplaceAll(ReplaceAll(s,
      '&', "&amp;"), '<', "&lt;"), '>', "&gt;"), '"', "&quot;"), '\'', "&apos;")
  }

  predicate IsSpecial(c: char) {
    c == '&' || c == '<' || c == '>' || c == '"' || c == '\''
  }

  /** The predefined entity for each of the five characters. */
  function Entity(c: char): (r: string)
    ensures !IsSpecial(c) ==> r == [c]
  {
    match c
    case '&' => "&amp;"
    case '<' => "&lt;"
    case '>' => "&gt;"
    case '"' => "&quot;"
    case '\'' => "&apos;"
    case _ => [c]
  }

  /** Reference definition: every character replaced by its entity in one
      pass. */
  function EscapeEach(s: string): string
  {
    if |s| == 0 then "" else Entity(s[0]) + EscapeEach(s[1..])
  }

  lemma {:induction false} ReplaceAllConcat(a: string, b: string, c: char, rep: string)
    ensures ReplaceAll(a + b, c, rep) == ReplaceAll(a, c, rep) + ReplaceAll(b, c, rep)
  {
    if |a| == 0 {
      assert a + b == b;
    } else {
      assert (a + b)[1..] == a[1..] + b;
      ReplaceAllConcat(a[1..], b, c, rep);
    }
  }

  lemma {:induction false} ReplaceAllAbsent(s: string, c: char, rep: string)
    requires c !in s
    ensures ReplaceAll(s, c, rep) == s
  {
    if |s| > 0 {
      ReplaceAllAbsent(s[1..], c, rep);
      assert [s[0]] + s[1..] == s;
    }
  }

  lemma ReplaceAllSingle(x: char, c: char, rep: string)
    ensures ReplaceAll([x], c, rep) == if x == c then rep else [x]
  {
    assert [x][1..] == [];
  }

  lemma EscapeXmlConcat(a: string, b: string)
    ensures EscapeXml(a + b) == EscapeXml(a) + EscapeXml(b)
  {
    var s1a, s1b := ReplaceAll(a, '&', "&amp;"), ReplaceAll(b, '&', "&amp;");
    ReplaceAllConcat(a, b, '&', "&amp;");
    var s2a, s2b := ReplaceAll(s1a, '<', "&lt;"), ReplaceAll(s1b, '<', "&lt;");
    ReplaceAllConcat(s1a, s1b, '<', "&lt;");
    var s3a, s3b := ReplaceAll(s2a, '>', "&gt;"), ReplaceAll(s2b, '>', "&gt;");
    ReplaceAllConcat(s2a, s2b, '>', "&gt;");
    var s4a, s4b := ReplaceAll(s3a, '"', "&quot;"), ReplaceAll(s3b, '"', "&quot;");
    ReplaceAllConcat(s3a, s3b, '"', "&quot;");
    ReplaceAllConcat(s4a, s4b, '\'', "&apos;");
  }

  /** One character goes to its entity through the whole chain: an entity
      written by an earlier step holds none of the characters the later
      steps replace. */
  lemma EscapeXmlChar(x: char)
    ensures EscapeXml([x]) == Entity(x)
  {
    if x == '&' {
      AmpersandEntity();
    } else {
      var s1 := ReplaceAll([x], '&', "&amp;");
      ReplaceAllAbsent([x], '&', "&amp;");
      ReplaceAllSingle(x, '<', "&lt;");
      var s2 := ReplaceAll(s1, '<', "&lt;");
      if x == '<' {
        LaterStepsKeep(s2, false, true, true, true);
      } else {
        ReplaceAllSingle(x, '>', "&gt;");
        var s3 := ReplaceAll(s2, '>', "&gt;");
        if x == '>' {
          LaterStepsKeep(s3, false, false, true, true);
        } else {
          ReplaceAllSingle(x, '"', "&quot;");
          var s4 := ReplaceAll(s3, '"', "&quot;");
          if x == '"' {
            LaterStepsKeep(s4, false, false, false, true);
          } else {
            ReplaceAllSingle(x, '\'', "&apos;");
          }
        }
      }
    }
  }

  /** "&" becomes "&amp;", which none of the later steps touches. */
  lemma AmpersandEntity()
    ensures EscapeXml("&") == "&amp;"
  {
    ReplaceAllSingle('&', '&', "&amp;");
    LaterStepsKeep("&amp;", true, true, true, true);
  }

  /** The steps after the first leave an entity alone: it holds none of the
      characters they replace. */
  lemma LaterStepsKeep(e: string, lt: bool, gt: bool, quot: bool, apos: bool)
    requires '<' !in e && '>' !in e && '"' !in e && '\'' !in e
    ensures lt ==> ReplaceAll(e, '<', "&lt;") == e
    ensures gt ==> ReplaceAll(e, '>', "&gt;") == e
    ensures quot ==> ReplaceAll(e, '"', "&quot;") == e
    ensures apos ==> ReplaceAll(e, '\'', "&apos;") == e
  {
    ReplaceAllAbsent(e, '<', "&lt;");
    ReplaceAllAbsent(e, '>', "&gt;");
    ReplaceAllAbsent(e, '"', "&quot;");
    ReplaceAllAbsent(e, '\'', "&apos;");
  }

  /** The chain of replacements equals the one-pass entity mapping, so no
      entity is escaped twice within one call ("<" becomes "&lt;", not
      "&amp;lt;"). */
  lemma {:induction false} EscapeXmlIsEscapeEach(s: string)
    ensures EscapeXml(s) == EscapeEach(s)
  {
    if |s| > 0 {
      EscapeXmlIsEscapeEach(s[1..]);
      EscapeXmlConcat([s[0]], s[1..]);
      EscapeXmlChar(s[0]);
      assert [s[0]] + s[1..] == s;
    }
  }

  /** The output holds no raw < > " or ', and every "&" in it opens an
      entity. */
  lemma {:induction false} EscapeEachNoRawSpecials(s: string)
    ensures forall i :: 0 <= i < |EscapeEach(s)| ==> !IsSpecial(EscapeEach(s)[i]) || EscapeEach(s)[i] == '&'
  {
    if |s| > 0 {
      EscapeEachNoRawSpecials(s[1..]);
      var e, rest := Entity(s[0]), EscapeEach(s[1..]);
      forall i | 0 <= i < |e + rest| ensures !IsSpecial((e + rest)[i]) || (e + rest)[i] == '&' {
        if i >= |e| {
          assert (e + rest)[i] == rest[i - |e|];
        }
      }
    }
  }

  lemma EscapeXmlNoRawSpecials(s: string)
    ensures forall i :: 0 <= i < |EscapeXml(s)| ==> EscapeXml(s)[i] !in "<>\"'"
  {
    EscapeXmlIsEscapeEach(s);
    EscapeEachNoRawSpecials(s);
  }

  /** A string without any of the five characters is left unchanged. */
  lemma {:induction false} EscapeXmlIdentity(s: string)
    requires forall i :: 0 <= i < |s| ==> !IsSpecial(s[i])
    ensures EscapeXml(s) == s
  {
    EscapeXmlIsEscapeEach(s);
    EscapeEachIdentity(s);
  }

  lemma {:induction false} EscapeEachIdentity(s: string)
    requires forall i :: 0 <= i < |s| ==> !IsSpecial(s[i])
    ensures EscapeEach(s) == s
  {
    if |s| > 0 {
      EscapeEachIdentity(s[1..]);
      assert [s[0]] + s[1..] == s;
    }
  }

  lemma EscapeXmlSamples()
    ensures EscapeXml("<") == "&lt;"
    ensures EscapeXml("&") == "&amp;"
  {
    EscapeXmlChar('<');
    EscapeXmlChar('&');
  }

  predicate HasSpecial(s: string) {
    exists i :: 0 <= i < |s| && IsSpecial(s[i])
  }

  /** Escaping never shortens, and a string with one of the five
      characters gets longer and gains an ampersand. */
  lemma {:induction false} EscapeEachGrows(s: string)
    ensures |EscapeEach(s)| >= |s|
    ensures HasSpecial(s) ==> |EscapeEach(s)| > |s| && '&' in EscapeEach(s)
  {
    if |s| > 0 {
      EscapeEachGrows(s[1..]);
      var e, rest := Entity(s[0]), EscapeEach(s[1..]);
      if HasSpecial(s) {
        if IsSpecial(s[0]) {
          assert (e + rest)[0] == '&';
        } else {
          var i :| 0 <= i < |s| && IsSpecial(s[i]);
          assert IsSpecial(s[1..][i - 1]);
          var j :| 0 <= j < |rest| && rest[j] == '&';
          assert (e + rest)[|e| + j] == '&';
        }
      }
    }
  }

  /** Escaping is not idempotent: once a string holds one of the five
      characters, escaping the result again changes it ("&" gives "&amp;",
      then "&amp;amp;"). */
  lemma EscapeXmlNotIdempotent(s: string)
    requires HasSpecial(s)
    ensures EscapeXml(EscapeXml(s)) != EscapeXml(s)
  {
    EscapeXmlIsEscapeEach(s);
    EscapeEachGrows(s);
    var e := EscapeXml(s);
    var j :| 0 <= j < |e| && e[j] == '&';
    assert IsSpecial(e[j]);
    EscapeXmlIsEscapeEach(e);
    EscapeEachGrows(e);
  }

  /** What an XML parser does with the five predefined entities in
      character data. */
  function Unescape(s: string): string
    decreases |s|
  {
    if |s| == 0 then ""
    else if StartsWith(s, "&amp;") then "&" + Unescape(s[5..])
    else if StartsWith(s, "&lt;") then "<" + Unescape(s[4..])
    else if StartsWith(s, "&gt;") then ">" + Unescape(s[4..])
    else if StartsWith(s, "&quot;") then "\"" + Unescape(s[6..])
    else if StartsWith(s, "&apos;") then "'" + Unescape(s[6..])
    else [s[0]] + Unescape(s[1..])
  }

  lemma NotStartsWithAt(s: string, p: string, k: nat)
    requires k < |p| && k < |s| && s[k] != p[k]
    ensures !StartsWith(s, p)
  {
    if |p| <= |s| {
      assert s[..|p|][k] == s[k];
    }
  }

  lemma EntityPrefix(p: string, t: string)
    ensures StartsWith(p + t, p) && (p + t)[|p|..] == t
  {
    StartsWithConcat(p, t);
  }

  lemma UnescapeEntity(c: char, t: string)
    ensures Unescape(Entity(c) + t) == [c] + Unescape(t)
  {
    var s := Entity(c) + t;
    EntityPrefix(Entity(c), t);
    if c == '&' {
    } else if c == '<' {
      NotStartsWithAt(s, "&amp;", 1);
    } else if c == '>' {
      NotStartsWithAt(s, "&amp;", 1);
      NotStartsWithAt(s, "&lt;", 1);
    } else if c == '"' {
      NotStartsWithAt(s, "&amp;", 1);
      NotStartsWithAt(s, "&lt;", 1);
      NotStartsWithAt(s, "&gt;", 1);
    } else if c == '\'' {
      NotStartsWithAt(s, "&amp;", 2);
      NotStartsWithAt(s, "&lt;", 1);
      NotStartsWithAt(s, "&gt;", 1);
      NotStartsWithAt(s, "&quot;", 1);
    } else {
      NotStartsWithAt(s, "&amp;", 0);
      NotStartsWithAt(s, "&lt;", 0);
      NotStartsWithAt(s, "&gt;", 0);
      NotStartsWithAt(s, "&quot;", 0);
      NotStartsWithAt(s, "&apos;", 0);
    }
  }

  /** A reader that decodes the entities gets the original text back, so
      escaping loses nothing. */
  lemma {:induction false} UnescapeEscapeXml(s: string)
    ensures Unescape(EscapeXml(s)) == s
  {
    EscapeXmlIsEscapeEach(s);
    UnescapeEscapeEach(s);
  }

  lemma {:induction false} UnescapeEscapeEach(s: string)
    ensures Unescape(EscapeEach(s)) == s
  {
    if |s| > 0 {
      UnescapeEscapeEach(s[1..]);
      UnescapeEntity(s[0], EscapeEach(s[1..]));
      assert [s[0]] + s[1..] == s;
    }
  }
}
