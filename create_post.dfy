/** The new-post script: the slug derived from the title, the tag list
    written into the front matter, the yes/no answers and the path of the
    file it writes. The prompts, the date and the file write itself are
    left to the caller. */
module CreatePost {
  import opened Strings
  import opened Seqs
  import opened BlogService

  /** The characters `[^a-z0-9 -]` does not delete. */
  predicate Allowed(c: char) {
    IsLower(c) || IsDigit(c) || c == ' ' || c == '-'
  }

  predicate IsDash(c: char) { c == '-' }

  /** The characters a slug is made of. */
  predicate SlugChar(c: char) {
    IsLower(c) || IsDigit(c) || c == '-'
  }

  /** `s` without its leading characters that satisfy `p`. */
  function DropWhile(s: string, p: char -> bool): (r: string)
    ensures |r| <= |s| && r == s[|s| - |r|..]
    ensures |r| > 0 ==> !p(r[0])
  {
    if |s| > 0 && p(s[0]) then DropWhile(s[1..], p) else s
  }

  /** `replace(/<p>+/g, "-")`: each maximal run of characters satisfying
      `p` becomes one "-". */
  function CollapseRuns(s: string, p: char -> bool): (r: string)
    ensures |s| > 0 ==> |r| > 0 && r[0] == (if p(s[0]) then '-' else s[0])
    decreases |s|
  {
    if |s| == 0 then ""
    else if p(s[0]) then "-" + CollapseRuns(DropWhile(s[1..], p), p)
    else [s[0]] + CollapseRuns(s[1..], p)
  }

  /** slugify: lowercase, delete every character outside a-z, 0-9, space
      and "-", turn whitespace runs into "-", collapse runs of "-", then
      `trim("-")`, which ignores its argument and trims whitespace. */
  function Slugify(text: string): string {
    Trim(CollapseRuns(CollapseRuns(Filter(Lower(text), Allowed), IsSpace), IsDash))
  }

  /** Each character left by the collapse is a "-" or a character of the
      input that does not satisfy `p`. */
  lemma {:induction false} CollapseChars(s: string, p: char -> bool)
    ensures forall i :: 0 <= i < |CollapseRuns(s, p)| ==>
      CollapseRuns(s, p)[i] == '-' || (CollapseRuns(s, p)[i] in s && !p(CollapseRuns(s, p)[i]))
    decreases |s|
  {
    if |s| > 0 {
      if p(s[0]) {
        var d := DropWhile(s[1..], p);
        CollapseChars(d, p);
        assert forall c :: c in d ==> c in s;
      } else {
        CollapseChars(s[1..], p);
        assert forall c :: c in s[1..] ==> c in s;
      }
    }
  }

  predicate NoRunAfterDash(r: string, p: char -> bool) {
    forall i :: 0 <= i < |r| - 1 && r[i] == '-' ==> !p(r[i + 1])
  }

  /** When "-" itself is in the run class, a "-" of the result is never
      followed by another character of the class. */
  lemma {:induction false} CollapseNoRepeat(s: string, p: char -> bool)
    requires p('-')
    ensures NoRunAfterDash(CollapseRuns(s, p), p)
    decreases |s|
  {
    if |s| > 0 {
      var r := CollapseRuns(s, p);
      if p(s[0]) {
        var d := DropWhile(s[1..], p);
        CollapseNoRepeat(d, p);
        assert r == "-" + CollapseRuns(d, p);
      } else {
        CollapseNoRepeat(s[1..], p);
        assert r == [s[0]] + CollapseRuns(s[1..], p);
      }
    }
  }

  /** A string whose class characters are single dashes is left as it
      is. */
  lemma {:induction false} CollapseIdentity(s: string, p: char -> bool)
    requires forall i :: 0 <= i < |s| && p(s[i]) ==> s[i] == '-' && (i + 1 < |s| ==> !p(s[i + 1]))
    ensures CollapseRuns(s, p) == s
    decreases |s|
  {
    if |s| > 0 {
      CollapseIdentity(s[1..], p);
      if p(s[0]) {
        assert DropWhile(s[1..], p) == s[1..];
      }
      assert s == [s[0]] + s[1..];
    }
  }

  predicate NoDoubleDash(s: string) {
    forall i :: 0 <= i < |s| - 1 ==> !(s[i] == '-' && s[i + 1] == '-')
  }

  /** The three steps before the trim. */
  function Collapsed(text: string): string {
    CollapseRuns(CollapseRuns(Filter(Lower(text), Allowed), IsSpace), IsDash)
  }

  /** Before the trim the slug is already made of a-z, 0-9 and single
      dashes, so the trim changes nothing. */
  lemma CollapsedShape(text: string)
    ensures forall i :: 0 <= i < |Collapsed(text)| ==> SlugChar(Collapsed(text)[i])
    ensures NoDoubleDash(Collapsed(text))
    ensures Slugify(text) == Collapsed(text)
  {
    var k := Filter(Lower(text), Allowed);
    var a := CollapseRuns(k, IsSpace);
    var b := CollapseRuns(a, IsDash);
    CollapseChars(k, IsSpace);
    CollapseChars(a, IsDash);
    assert forall i :: 0 <= i < |a| ==> SlugChar(a[i]);
    assert forall i :: 0 <= i < |b| ==> SlugChar(b[i]);
    CollapseNoRepeat(a, IsDash);
    assert NoRunAfterDash(b, IsDash);
    TrimNoSpace(b);
  }

  /** The slug holds only a-z, 0-9 and "-": letters outside ASCII are
      deleted, not transliterated. */
  lemma SlugifyCharset(text: string)
    ensures forall i :: 0 <= i < |Slugify(text)| ==> SlugChar(Slugify(text)[i])
  {
    CollapsedShape(text);
  }

  /** The slug never holds "--". */
  lemma SlugifyNoDoubleDash(text: string)
    ensures NoDoubleDash(Slugify(text))
  {
    CollapsedShape(text);
  }

  /** A leading space survives as a leading "-", because the final trim
      only removes whitespace. */
  lemma SlugifyLeadingSpace(text: string)
    requires |text| > 0 && text[0] == ' '
    ensures |Slugify(text)| > 0 && Slugify(text)[0] == '-'
  {
    var l := Lower(text);
    var k := Filter(l, Allowed);
    assert l == [l[0]] + l[1..];
    assert k == [' '] + Filter(l[1..], Allowed);
    CollapsedShape(text);
  }

  /** A string of a-z, 0-9 and single dashes is its own slug. */
  lemma SlugifyFixes(t: string)
    requires forall i :: 0 <= i < |t| ==> SlugChar(t[i])
    requires NoDoubleDash(t)
    ensures Slugify(t) == t
  {
    forall i | 0 <= i < |t| ensures !IsSpace(t[i]) && !IsUpper(t[i]) && Allowed(t[i]) {
      assert SlugChar(t[i]);
    }
    LowerOfNoUpper(t);
    FilterAll(t, Allowed);
    var k := Filter(Lower(t), Allowed);
    assert k == t;
    CollapseIdentity(t, IsSpace);
    var a := CollapseRuns(k, IsSpace);
    assert a == t;
    CollapseIdentity(t, IsDash);
    var b := CollapseRuns(a, IsDash);
    assert b == t;
    TrimNoSpace(t);
    assert Slugify(t) == Trim(b);
  }

  /** Slugifying a slug changes nothing. */
  lemma SlugifyIdempotent(text: string)
    ensures Slugify(Slugify(text)) == Slugify(text)
  {
    CollapsedShape(text);
    SlugifyFixes(Slugify(text));
  }

  /** `"${tag.trim()}"`. */
  function Quoted(tag: string): string {
    "\"" + Trim(tag) + "\""
  }

  function QuoteAll(pieces: seq<string>): (r: seq<string>)
    ensures |r| == |pieces|
    ensures forall i :: 0 <= i < |pieces| ==> r[i] == Quoted(pieces[i])
  {
    seq(|pieces|, i requires 0 <= i < |pieces| => Quoted(pieces[i]))
  }

  /** The tags answer split on ",", each piece trimmed and quoted, joined
      with ", ". */
  function FormatTags(input: string): string {
    Join(QuoteAll(Split(input, ',')), ", ")
  }

  /** Tags typed as trimmed, comma-free names separated by commas come out
      quoted, in order. */
  lemma FormatTagsOfList(tags: seq<string>)
    requires |tags| >= 1
    requires forall i :: 0 <= i < |tags| ==> ',' !in tags[i] && Trim(tags[i]) == tags[i]
    ensures FormatTags(Join(tags, ",")) == Join(seq(|tags|, i requires 0 <= i < |tags| => "\"" + tags[i] + "\""), ", ")
  {
    SplitJoin(tags, ',');
    var quoted := seq(|tags|, i requires 0 <= i < |tags| => "\"" + tags[i] + "\"");
    var q := QuoteAll(tags);
    forall i | 0 <= i < |tags| ensures q[i] == quoted[i] {
      assert q[i] == Quoted(tags[i]);
    }
    assert q == quoted;
  }

  /** An answer with k commas gives k + 1 quoted tags; each is the trimmed
      piece between two commas. */
  lemma FormatTagsPieces(input: string)
    ensures var pieces := Split(input, ',');
      FormatTags(input) == Join(QuoteAll(pieces), ", ") && Join(pieces, ",") == input &&
      forall i :: 0 <= i < |pieces| ==> ',' !in pieces[i] && QuoteAll(pieces)[i] == "\"" + Trim(pieces[i]) + "\""
  {
    JoinSplit(input, ',');
  }

  /** Every whitespace character `trim` knows is stripped, the ideographic
      space included. */
  lemma QuotedStripsIdeographicSpace(tag: string)
    requires tag == "react\U{3000}"
    ensures Quoted(tag) == "\"react\""
  {
    assert !IsSpace(tag[0]);
    assert TrimStart(tag) == tag;
    assert IsSpace(tag[5]);
    assert TrimEnd(tag) == TrimEnd(tag[..5]);
    assert tag[..5] == "react";
    assert !IsSpace("react"[4]);
    assert TrimEnd("react") == "react";
  }

  /** An empty answer still yields one tag, the empty string. */
  lemma FormatTagsEmpty(input: string)
    requires input == ""
    ensures FormatTags(input) == "\"\""
  {
    assert Split(input, ',') == [input];
    assert Trim(input) == input;
  }

  /** `answer.toLowerCase() === "y"`. */
  predicate IsYes(answer: string) {
    Lower(answer) == "y"
  }

  lemma IsYesAnswers(answer: string)
    ensures IsYes(answer) <==> answer == "y" || answer == "Y"
  {
    if |answer| == 1 && Lower(answer) == "y" {
      assert answer == [answer[0]];
    }
  }

  function Extension(mdxAnswer: string): (r: string)
    ensures r == "mdx" <==> IsYes(mdxAnswer)
    ensures r == "md" <==> !IsYes(mdxAnswer)
  {
    if IsYes(mdxAnswer) then "mdx" else "md"
  }

  /** `${slug}.${extension}`. */
  function FileName(title: string, mdxAnswer: string): string {
    Slugify(title) + "." + Extension(mdxAnswer)
  }

  /** `path.join(cwd, "content", "blog", fileName)` for a working
      directory without a trailing separator. */
  function FilePath(cwd: string, title: string, mdxAnswer: string): string {
    cwd + "/content/blog/" + FileName(title, mdxAnswer)
  }

  /** A file named after a slug with either extension has a content name
      whose stem is the slug. */
  lemma SlugFileName(slug: string, ext: string)
    requires ext == "md" || ext == "mdx"
    ensures IsContentName(slug + "." + ext) && Stem(slug + "." + ext) == slug
  {
    StemOfFileName(slug);
    if ext == "md" {
      assert slug + "." + ext == slug + ".md";
    } else {
      assert slug + "." + ext == slug + ".mdx";
    }
  }

  /** The name of the file the script writes is a content name whose stem
      is the slugified title. Whether the post index then lists the file
      depends on its front matter parsing, which this lemma does not claim. */
  lemma WrittenFileIsListed(title: string, mdxAnswer: string)
    ensures IsContentName(FileName(title, mdxAnswer))
    ensures Stem(FileName(title, mdxAnswer)) == Slugify(title)
  {
    SlugFileName(Slugify(title), Extension(mdxAnswer));
  }
}
