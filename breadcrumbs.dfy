/** The breadcrumb trail: the current path cut into segments, one crumb
    per segment with a cumulative link, the schema.org BreadcrumbList
    positions, and which entries render as links. The site URL taken from
    the environment is a parameter. */
module Breadcrumbs {
  import opened Strings
  import opened Seqs

  /** `usePathname() || "/"`. */
  function PathOf(pathname: Option<string>): (r: string)
    ensures pathname.Some? && pathname.value != "" ==> r == pathname.value
    ensures pathname.None? || pathname.value == "" ==> r == "/"
  {
    if pathname.Some? && pathname.value != "" then pathname.value else "/"
  }

  predicate NonEmpty(s: string) { s != "" }

  /** The path cut at the first "?", then at the first "#", split on "/",
      with the empty pieces dropped. */
  function Segments(pathname: Option<string>): seq<string> {
    var beforeQuery := Split(PathOf(pathname), '?')[0];
    var beforeHash := Split(beforeQuery, '#')[0];
    Filter(Split(beforeHash, '/'), NonEmpty)
  }

  /** A segment is a non-empty name free of "/", "?" and "#". */
  predicate ValidSegment(s: string) {
    s != "" && '/' !in s && '?' !in s && '#' !in s
  }

  lemma SegmentsValid(pathname: Option<string>)
    ensures forall k :: 0 <= k < |Segments(pathname)| ==> ValidSegment(Segments(pathname)[k])
  {
    var beforeQuery := Split(PathOf(pathname), '?')[0];
    var beforeHash := Split(beforeQuery, '#')[0];
    var pieces := Split(beforeHash, '/');
    var segs := Segments(pathname);
    forall k | 0 <= k < |segs| ensures ValidSegment(segs[k]) {
      assert segs[k] in pieces;
      var j :| 0 <= j < |pieces| && pieces[j] == segs[k];
      if '?' in segs[k] {
        SplitChars(beforeHash, '/', j, '?');
        SplitChars(beforeQuery, '#', 0, '?');
      }
      if '#' in segs[k] {
        SplitChars(beforeHash, '/', j, '#');
      }
    }
  }

  /** Without a path, or at the root, there are no segments. */
  lemma RootHasNoSegments()
    ensures Segments(None) == []
    ensures Segments(Some("/")) == []
  {
    var root := PathOf(None);
    SplitNoSeparator(root, '?');
    SplitNoSeparator(root, '#');
    assert Split(root, '/') == ["", ""];
  }

  /** The link of crumb `i`: "/" followed by the first i+1 segments joined
      by "/". */
  function Href(segments: seq<string>, i: nat): string
    requires i < |segments|
  {
    "/" + Join(segments[..i + 1], "/")
  }

  /** Each crumb's link extends the previous one by "/" and the next
      segment, so it is a proper prefix of the next link. */
  lemma HrefExtends(segments: seq<string>, i: nat)
    requires i + 1 < |segments|
    ensures Href(segments, i + 1) == Href(segments, i) + "/" + segments[i + 1]
    ensures StartsWith(Href(segments, i + 1), Href(segments, i))
    ensures |Href(segments, i)| < |Href(segments, i + 1)|
  {
    assert segments[..i + 2] == segments[..i + 1] + [segments[i + 1]];
    JoinSnoc(segments[..i + 1], segments[i + 1], "/");
    StartsWithConcat(Href(segments, i), "/" + segments[i + 1]);
  }

  /** Parsing a crumb's link gives back the segments up to that crumb. */
  lemma HrefReparses(segments: seq<string>, i: nat)
    requires i < |segments|
    requires forall k :: 0 <= k < |segments| ==> ValidSegment(segments[k])
    ensures Segments(Some(Href(segments, i))) == segments[..i + 1]
  {
    var xs := segments[..i + 1];
    var joined := Join(xs, "/");
    var p := Href(segments, i);
    forall x | x in p ensures x != '?' && x != '#' {
      if x != '/' {
        JoinChars(xs, "/", x);
      }
    }
    SplitNoSeparator(p, '?');
    SplitNoSeparator(p, '#');
    assert p == ['/'] + joined;
    assert p[1..] == joined;
    SplitJoin(xs, '/');
    assert Split(p, '/') == [""] + xs;
    FilterAll(xs, NonEmpty);
    assert Filter([""] + xs, NonEmpty) == Filter(xs, NonEmpty) by {
      assert ([""] + xs)[1..] == xs;
    }
  }

  function Capitalize(w: string): string {
    if w == "" then "" else [UpperChar(w[0])] + w[1..]
  }

  /** `humanize`: lowercase, split on "-", capitalise each word, join with
      spaces. */
  function Humanize(segment: string): string {
    var words := Split(Lower(segment), '-');
    Join(seq(|words|, i requires 0 <= i < |words| => Capitalize(words[i])), " ")
  }

  /** What `humanize` leaves at position `i` of the lowercased segment `t`:
      a space for a dash, an upper-case letter at the start of a word, the
      character itself elsewhere. */
  function HumanizedChar(t: string, i: nat): (c: char)
    requires i < |t|
    ensures c != '-'
  {
    if t[i] == '-' then ' '
    else if i == 0 || t[i - 1] == '-' then UpperChar(t[i])
    else t[i]
  }

  /** Capitalising the dash-free words and joining them with spaces writes
      each character of the dash-joined words as HumanizedChar says. */
  lemma {:induction false} CapitalizeJoin(xs: seq<string>)
    requires |xs| >= 1
    requires forall k :: 0 <= k < |xs| ==> '-' !in xs[k]
    ensures var t := Join(xs, "-");
      var u := Join(seq(|xs|, i requires 0 <= i < |xs| => Capitalize(xs[i])), " ");
      |u| == |t| && forall i :: 0 <= i < |t| ==> u[i] == HumanizedChar(t, i)
  {
    var caps := seq(|xs|, i requires 0 <= i < |xs| => Capitalize(xs[i]));
    var t := Join(xs, "-");
    var u := Join(caps, " ");
    var x := xs[0];
    if |xs| == 1 {
      assert t == x && u == Capitalize(x);
    } else {
      var rest := xs[1..];
      var capsRest := seq(|rest|, i requires 0 <= i < |rest| => Capitalize(rest[i]));
      assert caps[1..] == capsRest;
      CapitalizeJoin(rest);
      var t' := Join(rest, "-");
      var u' := Join(capsRest, " ");
      assert t == x + "-" + t';
      assert u == Capitalize(x) + " " + u';
      forall i | 0 <= i < |t| ensures u[i] == HumanizedChar(t, i) {
        if i < |x| {
          assert t[i] == x[i];
          if i > 0 {
            assert t[i - 1] == x[i - 1];
          }
        } else if i > |x| {
          assert t[i] == t'[i - |x| - 1];
          assert u[i] == u'[i - |x| - 1];
          if i > |x| + 1 {
            assert t[i - 1] == t'[i - |x| - 2];
          }
        }
      }
    }
  }

  /** `humanize` keeps the length, turns every "-" into a space and
      capitalises the first letter of each word, so its result has no
      "-". */
  lemma HumanizeChars(segment: string)
    ensures |Humanize(segment)| == |segment|
    ensures forall i :: 0 <= i < |segment| ==> Humanize(segment)[i] == HumanizedChar(Lower(segment), i)
    ensures '-' !in Humanize(segment)
  {
    var t := Lower(segment);
    JoinSplit(t, '-');
    CapitalizeJoin(Split(t, '-'));
  }

  datatype Crumb = Crumb(name: string, href: string)

  /** The crumbs `items` is built into: one per segment, in order. */
  method BuildItems(segments: seq<string>) returns (acc: seq<Crumb>)
    ensures |acc| == |segments|
    ensures forall i :: 0 <= i < |segments| ==>
      acc[i].name == Humanize(segments[i]) && acc[i].href == Href(segments, i)
  {
    acc := [];
    var idx := 0;
    while idx < |segments|
      invariant idx <= |segments|
      invariant |acc| == idx
      invariant forall i :: 0 <= i < idx ==>
        acc[i].name == Humanize(segments[i]) && acc[i].href == Href(segments, i)
    {
      var href := "/" + Join(segments[..idx + 1], "/");
      acc := acc + [Crumb(Humanize(segments[idx]), href)];
      idx := idx + 1;
    }
  }

  datatype ListItem = ListItem(position: nat, name: string, item: string)

  /** The BreadcrumbList's `itemListElement`, or None when there are no
      crumbs. */
  function JsonLd(items: seq<Crumb>, siteEnv: Option<string>): (r: Option<seq<ListItem>>)
    ensures r.None? <==> |items| == 0
  {
    var base := if siteEnv.Some? then siteEnv.value else "";
    if |items| == 0 then None
    else Some([ListItem(1, "Home", base + "/")] +
              seq(|items|, i requires 0 <= i < |items| => ListItem(i + 2, items[i].name, base + items[i].href)))
  }

  /** Home is at position 1, crumb i at position i + 2 with its own name
      and link under the site URL. */
  lemma JsonLdPositions(items: seq<Crumb>, siteEnv: Option<string>)
    requires |items| > 0
    ensures var l := JsonLd(items, siteEnv).value;
      var base := if siteEnv.Some? then siteEnv.value else "";
      |l| == |items| + 1 &&
      l[0] == ListItem(1, "Home", base + "/") &&
      (forall k :: 0 <= k < |l| ==> l[k].position == k + 1) &&
      (forall i :: 0 <= i < |items| ==> l[i + 1].name == items[i].name && l[i + 1].item == base + items[i].href)
  {
  }

  /** A rendered entry of the trail. */
  datatype Entry = HomeLink | CrumbLink(name: string, href: string) | CurrentPage(name: string)

  function Rendered(items: seq<Crumb>): seq<Entry> {
    [HomeLink] + seq(|items|, i requires 0 <= i < |items| =>
      if i == |items| - 1 then CurrentPage(items[i].name) else CrumbLink(items[i].name, items[i].href))
  }

  /** Home comes first; only the last crumb is the current page, every
      earlier one is a link to its href. */
  lemma RenderedShape(items: seq<Crumb>)
    ensures var r := Rendered(items);
      |r| == |items| + 1 && r[0] == HomeLink &&
      (forall k :: 1 <= k < |r| ==> (r[k].CurrentPage? <==> k == |items|)) &&
      (forall i :: 0 <= i < |items| - 1 ==> r[i + 1] == CrumbLink(items[i].name, items[i].href)) &&
      (|items| > 0 ==> r[|items|] == CurrentPage(items[|items| - 1].name))
  {
  }

  /** The trail for a path: every crumb's link re-parses to the segments
      up to it, and its name has no "-". */
  method Trail(pathname: Option<string>) returns (items: seq<Crumb>)
    ensures |items| == |Segments(pathname)|
    ensures forall i :: 0 <= i < |items| ==>
      Segments(Some(items[i].href)) == Segments(pathname)[..i + 1] && '-' !in items[i].name
  {
    var segments := Segments(pathname);
    items := BuildItems(segments);
    SegmentsValid(pathname);
    forall i | 0 <= i < |items|
      ensures Segments(Some(items[i].href)) == segments[..i + 1] && '-' !in items[i].name
    {
      HrefReparses(segments, i);
      HumanizeChars(segments[i]);
    }
  }
}
