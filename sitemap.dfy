/** The sitemap served at /sitemap.xml: the `<url>` entries of the
    sitemaps.org 0.9 element set for the static pages, every post, every
    category and every tag, in that order. The current time in ISO 8601
    form, `Date.prototype.toISOString` and `encodeURIComponent` are
    parameters. */
module Sitemap {
  import opened Strings
  import opened Seqs
  import opened Xml
  import opened BlogService

  const DefaultSiteUrl := "https://tu-dominio.com"

  /** `process.env.NEXT_PUBLIC_SITE_URL || "https://tu-dominio.com"`. */
  function SiteUrl(env: Option<string>): (r: string)
    ensures env.Some? && env.value != "" ==> r == env.value
    ensures env.None? || env.value == "" ==> r == DefaultSiteUrl
  {
    if env.Some? && env.value != "" then env.value else DefaultSiteUrl
  }

  /** The seven values the `changefreq` parameter admits. */
  datatype ChangeFreq = Always | Hourly | Daily | Weekly | Monthly | Yearly | Never

  function FreqName(f: ChangeFreq): string {
    match f
    case Always => "always"
    case Hourly => "hourly"
    case Daily => "daily"
    case Weekly => "weekly"
    case Monthly => "monthly"
    case Yearly => "yearly"
    case Never => "never"
  }

  /** Reads a frequency back from its name. */
  function ParseFreq(s: string): Option<ChangeFreq> {
    if s == "always" then Some(Always)
    else if s == "hourly" then Some(Hourly)
    else if s == "daily" then Some(Daily)
    else if s == "weekly" then Some(Weekly)
    else if s == "monthly" then Some(Monthly)
    else if s == "yearly" then Some(Yearly)
    else if s == "never" then Some(Never)
    else None
  }

  /** Every frequency is written as a distinct lowercase word that reads
      back as itself. */
  lemma ParseFreqName(f: ChangeFreq)
    ensures ParseFreq(FreqName(f)) == Some(f)
    ensures forall i :: 0 <= i < |FreqName(f)| ==> IsLower(FreqName(f)[i])
  {
  }

  /** A priority, in tenths: 10 is 1.0, 5 is 0.5. */
  type Tenths = t: nat | t <= 10

  /** `String(priority)`: JavaScript drops a zero fraction, so 1.0 prints
      as "1", and prints 0.9 as "0.9". */
  function PriorityText(t: Tenths): (r: string)
    ensures t == 10 ==> r == "1"
    ensures t == 0 ==> r == "0"
    ensures 0 < t < 10 ==> |r| == 3 && r[..2] == "0." && r[2] == DigitChar(t)
  {
    if t == 10 then "1" else if t == 0 then "0" else "0." + [DigitChar(t)]
  }

  /** Reads a priority back from its text. */
  function ParsePriority(s: string): Option<Tenths> {
    if s == "1" then Some(10)
    else if s == "0" then Some(0)
    else if |s| == 3 && s[..2] == "0." && '1' <= s[2] <= '9' then Some((s[2] as int - '0' as int) as Tenths)
    else None
  }

  /** Printing a priority loses nothing. */
  lemma ParsePriorityText(t: Tenths)
    ensures ParsePriority(PriorityText(t)) == Some(t)
  {
    if 0 < t < 10 {
      var r := PriorityText(t);
      assert r != "1" && r != "0" by {
        assert |r| == 3;
      }
    }
  }

  datatype UrlEntry = UrlEntry(url: string, lastmod: string, changefreq: ChangeFreq, priority: Tenths)

  /** The six fixed pages. */
  function StaticPages(site: string, currentDate: string): (r: seq<UrlEntry>)
    ensures |r| == 6
    ensures forall i :: 0 <= i < 6 ==> r[i].lastmod == currentDate
    ensures r[0].url == site && r[0].priority == 10 && r[0].changefreq == Daily
    ensures r[1].url == site + "/blog" && r[1].priority == 9 && r[1].changefreq == Daily
    ensures r[2].url == site + "/about" && r[2].priority == 7 && r[2].changefreq == Monthly
    ensures r[3].url == site + "/archives" && r[3].priority == 6 && r[3].changefreq == Weekly
    ensures r[4].url == site + "/categories" && r[4].priority == 6 && r[4].changefreq == Weekly
    ensures r[5].url == site + "/tags" && r[5].priority == 6 && r[5].changefreq == Weekly
  {
    [ UrlEntry(site, currentDate, Daily, 10),
      UrlEntry(site + "/blog", currentDate, Daily, 9),
      UrlEntry(site + "/about", currentDate, Monthly, 7),
      UrlEntry(site + "/archives", currentDate, Weekly, 6),
      UrlEntry(site + "/categories", currentDate, Weekly, 6),
      UrlEntry(site + "/tags", currentDate, Weekly, 6) ]
  }

  function PostEntry(site: string, p: Post, iso: int -> string): UrlEntry {
    UrlEntry(site + "/blog/" + p.slug, iso(p.date), Monthly, if p.featured then 8 else 7)
  }

  function CategoryEntry(site: string, c: string, currentDate: string, encode: string -> string): UrlEntry {
    UrlEntry(site + "/categories/" + encode(Lower(c)), currentDate, Weekly, 5)
  }

  function TagEntry(site: string, t: string, currentDate: string, encode: string -> string): UrlEntry {
    UrlEntry(site + "/tags/" + encode(Lower(t)), currentDate, Weekly, 5)
  }

  function PostEntries(site: string, posts: seq<Post>, iso: int -> string): (r: seq<UrlEntry>)
    ensures |r| == |posts|
    ensures forall i :: 0 <= i < |posts| ==> r[i] == PostEntry(site, posts[i], iso)
  {
    seq(|posts|, i requires 0 <= i < |posts| => PostEntry(site, posts[i], iso))
  }

  function CategoryEntries(site: string, cs: seq<string>, currentDate: string, encode: string -> string): (r: seq<UrlEntry>)
    ensures |r| == |cs|
    ensures forall i :: 0 <= i < |cs| ==> r[i] == CategoryEntry(site, cs[i], currentDate, encode)
  {
    seq(|cs|, i requires 0 <= i < |cs| => CategoryEntry(site, cs[i], currentDate, encode))
  }

  function TagEntries(site: string, ts: seq<string>, currentDate: string, encode: string -> string): (r: seq<UrlEntry>)
    ensures |r| == |ts|
    ensures forall i :: 0 <= i < |ts| ==> r[i] == TagEntry(site, ts[i], currentDate, encode)
  {
    seq(|ts|, i requires 0 <= i < |ts| => TagEntry(site, ts[i], currentDate, encode))
  }

  /** `[...staticPages, ...blogPostUrls, ...categoryUrls, ...tagUrls]`. */
  function AllUrls(site: string, posts: seq<Post>, categories: seq<string>, tags: seq<string>,
                   currentDate: string, iso: int -> string, encode: string -> string): seq<UrlEntry>
  {
    StaticPages(site, currentDate) + PostEntries(site, posts, iso) +
    CategoryEntries(site, categories, currentDate, encode) + TagEntries(site, tags, currentDate, encode)
  }

  /** The static pages come first, then one entry per post, per category
      and per tag, each group in its own order. */
  lemma AllUrlsLayout(site: string, posts: seq<Post>, categories: seq<string>, tags: seq<string>,
                      currentDate: string, iso: int -> string, encode: string -> string)
    ensures var all := AllUrls(site, posts, categories, tags, currentDate, iso, encode);
      |all| == 6 + |posts| + |categories| + |tags| &&
      all[..6] == StaticPages(site, currentDate) &&
      (forall i :: 0 <= i < |posts| ==> all[6 + i] == PostEntry(site, posts[i], iso)) &&
      (forall i :: 0 <= i < |categories| ==>
        all[6 + |posts| + i] == CategoryEntry(site, categories[i], currentDate, encode)) &&
      (forall i :: 0 <= i < |tags| ==>
        all[6 + |posts| + |categories| + i] == TagEntry(site, tags[i], currentDate, encode))
  {
    var s := StaticPages(site, currentDate);
    var p := PostEntries(site, posts, iso);
    var c := CategoryEntries(site, categories, currentDate, encode);
    var t := TagEntries(site, tags, currentDate, encode);
    var sp := s + p;
    var spc := sp + c;
    var all := spc + t;
    assert all[..6] == s;
    forall i | 0 <= i < |posts| ensures all[6 + i] == PostEntry(site, posts[i], iso) {
      assert all[6 + i] == spc[6 + i] == sp[6 + i] == p[i];
    }
    forall i | 0 <= i < |categories|
      ensures all[6 + |posts| + i] == CategoryEntry(site, categories[i], currentDate, encode)
    {
      assert all[6 + |posts| + i] == spc[6 + |posts| + i] == c[i];
    }
    forall i | 0 <= i < |tags|
      ensures all[6 + |posts| + |categories| + i] == TagEntry(site, tags[i], currentDate, encode)
    {
      assert all[6 + |posts| + |categories| + i] == t[i];
    }
  }

  /** Post entries carry the post's URL and a priority of 0.8 for a
      featured post, 0.7 otherwise; category and tag entries use the
      lowercased, encoded name at priority 0.5, weekly. Every priority lies
      between 0.5 and 1.0. */
  lemma EntryPriorities(site: string, posts: seq<Post>, categories: seq<string>, tags: seq<string>,
                        currentDate: string, iso: int -> string, encode: string -> string)
    ensures forall e :: e in AllUrls(site, posts, categories, tags, currentDate, iso, encode) ==> 5 <= e.priority <= 10
    ensures forall p :: p in posts ==>
      PostEntry(site, p, iso).url == site + "/blog/" + p.slug &&
      (PostEntry(site, p, iso).priority == 8 <==> p.featured) &&
      (PostEntry(site, p, iso).priority == 7 <==> !p.featured)
    ensures forall c :: c in categories ==>
      CategoryEntry(site, c, currentDate, encode).url == site + "/categories/" + encode(Lower(c)) &&
      CategoryEntry(site, c, currentDate, encode).priority == 5 &&
      CategoryEntry(site, c, currentDate, encode).changefreq == Weekly
    ensures forall t :: t in tags ==>
      TagEntry(site, t, currentDate, encode).url == site + "/tags/" + encode(Lower(t)) &&
      TagEntry(site, t, currentDate, encode).priority == 5 &&
      TagEntry(site, t, currentDate, encode).changefreq == Weekly
  {
    var st := StaticPages(site, currentDate);
    var ps := PostEntries(site, posts, iso);
    var cs := CategoryEntries(site, categories, currentDate, encode);
    var ts := TagEntries(site, tags, currentDate, encode);
    forall e | e in st ensures 5 <= e.priority <= 10 {
      var k :| 0 <= k < |st| && st[k] == e;
    }
    forall e | e in ps ensures 5 <= e.priority <= 10 {
      var k :| 0 <= k < |ps| && ps[k] == e;
    }
    forall e | e in cs ensures e.priority == 5 {
      var k :| 0 <= k < |cs| && cs[k] == e;
    }
    forall e | e in ts ensures e.priority == 5 {
      var k :| 0 <= k < |ts| && ts[k] == e;
    }
  }

  /** Two category names that differ only in letter case are two distinct
      categories, yet their entries carry the same `<loc>`: the sitemap
      lists that URL twice. */
  lemma CaseVariantsShareUrl(site: string, a: string, b: string, currentDate: string, encode: string -> string)
    requires a == "React" && b == "react"
    ensures a != b
    ensures CategoryEntry(site, a, currentDate, encode).url == CategoryEntry(site, b, currentDate, encode).url
  {
    assert Lower(a) == Lower(b);
  }

  /** Two categories differing only in letter case get the same URL. */
  lemma CategoryUrlIgnoresCase(site: string, c: string, d: string, currentDate: string, encode: string -> string)
    requires Lower(c) == Lower(d)
    ensures CategoryEntry(site, c, currentDate, encode).url == CategoryEntry(site, d, currentDate, encode).url
  {
  }

  /** generateUrlEntry: every field passes through `escapeXml`. */
  function GenerateUrlEntry(e: UrlEntry): string {
    "\n  <url>\n    <loc>" + EscapeXml(e.url) +
    "</loc>\n    <lastmod>" + EscapeXml(e.lastmod) +
    "</lastmod>\n    <changefreq>" + EscapeXml(FreqName(e.changefreq)) +
    "</changefreq>\n    <priority>" + EscapeXml(PriorityText(e.priority)) +
    "</priority>\n  </url>"
  }

  /** Escaping leaves the frequency name and the priority text as they
      are. */
  lemma FixedFieldsUnescaped(e: UrlEntry)
    ensures EscapeXml(FreqName(e.changefreq)) == FreqName(e.changefreq)
    ensures EscapeXml(PriorityText(e.priority)) == PriorityText(e.priority)
  {
    ParseFreqName(e.changefreq);
    EscapeXmlIdentity(FreqName(e.changefreq));
    var t := PriorityText(e.priority);
    forall i | 0 <= i < |t| ensures !IsSpecial(t[i]) {
      if 0 < e.priority < 10 {
        assert i < 2 ==> t[i] == "0."[i];
      }
    }
    EscapeXmlIdentity(t);
  }

  /** A reader decoding the entities finds the entry's own URL and
      modification date. */
  lemma UrlEntryFieldsRoundTrip(e: UrlEntry)
    ensures Unescape(EscapeXml(e.url)) == e.url
    ensures Unescape(EscapeXml(e.lastmod)) == e.lastmod
  {
    UnescapeEscapeXml(e.url);
    UnescapeEscapeXml(e.lastmod);
  }

  function RenderEntries(entries: seq<UrlEntry>): (r: seq<string>)
    ensures |r| == |entries|
    ensures forall i :: 0 <= i < |entries| ==> r[i] == GenerateUrlEntry(entries[i])
  {
    seq(|entries|, i requires 0 <= i < |entries| => GenerateUrlEntry(entries[i]))
  }

  const UrlsetHead :=
    "<?xml version=\"1.0\" encoding=\"UTF-8\"?>\n" +
    "<urlset xmlns=\"http://www.sitemaps.org/schemas/sitemap/0.9\"\n" +
    "        xmlns:news=\"http://www.google.com/schemas/sitemap-news/0.9\"\n" +
    "        xmlns:xhtml=\"http://www.w3.org/1999/xhtml\"\n" +
    "        xmlns:mobile=\"http://www.google.com/schemas/sitemap-mobile/1.0\"\n" +
    "        xmlns:image=\"http://www.google.com/schemas/sitemap-image/1.1\">\n"

  const UrlsetClose := "\n</urlset>"

  /** The body of the GET response for the service's posts, categories and
      tags. */
  function SitemapDocument(dir: Directory, now: int, env: Option<string>, currentDate: string,
                           iso: int -> string, encode: string -> string): string
  {
    var posts := GetAllPosts(dir, now);
    var all := AllUrls(SiteUrl(env), posts, AllCategories(posts), AllTags(posts), currentDate, iso, encode);
    UrlsetHead + Flatten(RenderEntries(all)) + UrlsetClose
  }

  /** No category, and no tag, is listed twice in the sitemap. */
  lemma TaxonomiesDistinct(posts: seq<Post>)
    ensures Distinct(AllCategories(posts)) && Distinct(AllTags(posts))
  {
    AllCategoriesContents(posts);
    AllTagsContents(posts);
    AscendingIsDistinct(AllCategories(posts));
    AscendingIsDistinct(AllTags(posts));
  }

  lemma AscendingIsDistinct(s: seq<string>)
    requires StrictlyAscending(s)
    ensures Distinct(s)
  {
    forall i, j | 0 <= i < j < |s| ensures s[i] != s[j] {
      LexLessIrreflexive(s[i]);
    }
  }
}
