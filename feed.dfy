/** The RSS 2.0 feed served at /feed.xml: one `<item>` per post for the
    newest fifty posts, built by appending lines to a string. Date
    formatting (`Date.prototype.toUTCString`) is the parameter `rfc822`. */
module RssFeed {
  import opened Strings
  import opened Seqs
  import opened Xml
  import opened BlogService

  const SiteUrl := "https://tu-dominio.com"
  const SiteTitle := "Mi Blog Personal"
  const SiteDescription := "Un blog personal sobre tecnolog\U{ED}a, desarrollo web y m\U{E1}s"
  const AuthorName := "Tu Nombre"
  const SiteLanguage := "es-ES"
  const AuthorEmail := "tu-email@ejemplo.com"
  const MaxItems := 50

  /** The values one `<item>` carries, already escaped where the feed
      escapes them. */
  datatype RssItem = RssItem(
    title: string,
    link: string,
    guid: string,
    description: string,
    pubDate: string,
    author: string,
    categories: seq<string>,
    enclosure: Option<string>)

  function PostUrl(slug: string): string {
    SiteUrl + "/blog/" + slug
  }

  /** `escapeXml` applied to every element. */
  function EscapeAll(xs: seq<string>): (r: seq<string>)
    ensures |r| == |xs|
    ensures forall i :: 0 <= i < |xs| ==> r[i] == EscapeXml(xs[i])
  {
    if |xs| == 0 then [] else EscapeAll(xs[..|xs| - 1]) + [EscapeXml(xs[|xs| - 1])]
  }

  /** The raw category values of an item: the post's category when it is
      truthy, then its tags in order. */
  function CategoryValues(p: Post): seq<string> {
    (if p.category != "" then [p.category] else []) + p.tags
  }

  /** A featured image that is a full URL is kept; a site path is prefixed
      with the site URL. */
  function ImageUrl(image: string): string {
    if StartsWith(image, "http") then image else SiteUrl + image
  }

  /** The item `generateRssItem` describes for a post. */
  function ItemOf(p: Post, rfc822: int -> string): RssItem
  {
    var url := PostUrl(p.slug);
    RssItem(
      title := EscapeXml(p.title),
      link := url,
      guid := url,
      description := EscapeXml(p.excerpt),
      pubDate := rfc822(p.date),
      author := EscapeXml(p.author),
      categories := EscapeAll(CategoryValues(p)),
      enclosure :=
        if p.featuredImage.Some? && p.featuredImage.value != ""
        then Some(ImageUrl(p.featuredImage.value)) else None)
  }

  /** What an item holds: link and guid are the post's URL; title,
      description and author are escaped; one category per truthy category
      and per tag, in order; an enclosure exactly for a truthy featured
      image, with a site path made absolute. */
  lemma ItemOfContents(p: Post, rfc822: int -> string)
    ensures ItemOf(p, rfc822).link == PostUrl(p.slug) && ItemOf(p, rfc822).guid == ItemOf(p, rfc822).link
    ensures ItemOf(p, rfc822).title == EscapeXml(p.title)
    ensures ItemOf(p, rfc822).description == EscapeXml(p.excerpt)
    ensures ItemOf(p, rfc822).author == EscapeXml(p.author)
    ensures ItemOf(p, rfc822).pubDate == rfc822(p.date)
    ensures |ItemOf(p, rfc822).categories| == (if p.category != "" then 1 else 0) + |p.tags|
    ensures p.category != "" ==> ItemOf(p, rfc822).categories[0] == EscapeXml(p.category)
    ensures forall i :: 0 <= i < |p.tags| ==>
      ItemOf(p, rfc822).categories[|ItemOf(p, rfc822).categories| - |p.tags| + i] == EscapeXml(p.tags[i])
    ensures ItemOf(p, rfc822).enclosure.Some? <==> p.featuredImage.Some? && p.featuredImage.value != ""
    ensures ItemOf(p, rfc822).enclosure.Some? ==>
      (StartsWith(p.featuredImage.value, "http") ==> ItemOf(p, rfc822).enclosure.value == p.featuredImage.value) &&
      (!StartsWith(p.featuredImage.value, "http") ==> ItemOf(p, rfc822).enclosure.value == SiteUrl + p.featuredImage.value)
  {
  }

  /** No text an item carries from a post can open or close a tag or an
      attribute value, whatever the post holds. */
  lemma ItemTextIsSafe(p: Post, rfc822: int -> string)
    ensures forall i :: 0 <= i < |ItemOf(p, rfc822).title| ==> ItemOf(p, rfc822).title[i] !in "<>\"'"
    ensures forall i :: 0 <= i < |ItemOf(p, rfc822).description| ==> ItemOf(p, rfc822).description[i] !in "<>\"'"
    ensures forall i :: 0 <= i < |ItemOf(p, rfc822).author| ==> ItemOf(p, rfc822).author[i] !in "<>\"'"
    ensures forall k, i :: 0 <= k < |ItemOf(p, rfc822).categories| && 0 <= i < |ItemOf(p, rfc822).categories[k]| ==>
      ItemOf(p, rfc822).categories[k][i] !in "<>\"'"
  {
    EscapeXmlNoRawSpecials(p.title);
    EscapeXmlNoRawSpecials(p.excerpt);
    EscapeXmlNoRawSpecials(p.author);
    var it := ItemOf(p, rfc822);
    forall k, i | 0 <= k < |it.categories| && 0 <= i < |it.categories[k]|
      ensures it.categories[k][i] !in "<>\"'"
    {
      EscapeXmlNoRawSpecials(CategoryValues(p)[k]);
    }
  }

  /** The readers' view: decoding the entities in an item gives back the
      post's own title, excerpt, author and category values. */
  lemma ItemTextRoundTrip(p: Post, rfc822: int -> string)
    ensures Unescape(ItemOf(p, rfc822).title) == p.title
    ensures Unescape(ItemOf(p, rfc822).description) == p.excerpt
    ensures Unescape(ItemOf(p, rfc822).author) == p.author
    ensures forall k :: 0 <= k < |CategoryValues(p)| ==>
      Unescape(ItemOf(p, rfc822).categories[k]) == CategoryValues(p)[k]
  {
    UnescapeEscapeXml(p.title);
    UnescapeEscapeXml(p.excerpt);
    UnescapeEscapeXml(p.author);
    forall k | 0 <= k < |CategoryValues(p)|
      ensures Unescape(ItemOf(p, rfc822).categories[k]) == CategoryValues(p)[k]
    {
      UnescapeEscapeXml(CategoryValues(p)[k]);
    }
  }

  /** One child element of an item, on its own line. */
  function Element(tag: string, text: string): string {
    "\n    <" + tag + ">" + text + "</" + tag + ">"
  }

  const ItemOpen := "\n  <item>"

  /** The item template up to the author element. */
  function HeadTemplate(title: string, link: string, guid: string, description: string, pubDate: string, author: string): string {
    ItemOpen + Element("title", title) + Element("link", link) +
    "\n    <guid isPermaLink=\"true\">" + guid + "</guid>" +
    Element("description", description) + Element("pubDate", pubDate) +
    Element("author", AuthorEmail + " (" + author + ")")
  }

  function ItemHead(it: RssItem): string {
    HeadTemplate(it.title, it.link, it.guid, it.description, it.pubDate, it.author)
  }

  /** The `<category>` lines for `cs`, in order. */
  function CategoryLines(cs: seq<string>): string
  {
    if |cs| == 0 then "" else CategoryLines(cs[..|cs| - 1]) + Element("category", cs[|cs| - 1])
  }

  /** Appending the line for the next category value extends the lines. */
  lemma AppendCategoryLine(head: string, cs: seq<string>, n: nat)
    requires n < |cs|
    ensures head + CategoryLines(cs[..n]) + Element("category", cs[n]) == head + CategoryLines(cs[..n + 1])
  {
    assert cs[..n + 1][..n] == cs[..n];
  }

  function EnclosureElement(url: string): string {
    "\n    <enclosure url=\"" + url + "\" type=\"image/jpeg\" />"
  }

  const ItemClose := "\n  </item>"

  /** What follows the category lines: the enclosure, if any, and the end
      tag. */
  function ItemTail(enclosure: Option<string>): string {
    match enclosure
    case None => ItemClose
    case Some(url) => EnclosureElement(url) + ItemClose
  }

  /** The text of one item. */
  function RenderItem(it: RssItem): string {
    ItemHead(it) + CategoryLines(it.categories) + ItemTail(it.enclosure)
  }

  lemma OccursAtAppend(s: string, t: string, b: string, i: int)
    requires OccursAt(s, b, i)
    ensures OccursAt(s + t, b, i)
  {
    assert (s + t)[i..i + |b|] == s[i..i + |b|];
  }

  lemma HeadTemplateLink(title: string, link: string, guid: string, description: string, pubDate: string, author: string)
    ensures OccursAt(HeadTemplate(title, link, guid, description, pubDate, author), Element("link", link),
      |ItemOpen + Element("title", title)|)
  {
    var open := ItemOpen + Element("title", title);
    var e := Element("link", link);
    assert (open + e)[|open|..|open| + |e|] == e;
    var s := open + e;
    var rest := "\n    <guid isPermaLink=\"true\">" + guid + "</guid>" +
      Element("description", description) + Element("pubDate", pubDate) +
      Element("author", AuthorEmail + " (" + author + ")");
    assert HeadTemplate(title, link, guid, description, pubDate, author) == s + rest;
    OccursAtAppend(s, rest, e, |open|);
  }

  /** The link element directly follows the title element. */
  lemma RenderItemLink(it: RssItem)
    ensures OccursAt(RenderItem(it), Element("link", it.link), |ItemOpen + Element("title", it.title)|)
  {
    var e := Element("link", it.link);
    var i := |ItemOpen + Element("title", it.title)|;
    HeadTemplateLink(it.title, it.link, it.guid, it.description, it.pubDate, it.author);
    OccursAtAppend(ItemHead(it), CategoryLines(it.categories), e, i);
    OccursAtAppend(ItemHead(it) + CategoryLines(it.categories), ItemTail(it.enclosure), e, i);
  }

  lemma EndsWithAppend(s: string, t: string, u: string)
    requires EndsWith(t, u)
    ensures EndsWith(s + t, u)
  {
    assert (s + t)[|s + t| - |u|..] == t[|t| - |u|..];
  }

  /** An item ends with the end tag, directly preceded by the enclosure
      element when there is one. */
  lemma RenderItemCloses(it: RssItem)
    ensures EndsWith(RenderItem(it), ItemClose)
    ensures it.enclosure.Some? ==> EndsWith(RenderItem(it), EnclosureElement(it.enclosure.value) + ItemClose)
  {
    var front := ItemHead(it) + CategoryLines(it.categories);
    var tail := ItemTail(it.enclosure);
    EndsWithConcat(front, tail);
    if it.enclosure.Some? {
      EndsWithConcat(EnclosureElement(it.enclosure.value), ItemClose);
      EndsWithAppend(front, tail, ItemClose);
    }
  }

  lemma {:induction false} CategoryLinesConcat(a: seq<string>, b: seq<string>)
    ensures CategoryLines(a + b) == CategoryLines(a) + CategoryLines(b)
    decreases |b|
  {
    if |b| == 0 {
      assert a + b == a;
    } else {
      var b' := b[..|b| - 1];
      var last := b[|b| - 1];
      assert (a + b)[..|a + b| - 1] == a + b';
      assert (a + b)[|a + b| - 1] == last;
      CategoryLinesConcat(a, b');
      assert CategoryLines(a + b) == CategoryLines(a + b') + Element("category", last);
      assert CategoryLines(b) == CategoryLines(b') + Element("category", last);
      AppendAssoc(CategoryLines(a), CategoryLines(b'), Element("category", last));
    }
  }

  lemma EscapeAllConcat(a: seq<string>, b: seq<string>)
    ensures EscapeAll(a + b) == EscapeAll(a) + EscapeAll(b)
  {
  }

  /** The category text of an item: the line for a truthy category, then
      the lines for the tags. */
  lemma ItemCategoryText(p: Post)
    ensures p.category != "" ==>
      CategoryLines(EscapeAll(CategoryValues(p))) == Element("category", EscapeXml(p.category)) + CategoryLines(EscapeAll(p.tags))
    ensures p.category == "" ==>
      CategoryLines(EscapeAll(CategoryValues(p))) == CategoryLines(EscapeAll(p.tags))
  {
    if p.category != "" {
      var c := p.category;
      assert CategoryValues(p) == [c] + p.tags;
      EscapeAllConcat([c], p.tags);
      CategoryLinesConcat(EscapeAll([c]), EscapeAll(p.tags));
      CategoryLinesSingle(c);
    } else {
      assert CategoryValues(p) == p.tags;
    }
  }

  lemma CategoryLinesSingle(c: string)
    ensures CategoryLines(EscapeAll([c])) == Element("category", EscapeXml(c))
  {
    var cs := EscapeAll([c]);
    assert cs[..0] == [];
  }

  /** The head followed by the category line (when the category is
      truthy) and the tag lines is the head followed by the item's category
      lines. */
  lemma HeadAndCategories(head: string, p: Post)
    ensures p.category != "" ==>
      head + Element("category", EscapeXml(p.category)) + CategoryLines(EscapeAll(p.tags)) ==
      head + CategoryLines(EscapeAll(CategoryValues(p)))
    ensures p.category == "" ==>
      head + CategoryLines(EscapeAll(p.tags)) == head + CategoryLines(EscapeAll(CategoryValues(p)))
  {
    ItemCategoryText(p);
    if p.category != "" {
      AppendAssoc(head, Element("category", EscapeXml(p.category)), CategoryLines(EscapeAll(p.tags)));
    }
  }

  lemma AppendTagLine(item: string, tags: seq<string>, i: nat)
    requires i < |tags|
    ensures item + CategoryLines(EscapeAll(tags[..i])) + Element("category", EscapeXml(tags[i])) ==
      item + CategoryLines(EscapeAll(tags[..i + 1]))
  {
    assert tags[..i + 1][..i] == tags[..i];
    var e := EscapeAll(tags[..i + 1]);
    assert e[..|e| - 1] == EscapeAll(tags[..i]);
  }

  /** The `forEach` over the tags: appends one category line per tag. */
  method AppendTagLines(item: string, tags: seq<string>) returns (r: string)
    ensures r == item + CategoryLines(EscapeAll(tags))
  {
    r := item;
    var i := 0;
    while i < |tags|
      invariant 0 <= i <= |tags|
      invariant r == item + CategoryLines(EscapeAll(tags[..i]))
    {
      AppendTagLine(item, tags, i);
      r := r + Element("category", EscapeXml(tags[i]));
      i := i + 1;
    }
    assert tags[..i] == tags;
  }

  /** generateRssItem: the head, a line for a truthy category, one line per
      tag, the optional enclosure and the closing tag. */
  method GenerateRssItem(p: Post, rfc822: int -> string) returns (item: string)
    ensures item == RenderItem(ItemOf(p, rfc822))
  {
    var postUrl := PostUrl(p.slug);
    var title := EscapeXml(p.title);
    var description := EscapeXml(p.excerpt);
    var author := EscapeXml(p.author);
    var pubDate := rfc822(p.date);

    item := HeadTemplate(title, postUrl, postUrl, description, pubDate, author);
    ghost var head := item;
    if p.category != "" {
      item := item + Element("category", EscapeXml(p.category));
    }
    item := AppendTagLines(item, p.tags);
    HeadAndCategories(head, p);

    ghost var enclosure: Option<string> := None;
    if p.featuredImage.Some? && p.featuredImage.value != "" {
      var image := p.featuredImage.value;
      var imageUrl := ImageUrl(image);
      enclosure := Some(imageUrl);
      item := item + EnclosureElement(imageUrl);
    }

    item := item + ItemClose;
    if enclosure.Some? {
      AppendAssoc(head + CategoryLines(EscapeAll(CategoryValues(p))), EnclosureElement(enclosure.value), ItemClose);
    }
    ghost var it := RssItem(title, postUrl, postUrl, description, pubDate, author, EscapeAll(CategoryValues(p)), enclosure);
    assert item == RenderItem(it);
    assert ItemOf(p, rfc822) == it;
  }

  /** `posts.slice(0, 50)`: the newest fifty posts, in the listing order. */
  function RecentPosts(posts: seq<Post>): (r: seq<Post>)
    ensures |r| == Min(MaxItems, |posts|)
    ensures r == posts[..|r|]
  {
    var r := Slice(posts, 0, MaxItems);
    assert r == posts[..|r|];
    r
  }

  /** lastBuildDate: the date of the first (newest) post, or the current
      time for an empty feed. */
  function LastBuildDate(recent: seq<Post>, now: int, rfc822: int -> string): string {
    if |recent| > 0 then rfc822(recent[0].date) else rfc822(now)
  }

  /** For the service's listing, the build date is that of the newest post
      of all. */
  lemma LastBuildDateIsNewest(dir: Directory, now: int)
    requires |GetAllPosts(dir, now)| > 0
    ensures RecentPosts(GetAllPosts(dir, now))[0] == GetAllPosts(dir, now)[0]
    ensures forall q :: q in GetAllPosts(dir, now) ==> q.date <= RecentPosts(GetAllPosts(dir, now))[0].date
  {
    var posts := GetAllPosts(dir, now);
    forall q | q in posts ensures q.date <= posts[0].date {
      var j :| 0 <= j < |posts| && posts[j] == q;
      if j > 0 {
        assert posts[0].date >= posts[j].date;
      }
    }
  }

  /** The channel header, with the build date in place. */
  function ChannelHead(lastBuildDate: string): string {
    "<?xml version=\"1.0\" encoding=\"UTF-8\"?>\n" +
    "<rss version=\"2.0\" \n" +
    "     xmlns:atom=\"http://www.w3.org/2005/Atom\"\n" +
    "     xmlns:content=\"http://purl.org/rss/1.0/modules/content/\"\n" +
    "     xmlns:dc=\"http://purl.org/dc/elements/1.1/\">\n" +
    "  <channel>\n" +
    "    <title>" + EscapeXml(SiteTitle) + "</title>\n" +
    "    <link>" + SiteUrl + "</link>\n" +
    "    <description>" + EscapeXml(SiteDescription) + "</description>\n" +
    "    <language>" + SiteLanguage + "</language>\n" +
    "    <lastBuildDate>" + lastBuildDate + "</lastBuildDate>\n" +
    "    <managingEditor>" + AuthorEmail + " (" + AuthorName + ")</managingEditor>\n" +
    "    <webMaster>" + AuthorEmail + " (" + AuthorName + ")</webMaster>\n" +
    "    \n" +
    "    <!-- Atom self-reference (recomendado para lectores RSS modernos) -->\n" +
    "    <atom:link href=\"" + SiteUrl + "/feed.xml\" rel=\"self\" type=\"application/rss+xml\" />\n" +
    "    \n" +
    "    <!-- URL de la imagen del blog (opcional, puedes personalizarla) -->\n" +
    "    <image>\n" +
    "      <url>" + SiteUrl + "/images/logo.png</url>\n" +
    "      <title>" + EscapeXml(SiteTitle) + "</title>\n" +
    "      <link>" + SiteUrl + "</link>\n" +
    "    </image>\n" +
    "    \n" +
    "    <!-- Configuraci\U{F3}n de actualizaci\U{F3}n (opcional) -->\n" +
    "    <ttl>60</ttl> <!-- Time To Live: minutos que los lectores deben cachear el feed -->\n"
  }

  const ChannelClose := "\n  </channel>\n</rss>"

  /** The rendered items of `posts`, in order (`map(...).join("")`). */
  function RenderItems(posts: seq<Post>, rfc822: int -> string): (r: seq<string>)
    ensures |r| == |posts|
    ensures forall i :: 0 <= i < |posts| ==> r[i] == RenderItem(ItemOf(posts[i], rfc822))
  {
    seq(|posts|, i requires 0 <= i < |posts| => RenderItem(ItemOf(posts[i], rfc822)))
  }

  /** The body of the GET response. */
  function RssDocument(posts: seq<Post>, now: int, rfc822: int -> string): string {
    var recent := RecentPosts(posts);
    ChannelHead(LastBuildDate(recent, now, rfc822)) + Flatten(RenderItems(recent, rfc822)) + ChannelClose
  }

  /** The document holds exactly one rendered item for each of the first
      min(50, n) posts, in listing order, between the channel head and its
      close. */
  lemma RssDocumentItems(posts: seq<Post>, now: int, rfc822: int -> string)
    ensures var items := RenderItems(RecentPosts(posts), rfc822);
      |items| == Min(MaxItems, |posts|) &&
      (forall i :: 0 <= i < |items| ==> items[i] == RenderItem(ItemOf(posts[i], rfc822))) &&
      RssDocument(posts, now, rfc822) ==
        ChannelHead(LastBuildDate(RecentPosts(posts), now, rfc822)) + Flatten(items) + ChannelClose
  {
    var recent := RecentPosts(posts);
    forall i | 0 <= i < |recent| ensures recent[i] == posts[i] {
      assert recent == posts[..|recent|];
    }
  }
}
