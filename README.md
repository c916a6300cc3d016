# Personal blog core, modelled in Dafny

This project models the logic at the centre of a Next.js personal blog. Posts are
Markdown or MDX files with YAML front matter, kept in `content/blog`. The model
covers:

- **The post service.** It lists the directory, parses each file into a post
  record with defaults for missing fields, and sorts the posts newest first. On
  top of that listing it answers queries: featured posts, posts by tag, posts by
  category, a text search, the distinct sorted categories and tags, and lookup
  by slug.
- **The two XML routes.** `/feed.xml` is an RSS 2.0 channel of the newest fifty
  posts. `/sitemap.xml` is a sitemaps.org 0.9 `urlset` listing the static pages,
  the posts, the categories and the tags. Both share an `escapeXml` that writes
  the five predefined entities of section 4.6 of XML 1.0.
- **The breadcrumb trail** and its schema.org `BreadcrumbList` JSON-LD.
- **The `create-post` script:** the slug, the tag list, the extension and the
  target path.
- **The code block's copy button:** the text it copies and its `copied` flag.
- **The list pages:** the paged, title-filtered blog list and its pagination
  bar, the all-posts search with its empty-state and stats lines, and the home
  page's "featured else recent, at most three" list with its result count.

Modules, one per source file, plus two helper modules:

| module | file | source |
|---|---|---|
| `Strings` | strings.dfy | ASCII case mapping, `split`/`join`, `includes`/`startsWith`/`endsWith`, `trim` (over ECMAScript's WhiteSpace and LineTerminator characters), integer printing, JavaScript's default string order |
| `Seqs` | seqs.dfy | `filter`, `slice`, subsequences, `Option` |
| `BlogService` | blog_service.dfy | src/data/blog-service.ts |
| `Xml` | xml.dfy | the `escapeXml` of both routes |
| `RssFeed` | feed.dfy | src/app/feed.xml/route.ts |
| `Sitemap` | sitemap.dfy | src/app/sitemap.xml/route.ts |
| `Breadcrumbs` | breadcrumbs.dfy | src/components/Breadcrumbs.tsx |
| `CreatePost` | create_post.dfy | scripts/create-post.js |
| `CodeBlock` | code_block.dfy | src/components/mdx/CodeBlock.tsx |
| `Pagination` | pagination.dfy | src/components/Pagination.tsx |
| `Blogs` | blogs.dfy | src/components/Blogs.tsx |
| `BlogContent` | blog_content.dfy | src/components/BlogContent.tsx |
| `HomeContent` | home_content.dfy | src/components/HomeContent.tsx |

### How the model is shaped

- **Directory.** The content directory is either `Missing` or a sequence of
  entries. Each entry holds a file name and the outcome of reading and parsing
  that file: a front-matter map plus a body, or `Unreadable`.
- **Dates.** Dates are integer timestamps.
  - The current time is a parameter.
  - `toUTCString`, `toISOString` and `encodeURIComponent` are function
    parameters.
- **Sitemap priorities** are whole tenths.
- **Loops become methods.** Code that builds its result step by step is written
  as methods with loops, each proved equal to a specification function. This
  covers:
  - the `Set`s grown in `forEach` loops by `getAllCategories` and `getAllTags`;
  - the `+=` chain of `generateRssItem`;
  - the `acc.push` loop of the breadcrumbs.

  `getPostBySlug`'s choice between the ".md" and ".mdx" file is a method as
  well, without a loop, since the source calls `existsSync` step by step.
- **Component state becomes classes.** The state of the blog list (posts,
  loading, error, page, term) and of the copy button (`copied`, plus the resets
  its timers still owe) are classes whose methods are the event handlers.
- **Everything else** is functions with lemmas.

## Model

| member | source | states |
|---|---|---|
| `BlogService.TextOr` | src/data/blog-service.ts:167-172 | a non-empty text value is kept; a falsy value gives the default |
| `BlogService.DateOr` | src/data/blog-service.ts:169 | a front-matter date is kept; a falsy one gives the current time |
| `BlogService.ParsePostContent` | src/data/blog-service.ts:160-178 | id, slug and content are the slug and body. Falsy title, excerpt, author, category and tags take the defaults "Sin título", "", "Anónimo", "General" and []. `featured` holds iff the value is truthy. `featuredImage` falls back to `featured_image` only when it is null or undefined. `illustration` defaults to null. `images` is kept only when it is a list. Truthy excerpt, author and category strings, a tags list and a date are kept as written, and so is an illustration string |
| `BlogService.Stem` | src/data/blog-service.ts:29-31 | a ".md" or ".mdx" name is its stem plus that extension |
| `BlogService.StemOfFileName` | src/data/blog-service.ts:29-31 | "<slug>.md" and "<slug>.mdx" are content names whose stem is the slug |
| `BlogService.ParsePostFile` | src/data/blog-service.ts:145-154 | a file gives a post iff it parses, and the post is parsePostContent of its front matter, body and stem |
| `BlogService.ParsedPosts` | src/data/blog-service.ts:27-34 | a post is produced iff some content-named entry parses to it; unreadable files are dropped |
| `BlogService.InsertByDate` | src/data/blog-service.ts:37-39 | inserting keeps every post and adds one: the multiset grows by exactly that post |
| `BlogService.SortByDateDesc` | src/data/blog-service.ts:37-39 | the sort is a permutation of its input |
| `BlogService.NewestFirstCons` | src/data/blog-service.ts:37-39 | a post no older than any post of a newest-first list can go in front of it |
| `BlogService.InsertByDateNewestFirst` | src/data/blog-service.ts:37-39 | insertion keeps a list newest first |
| `BlogService.SortByDateDescNewestFirst` | src/data/blog-service.ts:37-39 | the sorted list is newest first: each post's date is at least that of every later post |
| `BlogService.InsertByDateStable` | src/data/blog-service.ts:37-39 | insertion puts a post ahead of others with the same date |
| `BlogService.SortByDateDescStable` | src/data/blog-service.ts:37-39 | the sort is stable: posts with the same date keep their directory order |
| `BlogService.GetAllPosts` | src/data/blog-service.ts:20-40 | a missing directory gives []. The listing is newest first. A post is listed iff some ".md"/".mdx" entry parses to it |
| `BlogService.GetAllPostsRecords` | src/data/blog-service.ts:29-31 | every listed post has id == slug == the stem of a parsed content file, and a non-empty title, author and category |
| `BlogService.GetAllPostsPermutesParsed` | src/data/blog-service.ts:27-39 | the listing is a permutation of the parsed posts, and keeps their order among posts of one date |
| `BlogService.GetFeaturedPosts` | src/data/blog-service.ts:78-81 | an order-preserving subsequence of the listing, holding exactly its featured posts |
| `BlogService.HasTag` | src/data/blog-service.ts:88 | some tag equals the query once both are lowercased |
| `BlogService.GetPostsByTag` | src/data/blog-service.ts:86-89 | an order-preserving subsequence, holding exactly the posts with a tag equal to the query after lowercasing both |
| `BlogService.InCategory` | src/data/blog-service.ts:96 | the lowercased category equals the lowercased query |
| `BlogService.GetPostsByCategory` | src/data/blog-service.ts:94-97 | an order-preserving subsequence, holding exactly the posts whose lowercased category equals the lowercased query |
| `BlogService.MatchesQuery` | src/data/blog-service.ts:134-137 | the lowercased query occurs in the lowercased title or excerpt |
| `BlogService.SearchPosts` | src/data/blog-service.ts:132-139 | an order-preserving subsequence, holding exactly the posts whose lowercased title or excerpt contains the lowercased query |
| `BlogService.SearchEmptyQuery` | src/data/blog-service.ts:132-139 | the empty query finds every post |
| `BlogService.QueriesIgnoreCase` | src/data/blog-service.ts:86-97 | tag, category and text queries give the same posts as their lowercased forms; the text search of lines 132-139 as well |
| `BlogService.FilterSame` | src/data/blog-service.ts:132-139 | filters with the same predicate give the same list |
| `BlogService.SetAddKeepsDistinct` | src/data/blog-service.ts:106-109 | adding to the set keeps it free of duplicates and adds exactly that value |
| `BlogService.CategorySet` | src/data/blog-service.ts:104-110 | the Set after the loop has seen the posts; see `CategorySetContents` |
| `BlogService.CategorySetContents` | src/data/blog-service.ts:102-110 | the category set has no duplicates and holds exactly the non-empty categories of the posts |
| `BlogService.AddAllContents` | src/data/blog-service.ts:121-123 | adding a list keeps the set distinct and adds exactly the list's values |
| `BlogService.TagSet` | src/data/blog-service.ts:120-124 | the Set after the outer loop has seen the posts; see `TagSetContents` |
| `BlogService.TagSetContents` | src/data/blog-service.ts:118-124 | the tag set has no duplicates and holds exactly the tags of the posts |
| `BlogService.InsertString` | src/data/blog-service.ts:112 | inserting a string adds exactly it |
| `BlogService.SortStrings` | src/data/blog-service.ts:112 | sorting keeps exactly the same strings |
| `BlogService.InsertStringAscending` | src/data/blog-service.ts:112 | inserting a new string keeps a list strictly ascending |
| `BlogService.SortStringsAscending` | src/data/blog-service.ts:112 | sorting a list without duplicates gives it in strictly ascending default order |
| `BlogService.AllCategories` | src/data/blog-service.ts:102-113 | the sorted category Set; see `AllCategoriesContents` |
| `BlogService.AllTags` | src/data/blog-service.ts:118-127 | the sorted tag Set; see `AllTagsContents` |
| `BlogService.AllCategoriesContents` | src/data/blog-service.ts:102-113 | the categories are strictly ascending, and a value is present iff it is some post's non-empty category |
| `BlogService.AllTagsContents` | src/data/blog-service.ts:118-127 | the tags are strictly ascending, and a value is present iff some post carries it |
| `BlogService.CollectCategories` | src/data/blog-service.ts:104-110 | the `forEach` loop builds the category set of the posts: distinct, with exactly their non-empty categories (through `CategorySetContents`) |
| `BlogService.GetAllCategories` | src/data/blog-service.ts:102-113 | the sorted category set of the listing: strictly ascending, with exactly the posts' non-empty categories |
| `BlogService.CollectTags` | src/data/blog-service.ts:120-124 | the nested `forEach` loops build the tag set of the posts: distinct, with exactly their tags (through `TagSetContents`) |
| `BlogService.GetAllTags` | src/data/blog-service.ts:118-127 | the sorted tag set of the listing: strictly ascending, with exactly the posts' tags |
| `BlogService.ReadFile` | src/data/blog-service.ts:67 | reading a listed file gives that entry's outcome |
| `BlogService.FileExists` | src/data/blog-service.ts:54-57 | the directory exists and holds an entry with exactly that name |
| `BlogService.GetPostBySlug` | src/data/blog-service.ts:45-73 | null when neither "<slug>.md" nor "<slug>.mdx" exists. Otherwise the ".md" file is used when present, else the ".mdx" one, and the result is null iff that file does not parse. A post found has the slug as id and slug and is one of the listed posts |
| `Xml.Entity` | src/app/feed.xml/route.ts:33-40 | a character other than the five special ones is left as it is |
| `Xml.ReplaceAll` | src/app/feed.xml/route.ts:35-39 | `replace(/c/g, rep)`: every c replaced by rep, every other character kept, in order; see `ReplaceAllConcat`, `ReplaceAllAbsent` and `ReplaceAllSingle` |
| `Xml.EscapeXml` | src/app/feed.xml/route.ts:33-40 | the chain of five replacements, "&" first; it equals `EscapeEach` (`EscapeXmlIsEscapeEach`) and `Unescape` inverts it (`UnescapeEscapeXml`) |
| `Xml.EscapeEach` | src/app/feed.xml/route.ts:33-40 | reference definition: each character replaced by its entity in one pass |
| `Xml.Unescape` | src/app/feed.xml/route.ts:33-40 | reference inverse: what an XML parser makes of the five predefined entities |
| `Xml.ReplaceAllConcat` | src/app/feed.xml/route.ts:33-40 | `replace(/c/g, rep)` distributes over concatenation |
| `Xml.ReplaceAllAbsent` | src/app/feed.xml/route.ts:33-40 | replacing a character the text does not hold changes nothing |
| `Xml.ReplaceAllSingle` | src/app/feed.xml/route.ts:33-40 | on one character a replacement gives the replacement text or the character |
| `Xml.EscapeXmlConcat` | src/app/feed.xml/route.ts:33-40 | the escape of a concatenation is the concatenation of the escapes |
| `Xml.EscapeXmlChar` | src/app/feed.xml/route.ts:33-40 | the replace chain maps each character to its XML 1.0 entity, or keeps it |
| `Xml.AmpersandEntity` | src/app/feed.xml/route.ts:34 | "&" becomes "&amp;" |
| `Xml.LaterStepsKeep` | src/app/feed.xml/route.ts:35-39 | the later replacements leave alone text without the characters they replace |
| `Xml.EscapeXmlIsEscapeEach` | src/app/feed.xml/route.ts:33-40 | because "&" is replaced first, the chain equals the one-pass, character-by-character escape, so no entity it writes is escaped again |
| `Xml.EscapeEachNoRawSpecials` | src/app/feed.xml/route.ts:33-40 | the only special character left in the escaped text is "&" |
| `Xml.EscapeXmlNoRawSpecials` | src/app/feed.xml/route.ts:33-40 | escaped text holds no raw < > " ' |
| `Xml.EscapeXmlIdentity` | src/app/feed.xml/route.ts:33-40 | text with none of the five characters is unchanged |
| `Xml.EscapeEachIdentity` | src/app/feed.xml/route.ts:33-40 | the one-pass escape is the identity on such text |
| `Xml.EscapeXmlSamples` | src/app/feed.xml/route.ts:33-40 | "<" becomes "&lt;", not "&amp;lt;", and "&" becomes "&amp;" |
| `Xml.EscapeEachGrows` | src/app/feed.xml/route.ts:33-40 | escaping never shortens text, and text with a special character gets longer and gains an "&" |
| `Xml.EscapeXmlNotIdempotent` | src/app/feed.xml/route.ts:33-40 | escaping text with a special character twice differs from escaping it once |
| `Xml.UnescapeEntity` | src/app/feed.xml/route.ts:33-40 | decoding an entity gives back its character |
| `Xml.UnescapeEscapeXml` | src/app/feed.xml/route.ts:33-40 | decoding the escaped text gives back the text: escaping loses nothing |
| `Xml.UnescapeEscapeEach` | src/app/sitemap.xml/route.ts:24-31 | the same round trip for the one-pass escape that the sitemap's identical chain equals |
| `RssFeed.EscapeAll` | src/app/feed.xml/route.ts:87-90 | each value is escaped, in order |
| `RssFeed.ItemOf` | src/app/feed.xml/route.ts:54-98 | the item `generateRssItem` describes for a post; `ItemOfContents` states its fields |
| `RssFeed.ItemOfContents` | src/app/feed.xml/route.ts:54-98 | link and guid are both the site URL + "/blog/" + slug. Title, description and author are escaped. pubDate is the post's date. There are (category ? 1 : 0) + |tags| category values: the category first, then the tags in order. An enclosure exists iff featuredImage is truthy; its URL is kept when it starts with "http", else the site URL is prefixed |
| `RssFeed.ItemTextIsSafe` | src/app/feed.xml/route.ts:64-90 | no title, description, author or category text of an item holds a raw < > " ' |
| `RssFeed.ItemTextRoundTrip` | src/app/feed.xml/route.ts:64-90 | decoding the item's texts gives back the post's title, excerpt, author and category values |
| `RssFeed.AppendCategoryLine` | src/app/feed.xml/route.ts:87-90 | one more category line extends the lines for a prefix of the values |
| `RssFeed.HeadTemplateLink` | src/app/feed.xml/route.ts:64-78 | the link element sits right after the title element in the head |
| `RssFeed.RenderItem` | src/app/feed.xml/route.ts:71-101 | an item's text: the head, the category lines, then the optional enclosure and the close; `GenerateRssItem` ties it to the `+=` loop |
| `RssFeed.RenderItemLink` | src/app/feed.xml/route.ts:64-78 | in a rendered item the link element follows the opening tag and title |
| `RssFeed.EndsWithAppend` | src/app/feed.xml/route.ts:100-101 | a suffix of the tail is a suffix of the whole |
| `RssFeed.RenderItemCloses` | src/app/feed.xml/route.ts:93-101 | an item ends with "</item>", directly preceded by the enclosure when there is one |
| `RssFeed.CategoryLinesConcat` | src/app/feed.xml/route.ts:81-90 | category lines for two lists are the lines of one followed by the other |
| `RssFeed.EscapeAllConcat` | src/app/feed.xml/route.ts:81-90 | escaping values distributes over concatenation |
| `RssFeed.ItemCategoryText` | src/app/feed.xml/route.ts:81-90 | the category text is the truthy category's line, then one line per tag |
| `RssFeed.CategoryLinesSingle` | src/app/feed.xml/route.ts:81-84 | one category value gives one escaped `<category>` element |
| `RssFeed.HeadAndCategories` | src/app/feed.xml/route.ts:64-84 | after the category branch the item is the head followed by the category line when the category is truthy |
| `RssFeed.AppendTagLine` | src/app/feed.xml/route.ts:87-90 | one loop step appends the next tag's escaped line |
| `RssFeed.AppendTagLines` | src/app/feed.xml/route.ts:87-90 | the `forEach` over the tags appends one escaped category line per tag, in order |
| `RssFeed.GenerateRssItem` | src/app/feed.xml/route.ts:54-104 | the text built by `+=` is the rendering of the item the post describes (link, guid, escaped texts, category lines, optional enclosure, close) |
| `RssFeed.RecentPosts` | src/app/feed.xml/route.ts:112-115 | the feed takes the first min(50, n) posts, in order |
| `RssFeed.LastBuildDate` | src/app/feed.xml/route.ts:118 | the first feed post's date, or the current time for an empty feed; see `LastBuildDateIsNewest` |
| `RssFeed.ChannelHead` | src/app/feed.xml/route.ts:121-146 | the fixed channel header with the build date in place; see `HeadTemplateLink` |
| `RssFeed.LastBuildDateIsNewest` | src/app/feed.xml/route.ts:118 | with posts, the build date comes from the first feed post, which is the listing's newest |
| `RssFeed.RenderItems` | src/app/feed.xml/route.ts:147 | one rendered item per post, in order |
| `RssFeed.RssDocument` | src/app/feed.xml/route.ts:112-149 | the response body: channel head, rendered recent items, close; see `RssDocumentItems` |
| `RssFeed.RssDocumentItems` | src/app/feed.xml/route.ts:112-149 | there are exactly min(50, n) items. Item i renders post i of the listing, and the document is the channel head, then those items, then the close |
| `Sitemap.SiteUrl` | src/app/sitemap.xml/route.ts:19 | the environment's URL when set and non-empty, else "https://tu-dominio.com" |
| `Sitemap.ParseFreqName` | src/app/sitemap.xml/route.ts:36-49 | each of the seven change frequencies is written as a lowercase word that reads back as itself |
| `Sitemap.PriorityText` | src/app/sitemap.xml/route.ts:45 | priority 1.0 prints as "1", 0 as "0", and d tenths as "0.d" |
| `Sitemap.ParsePriorityText` | src/app/sitemap.xml/route.ts:45 | a printed priority reads back as itself |
| `Sitemap.GenerateUrlEntry` | src/app/sitemap.xml/route.ts:36-49 | one `<url>` element with every field escaped; see `FixedFieldsUnescaped` and `UrlEntryFieldsRoundTrip` |
| `Sitemap.StaticPages` | src/app/sitemap.xml/route.ts:67-104 | six static pages in order: home 1.0 daily, /blog 0.9 daily, /about 0.7 monthly, then /archives, /categories and /tags at 0.6 weekly, all dated today |
| `Sitemap.PostEntry` | src/app/sitemap.xml/route.ts:107-112 | a post's URL, ISO date, monthly, 0.8 if featured else 0.7; see `EntryPriorities` |
| `Sitemap.CategoryEntry` | src/app/sitemap.xml/route.ts:115-120 | a category's URL from its lowercased, encoded name, today, weekly, 0.5; see `EntryPriorities` |
| `Sitemap.TagEntry` | src/app/sitemap.xml/route.ts:123-128 | a tag's URL from its lowercased, encoded name, today, weekly, 0.5; see `EntryPriorities` |
| `Sitemap.PostEntries` | src/app/sitemap.xml/route.ts:107-112 | one entry per post, in order |
| `Sitemap.CategoryEntries` | src/app/sitemap.xml/route.ts:115-120 | one entry per category, in order |
| `Sitemap.TagEntries` | src/app/sitemap.xml/route.ts:123-128 | one entry per tag, in order |
| `Sitemap.AllUrls` | src/app/sitemap.xml/route.ts:131 | the four groups concatenated; `AllUrlsLayout` states the layout |
| `Sitemap.AllUrlsLayout` | src/app/sitemap.xml/route.ts:67-131 | 6 + |posts| + |categories| + |tags| entries: the static pages, then the posts, then the categories, then the tags |
| `Sitemap.EntryPriorities` | src/app/sitemap.xml/route.ts:107-128 | every priority is between 0.5 and 1.0. A post is at site + "/blog/" + slug, with 0.8 iff featured and 0.7 iff not. A category is at site + "/categories/" + encodeURIComponent(lowercased name), weekly, at 0.5. A tag is at site + "/tags/" + encodeURIComponent(lowercased name), weekly, at 0.5 |
| `Sitemap.CategoryUrlIgnoresCase` | src/app/sitemap.xml/route.ts:115-120 | names differing only in case get the same category URL |
| `Sitemap.FixedFieldsUnescaped` | src/app/sitemap.xml/route.ts:36-49 | escaping leaves changefreq and priority texts unchanged |
| `Sitemap.UrlEntryFieldsRoundTrip` | src/app/sitemap.xml/route.ts:36-49 | loc and lastmod decode back to the entry's URL and date |
| `Sitemap.RenderEntries` | src/app/sitemap.xml/route.ts:134-141 | one `<url>` text per entry, in order |
| `Sitemap.SitemapDocument` | src/app/sitemap.xml/route.ts:57-141 | the response body: the urlset head, the rendered entries of all URLs for the service's posts, categories and tags, then the close |
| `Sitemap.TaxonomiesDistinct` | src/app/sitemap.xml/route.ts:60-61 | the category names and tag names listed have no duplicates. Names are compared as written, so two names that differ only in case are both listed (see `Sitemap.CaseVariantsShareUrl`) |
| `Sitemap.CaseVariantsShareUrl` | src/app/sitemap.xml/route.ts:115-120 | the distinct categories "React" and "react" get the same `<loc>`: when posts use both, the sitemap lists that URL twice |
| `Sitemap.AscendingIsDistinct` | src/data/blog-service.ts:102-127 | a strictly ascending list has no duplicates |
| `Breadcrumbs.PathOf` | src/components/Breadcrumbs.tsx:23 | a null or empty pathname counts as "/" |
| `Breadcrumbs.Segments` | src/components/Breadcrumbs.tsx:25 | the path cut at the first "?" and "#", split on "/", empty pieces dropped; see `SegmentsValid` and `RootHasNoSegments` |
| `Breadcrumbs.SegmentsValid` | src/components/Breadcrumbs.tsx:25 | every segment is non-empty and free of "/", "?" and "#" |
| `Breadcrumbs.RootHasNoSegments` | src/components/Breadcrumbs.tsx:23-25 | a null pathname and "/" give no segments |
| `Breadcrumbs.Href` | src/components/Breadcrumbs.tsx:31 | "/" + the first i+1 segments joined by "/"; see `HrefExtends` and `HrefReparses` |
| `Breadcrumbs.HrefExtends` | src/components/Breadcrumbs.tsx:28-35 | each href is the previous one + "/" + the next segment, so it is a proper prefix of the next |
| `Breadcrumbs.HrefReparses` | src/components/Breadcrumbs.tsx:25-35 | taking item i's href as the pathname gives back exactly the first i+1 segments |
| `Breadcrumbs.HumanizedChar` | src/components/Breadcrumbs.tsx:14-20 | no humanised character is "-" |
| `Breadcrumbs.Capitalize` | src/components/Breadcrumbs.tsx:18 | a word with its first character upper-cased |
| `Breadcrumbs.Humanize` | src/components/Breadcrumbs.tsx:14-20 | lowercase, split on "-", capitalise each word, join with " "; see `HumanizeChars` |
| `Breadcrumbs.CapitalizeJoin` | src/components/Breadcrumbs.tsx:14-20 | capitalising the words and joining with " " gives, position by position, a space for each "-", an upper-case word start, and the character elsewhere |
| `Breadcrumbs.HumanizeChars` | src/components/Breadcrumbs.tsx:14-20 | humanize keeps the length, maps each character as above, and leaves no "-" |
| `Breadcrumbs.BuildItems` | src/components/Breadcrumbs.tsx:28-35 | the push loop makes exactly one item per segment: item i is named humanize(segment i), with href "/" + the first i+1 segments joined by "/" |
| `Breadcrumbs.JsonLd` | src/components/Breadcrumbs.tsx:38-58 | the JSON-LD is null iff there are no items |
| `Breadcrumbs.JsonLdPositions` | src/components/Breadcrumbs.tsx:38-58 | Home is at position 1 with the site root. Item i is at position i+2 with its name and the site URL + its href |
| `Breadcrumbs.Rendered` | src/components/Breadcrumbs.tsx:63-80 | the list items rendered; `RenderedShape` states their shape |
| `Breadcrumbs.RenderedShape` | src/components/Breadcrumbs.tsx:63-80 | "Home" comes first. Only the last item is the current page; every earlier item is a link to its href |
| `Breadcrumbs.Trail` | src/components/Breadcrumbs.tsx:23-35 | one item per segment of the pathname; each href reparses to the segments up to it, and no name holds "-" |
| `CreatePost.DropWhile` | scripts/create-post.js:18 | a suffix of the input, not starting with a dropped character |
| `CreatePost.Slugify` | scripts/create-post.js:12-19 | computes the slug: lowercase, keep a–z, 0–9, space and "-", turn whitespace runs into "-", collapse dash runs, trim whitespace. `trim("-")` ignores its argument. Its properties are `SlugifyCharset`, `SlugifyNoDoubleDash`, `SlugifyLeadingSpace` and `SlugifyIdempotent` |
| `CreatePost.CollapseRuns` | scripts/create-post.js:16-17 | a non-empty text stays non-empty, its first character becoming "-" when it is in the run class |
| `CreatePost.CollapseChars` | scripts/create-post.js:16-17 | every character left is "-" or an input character outside the run class |
| `CreatePost.CollapseNoRepeat` | scripts/create-post.js:16-17 | after the collapse no "-" is followed by a character of the run class |
| `CreatePost.CollapseIdentity` | scripts/create-post.js:16-17 | text whose run characters are single dashes is unchanged |
| `CreatePost.CollapsedShape` | scripts/create-post.js:12-19 | before the trim the slug holds only a–z, 0–9 and single dashes, so the whitespace trim changes nothing |
| `CreatePost.SlugifyCharset` | scripts/create-post.js:13-16 | a slug holds only a–z, 0–9 and "-" |
| `CreatePost.SlugifyNoDoubleDash` | scripts/create-post.js:17 | a slug never holds "--" |
| `CreatePost.SlugifyLeadingSpace` | scripts/create-post.js:16-18 | a title starting with a space gives a slug starting with "-", because the trim strips only whitespace |
| `CreatePost.SlugifyFixes` | scripts/create-post.js:12-19 | text of slug characters without "--" is its own slug |
| `CreatePost.SlugifyIdempotent` | scripts/create-post.js:12-19 | slugify(slugify(s)) == slugify(s) |
| `CreatePost.Quoted` | scripts/create-post.js:34 | one tag trimmed and wrapped in double quotes; `QuotedStripsIdeographicSpace` shows the trim strips Unicode spaces too |
| `CreatePost.QuotedStripsIdeographicSpace` | scripts/create-post.js:34 | "react" followed by an ideographic space (U+3000) comes out as react in double quotes, the space stripped |
| `CreatePost.QuoteAll` | scripts/create-post.js:32-35 | each piece is trimmed and wrapped in double quotes, in order |
| `CreatePost.FormatTags` | scripts/create-post.js:32-35 | computes the tags text: split on ",", quote each piece, join with ", ". Its properties are `FormatTagsOfList`, `FormatTagsPieces` and `FormatTagsEmpty` |
| `CreatePost.FormatTagsOfList` | scripts/create-post.js:32-35 | trimmed, comma-free tags typed with commas come out quoted, in order, joined by ", " |
| `CreatePost.FormatTagsPieces` | scripts/create-post.js:32-35 | the answer splits into comma-free pieces that rejoin to it, and each comes out trimmed and quoted |
| `CreatePost.FormatTagsEmpty` | scripts/create-post.js:32-35 | an empty answer gives one empty quoted tag |
| `CreatePost.IsYes` | scripts/create-post.js:36-37 | the answer lowercased is "y"; `IsYesAnswers` gives the two answers that qualify |
| `CreatePost.IsYesAnswers` | scripts/create-post.js:36-37 | an answer is "yes" iff it is "y" or "Y" |
| `CreatePost.Extension` | scripts/create-post.js:38 | "mdx" iff the MDX answer is yes, "md" otherwise |
| `CreatePost.FileName` | scripts/create-post.js:74 | the slug, ".", then the extension; `WrittenFileIsListed` relates it to the post index |
| `CreatePost.FilePath` | scripts/create-post.js:74 | the working directory + "/content/blog/" + the file name |
| `CreatePost.SlugFileName` | scripts/create-post.js:74 | "<slug>.md" and "<slug>.mdx" are content names whose stem is the slug |
| `CreatePost.WrittenFileIsListed` | scripts/create-post.js:74 | the written file's name is a content name whose stem is the title's slug |
| `CodeBlock.ExtractText` | src/components/mdx/CodeBlock.tsx:56-68 | "" for every falsy node, including 0. A string is kept as it is. A non-zero number gives its decimal text. Booleans and plain objects give "" |
| `CodeBlock.JsString` | src/components/mdx/CodeBlock.tsx:46 | `String(value)`: an array's elements joined by ",", null and undefined elements as "", objects as "[object Object]" |
| `CodeBlock.GetCodeContent` | src/components/mdx/CodeBlock.tsx:33-47 | "" for falsy children, the extracted text of an element's truthy children, else `String(children)`; see `CopiesHighlightedCode` and the three lemmas after it |
| `CodeBlock.JoinNoSeparator` | src/components/mdx/CodeBlock.tsx:60-61 | joining with "" is concatenation |
| `CodeBlock.Texts` | src/components/mdx/CodeBlock.tsx:60-61 | one text per child, in order |
| `CodeBlock.ArrText` | src/components/mdx/CodeBlock.tsx:60-61 | an array's text is its children's texts concatenated in order |
| `CodeBlock.ExtractTextConcat` | src/components/mdx/CodeBlock.tsx:60-61 | the text of two child lists is the text of the first followed by that of the second |
| `CodeBlock.CopiesHighlightedCode` | src/components/mdx/CodeBlock.tsx:33-68 | copying highlighted code gives back exactly the code |
| `CodeBlock.PrimitiveChildCopied` | src/components/mdx/CodeBlock.tsx:33-47 | a lone string or number is copied as its text |
| `CodeBlock.EmptyElementCopiedAsObject` | src/components/mdx/CodeBlock.tsx:33-47 | an element with falsy children is copied as "[object Object]" |
| `CodeBlock.BareStringsCopiedWithCommas` | src/components/mdx/CodeBlock.tsx:33-47 | bare string children are copied joined by ",", while their extracted text has no separator |
| `CodeBlock.View` | src/components/mdx/CodeBlock.tsx:100-102 | the labels read "Code copied!" / "Copied!" and the check icon shows iff `copied` |
| `CodeBlock.CopyButton.constructor` | src/components/mdx/CodeBlock.tsx:23 | `copied` starts false with no reset pending |
| `CodeBlock.CopyButton.Copy` | src/components/mdx/CodeBlock.tsx:79-92 | a successful write sets `copied` and schedules one more reset; a failed one changes nothing |
| `CodeBlock.CopyButton.ResetFires` | src/components/mdx/CodeBlock.tsx:86-88 | a firing reset clears `copied`, whatever copies came after it |
| `CodeBlock.OverlappingCopies` | src/components/mdx/CodeBlock.tsx:79-92 | after two copies and the first reset, the button reads "Copy code" with a reset still pending |
| `Pagination.HandlePageChange` | src/components/Pagination.tsx:20-24 | a page is forwarded, unchanged, iff 1 <= page <= totalPages |
| `Pagination.Previous` | src/components/Pagination.tsx:32-35 | asks for the page before the current one; see `PreviousNextAtEdges` |
| `Pagination.Next` | src/components/Pagination.tsx:54-57 | asks for the page after the current one; see `PreviousNextAtEdges` |
| `Pagination.PreviousNextAtEdges` | src/components/Pagination.tsx:32-35 | Previous on page 1 and Next on the last page do nothing; in range they move by one (the Next button is at lines 54-57) |
| `Pagination.NoPagesIgnoresAll` | src/components/Pagination.tsx:20-24 | with no pages every request is dropped |
| `Pagination.Links` | src/components/Pagination.tsx:38-50 | exactly totalPages links, numbered 1..totalPages in order; link k is active iff it is the current page |
| `Pagination.LinksActive` | src/components/Pagination.tsx:38-50 | at most one link is active, and one is iff the current page is in range; every link's page is forwarded |
| `Blogs.FilterByTitle` | src/components/Blogs.tsx:21 | an order-preserving subsequence, holding exactly the posts whose lowercased title contains the lowercased term |
| `Blogs.TitleMatches` | src/components/Blogs.tsx:21 | the lowercased title contains the lowercased term |
| `Blogs.EmptyTermKeepsAll` | src/components/Blogs.tsx:21 | the empty term keeps every post |
| `Blogs.TotalPages` | src/components/Blogs.tsx:18-23 | the fewest pages of 10 that hold n posts: ceil(n / 10) |
| `Blogs.PageOf` | src/components/Blogs.tsx:55-56 | page p shows the filtered posts from (p-1)*10 on, at most 10. It is empty iff p is past the last page |
| `Blogs.Pages` | src/components/Blogs.tsx:55-56 | pages 1..m, in order |
| `Blogs.PagesPrefix` | src/components/Blogs.tsx:55-56 | the first m pages read in order are the first min(10m, n) filtered posts |
| `Blogs.PagesCoverFiltered` | src/components/Blogs.tsx:23-56 | pages 1..totalPages read in order are exactly the filtered posts, with none skipped or repeated, and none of them is empty |
| `Blogs.BlogsPage.constructor` | src/components/Blogs.tsx:12-16 | no posts, loading, no error, page 1, empty term |
| `Blogs.BlogsPage.HandleSearch` | src/components/Blogs.tsx:26-29 | sets the term and returns to page 1, which shows the first ten matches and is empty iff nothing matches |
| `Blogs.BlogsPage.FetchCompleted` | src/components/Blogs.tsx:31-52 | loading ends. The posts are stored on success; otherwise "Failed to fetch posts" for a bad status, or the error's message (else "An error occurred"). After a bad status or a message-less error the view is that error message; an error with an empty message is falsy and shows no error |
| `Blogs.BlogsPage.PageRequested` | src/components/Blogs.tsx:88 | an existing page is taken and has posts to show; any other request leaves the page as it is |
| `Blogs.BlogsPage.View` | src/components/Blogs.tsx:58-92 | the skeleton iff loading. Otherwise the error message iff the error is truthy. Otherwise "No posts found" iff the page is empty and the term non-empty, else the cards of the current page. Both of the last two carry the pagination links of the current page |
| `BlogContent.FilteredPosts` | src/components/BlogContent.tsx:19-32 | always an order-preserving subsequence. A blank term keeps every post. Otherwise a post is kept iff the lowercased, untrimmed term occurs in its lowercased title, excerpt, some tag, or category |
| `BlogContent.Blank` | src/components/BlogContent.tsx:20 | `!searchTerm.trim()`: the term trims to "" |
| `BlogContent.MatchesTerm` | src/components/BlogContent.tsx:24-31 | the lowercased, untrimmed term occurs in the lowercased title, excerpt, some tag, or the category |
| `BlogContent.WhitespaceTermKeepsAll` | src/components/BlogContent.tsx:20-22 | a term made only of characters `trim` strips (spaces, tabs, line breaks, the no-break space, the BOM and the Unicode space separators) keeps every post |
| `BlogContent.IdeographicSpaceTermKeepsAll` | src/components/BlogContent.tsx:20-22 | a term of ideographic spaces (U+3000) keeps every post |
| `BlogContent.WidensSearchPosts` | src/components/BlogContent.tsx:24-31 | every post the service's search finds (see src/data/blog-service.ts:132-139) is kept here too |
| `BlogContent.TermCaseIgnored` | src/components/BlogContent.tsx:19-32 | the term's letter case does not matter |
| `BlogContent.Render` | src/components/BlogContent.tsx:42-79 | the empty state shows iff nothing matches, with the search texts for a non-empty term and the "No posts found" texts otherwise. The stats line is "Showing:" with the match count for a non-empty term, else "Total Posts:" with the total. The category and tag counts pass through unchanged |
| `HomeContent.InitialPosts` | src/components/HomeContent.tsx:18 | the first 3 featured posts when there are any, else the first 3 posts: never more than 3 |
| `HomeContent.HomeFiltered` | src/components/HomeContent.tsx:21-35 | a blank term gives the initial posts. Otherwise the result is an order-preserving subsequence of all posts, holding exactly those matching the four-field predicate |
| `HomeContent.HomeListsIndexPosts` | src/components/HomeContent.tsx:18-35 | built from the service's listing, the home list is a subsequence of it, newest first, at most 3 without a search |
| `HomeContent.SubseqNewestFirst` | src/components/HomeContent.tsx:18-35 | a subsequence of a newest-first list is newest first |
| `HomeContent.ResultWord` | src/components/HomeContent.tsx:45-49 | "result" iff the count is 1, "results" otherwise |
| `HomeContent.ResultMessage` | src/components/HomeContent.tsx:45-49 | shown iff the term is non-empty, reading `Showing N result(s) for "term"` |
| `HomeContent.Render` | src/components/HomeContent.tsx:45-55 | the cards are the filtered posts; the "No posts found" box shows iff there are none; the message shows iff the term is non-empty, and it is the result message for the number of cards shown |
| `HomeContent.EmptySiteShowsSearchMessage` | src/components/HomeContent.tsx:51-55 | with no posts the empty box shows even without a search |

## Left out

- File system and parsing: `fs.existsSync`, `readdirSync`, `readFileSync` and gray-matter are foreign code. The directory is an input whose entries carry an already-parsed front matter or the fact that reading or parsing threw.
- Front-matter values of the wrong kind (a number as a title, a string as the tags) are read as absent and take the default; the source would keep them and fail later.
- Dates: `new Date(...)`, `getTime`, `toUTCString`, `toISOString` and the current time are timestamps or function parameters. Invalid dates, whose comparator is NaN, are not modelled.
- The clock: the source reads the clock afresh each time it parses a post without a truthy date (src/data/blog-service.ts:169). The model reads it once, as the parameter `now`, and shares that reading across every parse of a call and across calls. Two consequences hold only in the model. First, dateless posts get one date, so within one `getAllPosts` they keep their directory order; in the source a clock tick between parses can put a later-parsed dateless post ahead. Second, the same dateless post gets the same date in separate calls.
- `BlogService.GetPostBySlug`: its clause that a post found is one of the listed posts relies on the shared `now`. In the source, getPostBySlug and getAllPosts are separate calls, so a post without a truthy date gets a different date from each and is then not equal to any listed post.
- `HomeContent.HomeListsIndexPosts`: the home list is a subsequence of the listing only under the shared `now`. The source calls getAllPosts and getFeaturedPosts separately (src/app/page.tsx:7-8), so dateless posts can differ between the two lists.
- `encodeURIComponent` is a function parameter.
- Letter case is ASCII only: `toLowerCase`/`toUpperCase` of non-ASCII letters (dotted İ, the Kelvin sign) are not modelled. Slugs therefore delete every non-ASCII letter, which agrees with the source for letters whose lowercase form is non-ASCII.
- `BlogService.SortStrings`: JavaScript's default sort compares UTF-16 code units; the model compares characters, which agrees except for characters outside the Basic Multilingual Plane.
- `BlogService.GetPostBySlug`: `path.join` normalises the name, so a slug holding "/" or ".." can reach a file outside the listing. The model matches the name literally against the directory's entries, so such slugs are not modelled; in the source, a post found is one of the listed posts only for slugs free of "/".
- `CreatePost.WrittenFileIsListed`: the front-matter template is not modelled. A title, author or excerpt holding an unescaped `"` breaks the YAML, and the written file then does not parse and is not listed; the lemma states only the file name.
- `path.join` normalisation: `CreatePost.FilePath` assumes a working directory without a trailing separator. The script's readline prompts, the template text it writes and the file write itself are not modelled.
- `RssFeed.GenerateRssItem`: the item template is modelled exactly. The lemmas about the text prove the link position, the closing tag, the enclosure position and the category lines, not a full parse.
- `RssFeed.ChannelHead` and `Sitemap.UrlsetHead`: the fixed header text is modelled, not its XML well-formedness.
- Sitemap priorities are whole tenths rather than floating-point numbers.
- HTTP: the `fetch("/api/posts")` call (its outcome is an input of `Blogs.BlogsPage.FetchCompleted`), `NextResponse`, cache headers and the 500 error paths of both routes.
- Timers and the clipboard: the clipboard write's success is an input, and each scheduled reset is an explicit event. The 2000 ms delay itself is not timed.
- The copy button follows the code, not the idea of a timer that a new copy restarts: no earlier timer is ever cleared, so the reset of an older copy clears the flag that a newer copy set.
- `CodeBlock.Node`: JavaScript numbers are integers only, so fractions, NaN and Infinity are not modelled. Elements and plain objects print as "[object Object]", which is what `String()` gives for them.
- MDX compilation, the regular-expression Markdown renderer, the search bar's debounce, presentational components (cards, skeletons, layouts, sidebars, footer) and console logging are outside the core.
- The `BlogPost` interface in src/types/blog.ts does not match the record the service builds; the record actually built is modelled.
- Reading time and `updatedAt` are computed nowhere and are not modelled.
