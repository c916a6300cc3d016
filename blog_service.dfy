/** The post index of the blog (src/data/blog-service.ts): it lists the
    Markdown/MDX files of the content directory, turns each into a post
    record with defaults for missing front-matter fields, drops the files
    that cannot be read or parsed, sorts the rest newest first, and answers
    the queries the pages make (featured, by tag, by category, search, the
    distinct categories and tags, lookup by slug).

    The file system and the front-matter parser are not modelled: the
    directory is given as its entries, each with the outcome of reading and
    parsing the file. Dates are timestamps; `now` stands for the current
    time the source reads from the clock. */
module BlogService {
  import opened Strings
  import opened Seqs

  /** A value the front-matter parser produces for one key. `FDate` is a
      date (a YAML date or a date string), given by its timestamp. */
  datatype FmValue =
    | FStr(s: string)
    | FNum(n: int)
    | FBool(b: bool)
    | FDate(time: int)
    | FList(items: seq<string>)
    | FNull

  type FrontMatter = map<string, FmValue>

  /** The outcome of reading a file and splitting its front matter from its
      body; `Unreadable` stands for a read or parse that throws. */
  datatype ParseResult = Parsed(data: FrontMatter, body: string) | Unreadable

  datatype DirEntry = DirEntry(name: string, file: ParseResult)

  /** The content directory: absent, or present with its entries in the
      order the directory listing gives them. */
  datatype Directory = Missing | Present(entries: seq<DirEntry>)

  /** The record the service builds for each post. */
  datatype Post = Post(
    id: string,
    slug: string,
    content: string,
    title: string,
    excerpt: string,
    date: int,
    author: string,
    tags: seq<string>,
    category: string,
    featured: bool,
    featuredImage: Option<string>,
    illustration: Option<string>,
    images: seq<string>)

  const DefaultTitle := "Sin t\U{ED}tulo"
  const DefaultAuthor := "An\U{F3}nimo"
  const DefaultCategory := "General"

  /** JavaScript truthiness of a front-matter value. */
  predicate Truthy(v: FmValue) {
    match v
    case FStr(s) => s != ""
    case FNum(n) => n != 0
    case FBool(b) => b
    case FDate(_) => true
    case FList(_) => true
    case FNull => false
  }

  /** `data[key]`; an absent key reads as null (null and undefined behave
      alike under `||` and `??`). */
  function Get(data: FrontMatter, key: string): FmValue {
    if key in data then data[key] else FNull
  }

  /** `value || fallback` for a string field. */
  function TextOr(v: FmValue, fallback: string): (r: string)
    ensures v.FStr? && v.s != "" ==> r == v.s
    ensures !Truthy(v) ==> r == fallback
  {
    if v.FStr? && v.s != "" then v.s else fallback
  }

  /** `value || now` for the date field. */
  function DateOr(v: FmValue, now: int): (r: int)
    ensures v.FDate? ==> r == v.time
    ensures !Truthy(v) ==> r == now
  {
    match v
    case FDate(t) => t
    case FNum(n) => if n != 0 then n else now
    case _ => now
  }

  /** `a ?? b`: only null and undefined fall through. */
  function Nullish(a: FmValue, b: FmValue): FmValue {
    if a.FNull? then b else a
  }

  function AsOptionalText(v: FmValue): Option<string> {
    if v.FStr? then Some(v.s) else None
  }

  /** parsePostContent: the post record built from a parsed file. */
  function ParsePostContent(data: FrontMatter, body: string, slug: string, now: int): (p: Post)
    ensures p.id == slug && p.slug == slug && p.content == body
    ensures p.title != "" && p.author != "" && p.category != ""
    ensures !Truthy(Get(data, "title")) ==> p.title == DefaultTitle
    ensures Get(data, "title").FStr? && Get(data, "title").s != "" ==> p.title == Get(data, "title").s
    ensures !Truthy(Get(data, "excerpt")) ==> p.excerpt == ""
    ensures Get(data, "excerpt").FStr? && Get(data, "excerpt").s != "" ==> p.excerpt == Get(data, "excerpt").s
    ensures !Truthy(Get(data, "author")) ==> p.author == DefaultAuthor
    ensures Get(data, "author").FStr? && Get(data, "author").s != "" ==> p.author == Get(data, "author").s
    ensures !Truthy(Get(data, "category")) ==> p.category == DefaultCategory
    ensures Get(data, "category").FStr? && Get(data, "category").s != "" ==> p.category == Get(data, "category").s
    ensures !Truthy(Get(data, "tags")) ==> p.tags == []
    ensures Get(data, "tags").FList? ==> p.tags == Get(data, "tags").items
    ensures p.featured <==> Truthy(Get(data, "featured"))
    ensures !Truthy(Get(data, "date")) ==> p.date == now
    ensures Get(data, "date").FDate? ==> p.date == Get(data, "date").time
    ensures Get(data, "featuredImage").FStr? ==> p.featuredImage == Some(Get(data, "featuredImage").s)
    ensures Get(data, "featuredImage").FNull? ==> p.featuredImage == AsOptionalText(Get(data, "featured_image"))
    ensures Get(data, "illustration").FNull? ==> p.illustration == None
    ensures Get(data, "illustration").FStr? ==> p.illustration == Some(Get(data, "illustration").s)
    ensures Get(data, "images").FList? ==> p.images == Get(data, "images").items
    ensures !Get(data, "images").FList? ==> p.images == []
  {
    Post(
      id := slug,
      slug := slug,
      content := body,
      title := TextOr(Get(data, "title"), DefaultTitle),
      excerpt := TextOr(Get(data, "excerpt"), ""),
      date := DateOr(Get(data, "date"), now),
      author := TextOr(Get(data, "author"), DefaultAuthor),
      tags := if Get(data, "tags").FList? then Get(data, "tags").items else [],
      category := TextOr(Get(data, "category"), DefaultCategory),
      featured := Truthy(Get(data, "featured")),
      featuredImage := AsOptionalText(Nullish(Get(data, "featuredImage"), Get(data, "featured_image"))),
      illustration := AsOptionalText(Get(data, "illustration")),
      images := if Get(data, "images").FList? then Get(data, "images").items else [])
  }

  /** A file name the listing keeps. */
  predicate IsContentName(name: string) {
    EndsWith(name, ".md") || EndsWith(name, ".mdx")
  }

  /** `name.replace(/\.(md|mdx)$/, "")`. */
  function Stem(name: string): (r: string)
    ensures EndsWith(name, ".md") ==> name == r + ".md"
    ensures EndsWith(name, ".mdx") ==> name == r + ".mdx"
    ensures !IsContentName(name) ==> r == name
  {
    if EndsWith(name, ".md") then
      assert name[|name| - 1] == 'd';
      name[..|name| - 3]
    else if EndsWith(name, ".mdx") then name[..|name| - 4]
    else name
  }

  /** The slug a post gets back from its file name. */
  lemma StemOfFileName(slug: string)
    ensures IsContentName(slug + ".md") && Stem(slug + ".md") == slug
    ensures IsContentName(slug + ".mdx") && Stem(slug + ".mdx") == slug
  {
    assert (slug + ".md")[|slug + ".md"| - 3..] == ".md";
    assert (slug + ".md")[..|slug + ".md"| - 3] == slug;
    assert (slug + ".mdx")[|slug + ".mdx"| - 4..] == ".mdx";
    assert (slug + ".mdx")[..|slug + ".mdx"| - 4] == slug;
    assert !EndsWith(slug + ".mdx", ".md") by {
      assert (slug + ".mdx")[|slug + ".mdx"| - 1] == 'x';
    }
  }

  /** parsePostFile: the post for one entry, or none when reading or parsing
      it throws. */
  function ParsePostFile(e: DirEntry, now: int): (r: Option<Post>)
    ensures r.Some? <==> e.file.Parsed?
    ensures r.Some? ==> r.value == ParsePostContent(e.file.data, e.file.body, Stem(e.name), now)
  {
    match e.file
    case Parsed(data, body) => Some(ParsePostContent(data, body, Stem(e.name), now))
    case Unreadable => None
  }

  /** The posts of the content files that parse, in directory order (the
      filter / map / filter pipeline before the sort). */
  function ParsedPosts(entries: seq<DirEntry>, now: int): (r: seq<Post>)
    ensures forall p :: p in r <==>
      exists e :: e in entries && IsContentName(e.name) && ParsePostFile(e, now) == Some(p)
  {
    if |entries| == 0 then []
    else
      var rest := ParsedPosts(entries[1..], now);
      var e := entries[0];
      assert forall x :: x in entries <==> x == e || x in entries[1..];
      if IsContentName(e.name) && e.file.Parsed? then [ParsePostFile(e, now).value] + rest else rest
  }

  // ---------------------------------------------------------------------
  // The stable sort, newest first

  /** Puts `p` after every post strictly newer than it. */
  function InsertByDate(p: Post, s: seq<Post>): (r: seq<Post>)
    ensures |r| == |s| + 1
    ensures multiset(r) == multiset(s) + multiset{p}
    ensures forall x :: x in r <==> x == p || x in s
  {
    if |s| == 0 || p.date >= s[0].date then [p] + s
    else
      assert s == [s[0]] + s[1..];
      [s[0]] + InsertByDate(p, s[1..])
  }

  /** `Array.prototype.sort` with the comparator `b.date - a.date`. */
  function SortByDateDesc(s: seq<Post>): (r: seq<Post>)
    ensures |r| == |s|
    ensures multiset(r) == multiset(s)
    ensures forall x :: x in r <==> x in s
  {
    if |s| == 0 then []
    else
      assert s == [s[0]] + s[1..];
      InsertByDate(s[0], SortByDateDesc(s[1..]))
  }

  predicate NewestFirst(s: seq<Post>) {
    forall i, j :: 0 <= i < j < |s| ==> s[i].date >= s[j].date
  }

  /** A post no older than any post of a newest-first list can go in
      front of it. */
  lemma NewestFirstCons(x: Post, r: seq<Post>)
    requires NewestFirst(r)
    requires forall y :: y in r ==> y.date <= x.date
    ensures NewestFirst([x] + r)
  {
    var full := [x] + r;
    forall i, j | 0 <= i < j < |full| ensures full[i].date >= full[j].date {
      assert full[j] == r[j - 1];
      if i > 0 {
        assert full[i] == r[i - 1];
      }
    }
  }

  lemma {:induction false} InsertByDateNewestFirst(p: Post, s: seq<Post>)
    requires NewestFirst(s)
    ensures NewestFirst(InsertByDate(p, s))
  {
    if |s| > 0 && p.date < s[0].date {
      assert NewestFirst(s[1..]) by {
        forall i, j | 0 <= i < j < |s[1..]| ensures s[1..][i].date >= s[1..][j].date {
          assert s[1..][i] == s[i + 1] && s[1..][j] == s[j + 1];
        }
      }
      InsertByDateNewestFirst(p, s[1..]);
      var r := InsertByDate(p, s[1..]);
      forall x | x in r ensures x.date <= s[0].date {
        if x != p {
          var k :| 0 <= k < |s[1..]| && s[1..][k] == x;
          assert s[k + 1] == x;
        }
      }
      NewestFirstCons(s[0], r);
    } else {
      forall y | y in s ensures y.date <= p.date {
        var k :| 0 <= k < |s| && s[k] == y;
        assert s[0].date >= s[k].date || k == 0;
      }
      NewestFirstCons(p, s);
    }
  }

  lemma {:induction false} SortByDateDescNewestFirst(s: seq<Post>)
    ensures NewestFirst(SortByDateDesc(s))
  {
    if |s| > 0 {
      SortByDateDescNewestFirst(s[1..]);
      InsertByDateNewestFirst(s[0], SortByDateDesc(s[1..]));
    }
  }

  /** The filter keeping the posts dated `d`. */
  function DatedOn(d: int): Post -> bool {
    (p: Post) => p.date == d
  }

  lemma {:induction false} InsertByDateStable(p: Post, s: seq<Post>, d: int)
    ensures Filter(InsertByDate(p, s), DatedOn(d)) == Filter([p] + s, DatedOn(d))
  {
    if |s| > 0 && p.date < s[0].date {
      var keep := DatedOn(d);
      var rest := InsertByDate(p, s[1..]);
      var fp, f0, ft := Filter([p], keep), Filter([s[0]], keep), Filter(s[1..], keep);
      assert InsertByDate(p, s) == [s[0]] + rest;
      // the tail: by induction, then split at p
      InsertByDateStable(p, s[1..], d);
      FilterConcat([p], s[1..], keep);
      assert Filter(rest, keep) == fp + ft;
      FilterConcat([s[0]], rest, keep);
      assert Filter(InsertByDate(p, s), keep) == f0 + (fp + ft);
      // the reference order: p, then s[0], then the tail
      assert [s[0]] + s[1..] == s;
      FilterConcat([s[0]], s[1..], keep);
      FilterConcat([p], s, keep);
      assert Filter([p] + s, keep) == fp + (f0 + ft);
      // p and s[0] have different dates, so at most one of them is kept
      assert fp == (if keep(p) then [p] else []);
      assert f0 == (if keep(s[0]) then [s[0]] else []);
      if fp == [] {
        assert f0 + (fp + ft) == f0 + ft == fp + (f0 + ft);
      } else {
        assert f0 == [];
        assert f0 + (fp + ft) == fp + ft == fp + (f0 + ft);
      }
    }
  }

  /** The sort is stable: among posts with the same date, the order is the
      input order. */
  lemma {:induction false} SortByDateDescStable(s: seq<Post>, d: int)
    ensures Filter(SortByDateDesc(s), DatedOn(d)) == Filter(s, DatedOn(d))
  {
    if |s| > 0 {
      SortByDateDescStable(s[1..], d);
      InsertByDateStable(s[0], SortByDateDesc(s[1..]), d);
      FilterConcat([s[0]], SortByDateDesc(s[1..]), DatedOn(d));
      FilterConcat([s[0]], s[1..], DatedOn(d));
      assert [s[0]] + s[1..] == s;
    }
  }

  // ---------------------------------------------------------------------
  // getAllPosts and the queries over it

  /** getAllPosts: no directory gives no posts; otherwise the posts of the
      content files that parse, newest first. */
  function GetAllPosts(dir: Directory, now: int): (r: seq<Post>)
    ensures dir.Missing? ==> r == []
    ensures NewestFirst(r)
    ensures forall p :: p in r <==>
      dir.Present? && exists e :: e in dir.entries && IsContentName(e.name) && ParsePostFile(e, now) == Some(p)
  {
    match dir
    case Missing => []
    case Present(entries) =>
      var parsed := ParsedPosts(entries, now);
      SortByDateDescNewestFirst(parsed);
      SortByDateDesc(parsed)
  }

  /** Every listed post carries its file's stem as both id and slug, and the
      defaults leave no title, author or category empty. */
  lemma GetAllPostsRecords(dir: Directory, now: int, p: Post)
    requires p in GetAllPosts(dir, now)
    ensures p.id == p.slug
    ensures exists e :: e in dir.entries && IsContentName(e.name) && e.file.Parsed? && p.slug == Stem(e.name)
    ensures p.title != "" && p.author != "" && p.category != ""
  {
  }

  /** The listing keeps every parsed post exactly once and, among posts of
      the same date, keeps the directory order. */
  lemma GetAllPostsPermutesParsed(entries: seq<DirEntry>, now: int, d: int)
    ensures multiset(GetAllPosts(Present(entries), now)) == multiset(ParsedPosts(entries, now))
    ensures Filter(GetAllPosts(Present(entries), now), DatedOn(d)) == Filter(ParsedPosts(entries, now), DatedOn(d))
  {
    SortByDateDescStable(ParsedPosts(entries, now), d);
  }

  /** getFeaturedPosts. */
  function GetFeaturedPosts(dir: Directory, now: int): (r: seq<Post>)
    ensures IsSubseq(r, GetAllPosts(dir, now))
    ensures forall p :: p in r <==> p in GetAllPosts(dir, now) && p.featured
  {
    Filter(GetAllPosts(dir, now), (p: Post) => p.featured)
  }

  /** `post.tags.some(t => t.toLowerCase() === tag.toLowerCase())`. */
  predicate HasTag(p: Post, tag: string) {
    exists i :: 0 <= i < |p.tags| && Lower(p.tags[i]) == Lower(tag)
  }

  /** getPostsByTag. */
  function GetPostsByTag(dir: Directory, now: int, tag: string): (r: seq<Post>)
    ensures IsSubseq(r, GetAllPosts(dir, now))
    ensures forall p :: p in r <==> p in GetAllPosts(dir, now) && HasTag(p, tag)
  {
    Filter(GetAllPosts(dir, now), (p: Post) => HasTag(p, tag))
  }

  predicate InCategory(p: Post, category: string) {
    Lower(p.category) == Lower(category)
  }

  /** getPostsByCategory. */
  function GetPostsByCategory(dir: Directory, now: int, category: string): (r: seq<Post>)
    ensures IsSubseq(r, GetAllPosts(dir, now))
    ensures forall p :: p in r <==> p in GetAllPosts(dir, now) && InCategory(p, category)
  {
    Filter(GetAllPosts(dir, now), (p: Post) => InCategory(p, category))
  }

  /** The searchPosts test: the lowercased query occurs in the lowercased
      title or excerpt. */
  predicate MatchesQuery(p: Post, query: string) {
    Contains(Lower(p.title), Lower(query)) || Contains(Lower(p.excerpt), Lower(query))
  }

  /** searchPosts. */
  function SearchPosts(dir: Directory, now: int, query: string): (r: seq<Post>)
    ensures IsSubseq(r, GetAllPosts(dir, now))
    ensures forall p :: p in r <==> p in GetAllPosts(dir, now) && MatchesQuery(p, query)
  {
    Filter(GetAllPosts(dir, now), (p: Post) => MatchesQuery(p, query))
  }

  /** The empty query finds every post. */
  lemma SearchEmptyQuery(dir: Directory, now: int)
    ensures SearchPosts(dir, now, "") == GetAllPosts(dir, now)
  {
    forall p | p in GetAllPosts(dir, now) ensures MatchesQuery(p, "") {
      ContainsEmpty(Lower(p.title));
    }
    FilterAll(GetAllPosts(dir, now), (p: Post) => MatchesQuery(p, ""));
  }

  /** Tag, category and search queries ignore the case of their argument. */
  lemma QueriesIgnoreCase(dir: Directory, now: int, s: string)
    ensures GetPostsByTag(dir, now, s) == GetPostsByTag(dir, now, Lower(s))
    ensures GetPostsByCategory(dir, now, s) == GetPostsByCategory(dir, now, Lower(s))
    ensures SearchPosts(dir, now, s) == SearchPosts(dir, now, Lower(s))
  {
    LowerIdempotent(s);
    var all := GetAllPosts(dir, now);
    FilterSame(all, (p: Post) => HasTag(p, s), (p: Post) => HasTag(p, Lower(s)));
    FilterSame(all, (p: Post) => InCategory(p, s), (p: Post) => InCategory(p, Lower(s)));
    FilterSame(all, (p: Post) => MatchesQuery(p, s), (p: Post) => MatchesQuery(p, Lower(s)));
  }

  lemma {:induction false} FilterSame(s: seq<Post>, f: Post -> bool, g: Post -> bool)
    requires forall p :: f(p) == g(p)
    ensures Filter(s, f) == Filter(s, g)
  {
    if |s| > 0 {
      FilterSame(s[1..], f, g);
    }
  }

  // ---------------------------------------------------------------------
  // getAllCategories and getAllTags: a Set grown in insertion order, then
  // sorted

  /** `set.add(x)` on a Set kept as its insertion-ordered contents. */
  function SetAdd(seen: seq<string>, x: string): seq<string> {
    if x in seen then seen else seen + [x]
  }

  predicate Distinct(s: seq<string>) {
    forall i, j :: 0 <= i < j < |s| ==> s[i] != s[j]
  }

  lemma SetAddKeepsDistinct(seen: seq<string>, x: string)
    requires Distinct(seen)
    ensures Distinct(SetAdd(seen, x))
    ensures forall y :: y in SetAdd(seen, x) <==> y in seen || y == x
  {
  }

  /** The category Set after the first |posts| iterations of the loop. */
  function CategorySet(posts: seq<Post>): seq<string>
  {
    if |posts| == 0 then []
    else
      var seen := CategorySet(posts[..|posts| - 1]);
      var c := posts[|posts| - 1].category;
      if c != "" then SetAdd(seen, c) else seen
  }

  lemma {:induction false} CategorySetContents(posts: seq<Post>)
    ensures Distinct(CategorySet(posts))
    ensures forall c :: c in CategorySet(posts) <==> c != "" && exists p :: p in posts && p.category == c
  {
    if |posts| > 0 {
      var init := posts[..|posts| - 1];
      CategorySetContents(init);
      SetAddKeepsDistinct(CategorySet(init), posts[|posts| - 1].category);
      assert posts == init + [posts[|posts| - 1]];
      assert forall p :: p in posts <==> p in init || p == posts[|posts| - 1];
    }
  }

  /** `xs.forEach(x => set.add(x))` for the first |xs| elements. */
  function AddAll(seen: seq<string>, xs: seq<string>): seq<string>
  {
    if |xs| == 0 then seen else SetAdd(AddAll(seen, xs[..|xs| - 1]), xs[|xs| - 1])
  }

  lemma {:induction false} AddAllContents(seen: seq<string>, xs: seq<string>)
    requires Distinct(seen)
    ensures Distinct(AddAll(seen, xs))
    ensures forall y :: y in AddAll(seen, xs) <==> y in seen || y in xs
  {
    if |xs| > 0 {
      var init := xs[..|xs| - 1];
      AddAllContents(seen, init);
      SetAddKeepsDistinct(AddAll(seen, init), xs[|xs| - 1]);
      assert xs == init + [xs[|xs| - 1]];
    }
  }

  /** The tag Set after the first |posts| iterations of the outer loop. */
  function TagSet(posts: seq<Post>): seq<string>
  {
    if |posts| == 0 then [] else AddAll(TagSet(posts[..|posts| - 1]), posts[|posts| - 1].tags)
  }

  lemma {:induction false} TagSetContents(posts: seq<Post>)
    ensures Distinct(TagSet(posts))
    ensures forall t :: t in TagSet(posts) <==> exists p :: p in posts && t in p.tags
  {
    if |posts| > 0 {
      var init := posts[..|posts| - 1];
      TagSetContents(init);
      AddAllContents(TagSet(init), posts[|posts| - 1].tags);
      assert posts == init + [posts[|posts| - 1]];
      assert forall p :: p in posts <==> p in init || p == posts[|posts| - 1];
    }
  }

  /** Insertion into a sequence sorted by `LexLess`. */
  function InsertString(x: string, s: seq<string>): (r: seq<string>)
    ensures |r| == |s| + 1
    ensures forall y :: y in r <==> y == x || y in s
  {
    if |s| == 0 || LexLess(x, s[0]) then [x] + s
    else
      assert forall y :: y in s <==> y == s[0] || y in s[1..];
      [s[0]] + InsertString(x, s[1..])
  }

  /** `Array.prototype.sort()` on strings. */
  function SortStrings(s: seq<string>): (r: seq<string>)
    ensures |r| == |s|
    ensures forall y :: y in r <==> y in s
  {
    if |s| == 0 then []
    else
      assert forall y :: y in s <==> y == s[0] || y in s[1..];
      InsertString(s[0], SortStrings(s[1..]))
  }

  /** Ascending, with no value twice. */
  predicate StrictlyAscending(s: seq<string>) {
    forall i, j :: 0 <= i < j < |s| ==> LexLess(s[i], s[j])
  }

  lemma {:induction false} InsertStringAscending(x: string, s: seq<string>)
    requires StrictlyAscending(s) && x !in s
    ensures StrictlyAscending(InsertString(x, s))
  {
    var r := InsertString(x, s);
    if |s| == 0 || LexLess(x, s[0]) {
      forall i, j | 0 <= i < j < |r| ensures LexLess(r[i], r[j]) {
        if i == 0 && j > 1 {
          LexLessTransitive(x, s[0], s[j - 1]);
        }
      }
    } else {
      LexLessTotal(x, s[0]);
      InsertStringAscending(x, s[1..]);
      var tail := InsertString(x, s[1..]);
      forall i, j | 0 <= i < j < |r| ensures LexLess(r[i], r[j]) {
        if i == 0 {
          assert r[j] in tail;
          assert r[j] == x || r[j] in s[1..];
          if r[j] != x {
            var k :| 0 <= k < |s[1..]| && s[1..][k] == r[j];
            assert LexLess(s[0], s[k + 1]);
          }
        } else {
          assert r[i] == tail[i - 1] && r[j] == tail[j - 1];
        }
      }
    }
  }

  lemma {:induction false} SortStringsAscending(s: seq<string>)
    requires Distinct(s)
    ensures StrictlyAscending(SortStrings(s))
  {
    if |s| > 0 {
      SortStringsAscending(s[1..]);
      assert s[0] !in s[1..];
      InsertStringAscending(s[0], SortStrings(s[1..]));
    }
  }

  /** What getAllCategories returns for a list of posts. */
  function AllCategories(posts: seq<Post>): seq<string> {
    SortStrings(CategorySet(posts))
  }

  /** What getAllTags returns for a list of posts. */
  function AllTags(posts: seq<Post>): seq<string> {
    SortStrings(TagSet(posts))
  }

  /** The distinct categories, ascending: a value is listed iff some post
      has it as its (non-empty) category. */
  lemma AllCategoriesContents(posts: seq<Post>)
    ensures StrictlyAscending(AllCategories(posts))
    ensures forall c :: c in AllCategories(posts) <==> c != "" && exists p :: p in posts && p.category == c
  {
    CategorySetContents(posts);
    SortStringsAscending(CategorySet(posts));
  }

  /** The distinct tags, ascending: a value is listed iff some post carries
      it. */
  lemma AllTagsContents(posts: seq<Post>)
    ensures StrictlyAscending(AllTags(posts))
    ensures forall t :: t in AllTags(posts) <==> exists p :: p in posts && t in p.tags
  {
    TagSetContents(posts);
    SortStringsAscending(TagSet(posts));
  }

  /** The `forEach` of getAllCategories: each truthy category added to the
      Set, in post order. */
  method CollectCategories(posts: seq<Post>) returns (categories: seq<string>)
    ensures categories == CategorySet(posts)
  {
    categories := [];
    var i := 0;
    while i < |posts|
      invariant 0 <= i <= |posts|
      invariant categories == CategorySet(posts[..i])
    {
      assert posts[..i + 1][..i] == posts[..i];
      if posts[i].category != "" {
        categories := SetAdd(categories, posts[i].category);
      }
      i := i + 1;
    }
    assert posts[..i] == posts;
  }

  /** getAllCategories: the Set's contents sorted. */
  method GetAllCategories(dir: Directory, now: int) returns (r: seq<string>)
    ensures r == AllCategories(GetAllPosts(dir, now))
    ensures StrictlyAscending(r)
    ensures forall c :: c in r <==> c != "" && exists p :: p in GetAllPosts(dir, now) && p.category == c
  {
    var allPosts := GetAllPosts(dir, now);
    var categories := CollectCategories(allPosts);
    r := SortStrings(categories);
    AllCategoriesContents(allPosts);
  }

  /** The nested `forEach` of getAllTags: every tag of every post added to
      the Set, in order. */
  method CollectTags(posts: seq<Post>) returns (tags: seq<string>)
    ensures tags == TagSet(posts)
  {
    tags := [];
    var i := 0;
    while i < |posts|
      invariant 0 <= i <= |posts|
      invariant tags == TagSet(posts[..i])
    {
      var postTags := posts[i].tags;
      var j := 0;
      while j < |postTags|
        invariant 0 <= j <= |postTags|
        invariant tags == AddAll(TagSet(posts[..i]), postTags[..j])
      {
        assert postTags[..j + 1][..j] == postTags[..j];
        tags := SetAdd(tags, postTags[j]);
        j := j + 1;
      }
      assert postTags[..j] == postTags;
      assert posts[..i + 1][..i] == posts[..i];
      i := i + 1;
    }
    assert posts[..i] == posts;
  }

  /** getAllTags: the Set's contents sorted. */
  method GetAllTags(dir: Directory, now: int) returns (r: seq<string>)
    ensures r == AllTags(GetAllPosts(dir, now))
    ensures StrictlyAscending(r)
    ensures forall t :: t in r <==> exists p :: p in GetAllPosts(dir, now) && t in p.tags
  {
    var allPosts := GetAllPosts(dir, now);
    var tags := CollectTags(allPosts);
    r := SortStrings(tags);
    AllTagsContents(allPosts);
  }

  // ---------------------------------------------------------------------
  // getPostBySlug

  /** `fs.existsSync` for a name in the content directory. */
  predicate FileExists(dir: Directory, name: string) {
    dir.Present? && exists e :: e in dir.entries && e.name == name
  }

  /** `fs.readFileSync` plus the front-matter split for a name known to
      exist: the outcome recorded for the first entry of that name. */
  function ReadFile(entries: seq<DirEntry>, name: string): (r: ParseResult)
    requires exists e :: e in entries && e.name == name
    ensures exists e :: e in entries && e.name == name && e.file == r
  {
    if entries[0].name == name then entries[0].file
    else
      assert exists e :: e in entries[1..] && e.name == name by {
        var e :| e in entries && e.name == name;
        assert e in entries[1..];
      }
      ReadFile(entries[1..], name)
  }

  /** getPostBySlug: "<slug>.md" when it exists, else "<slug>.mdx"; null when
      neither exists or the chosen file cannot be read or parsed. A post it
      finds is the one the listing holds for that file. */
  method GetPostBySlug(dir: Directory, now: int, slug: string) returns (r: Option<Post>)
    ensures !FileExists(dir, slug + ".md") && !FileExists(dir, slug + ".mdx") ==> r == None
    ensures FileExists(dir, slug + ".md") ==>
      r == ParsePostFile(DirEntry(slug + ".md", ReadFile(dir.entries, slug + ".md")), now)
    ensures !FileExists(dir, slug + ".md") && FileExists(dir, slug + ".mdx") ==>
      r == ParsePostFile(DirEntry(slug + ".mdx", ReadFile(dir.entries, slug + ".mdx")), now)
    ensures r.Some? ==> r.value.slug == slug && r.value.id == slug
    ensures r.Some? ==> r.value in GetAllPosts(dir, now)
  {
    var mdName := slug + ".md";
    var mdxName := slug + ".mdx";
    StemOfFileName(slug);
    var fileName: Option<string> := None;
    if FileExists(dir, mdName) {
      fileName := Some(mdName);
    } else if FileExists(dir, mdxName) {
      fileName := Some(mdxName);
    }
    if fileName.None? {
      return None;
    }
    var file := ReadFile(dir.entries, fileName.value);
    match file {
      case Unreadable =>
        r := None;
      case Parsed(data, body) =>
        r := Some(ParsePostContent(data, body, slug, now));
        ghost var e :| e in dir.entries && e.name == fileName.value && e.file == file;
        assert ParsePostFile(e, now) == r;
    }
  }
}
