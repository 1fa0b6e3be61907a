/** The content-derivation rules of `app/sitemap.tsx`: which files are content,
    how a file's slug and sitemap fields are derived from its path and front
    matter, which posts are published, how often each page is said to change,
    and the category pages. Directory walking, file reading and front-matter
    parsing happen before this model starts. */
module Sitemap {
  import opened Optional
  import opened Strings
  import opened Sequences

  const MdxExtension := ".mdx"
  const MdExtension := ".md"
  /** The title a post without one gets, and the mark of a draft. */
  const Untitled := "Untitled"
  const Daily := "daily"
  const Weekly := "weekly"
  const Monthly := "monthly"
  const Yearly := "yearly"
  const DefaultBaseUrl := "https://yourdomain.com"

  datatype ContentType = Blog | Guide | Article {
    function Name(): (name: string)
      ensures name != ""
    {
      match this
      case Blog => "blog"
      case Guide => "guide"
      case Article => "article"
    }
  }

  /** The front-matter keys the sitemap reads; any of them may be absent. */
  datatype FrontMatter = FrontMatter(
    title: Option<string>,
    date: Option<string>,
    publishedAt: Option<string>,
    lastModified: Option<string>,
    updated: Option<string>,
    category: Option<string>,
    tags: Option<seq<string>>,
    featured: Option<bool>,
    priority: Option<real>,
    changeFreq: Option<string>)

  /** A file under the content directory: its path relative to that directory,
      its front matter (`None` when reading or parsing it fails), and the
      creation and modification times its file system reports, as ISO strings. */
  datatype ContentFile = ContentFile(path: string, frontMatter: Option<FrontMatter>,
                                     birthtime: string, mtime: string)

  datatype MdxPost = MdxPost(
    slug: string,
    title: string,
    date: string,
    lastModified: Option<string>,
    category: Option<string>,
    featured: Option<bool>,
    priority: Option<real>,
    changeFreq: Option<string>)

  /** A sitemap entry, without the priority and the wall-clock modification time. */
  datatype Entry = Entry(url: string, changeFrequency: string)

  /** The extension test of `getAllMDXFiles`. */
  predicate IsContentFile(name: string) {
    EndsWith(name, MdxExtension) || EndsWith(name, MdExtension)
  }

  /** The suffix `/\.(mdx?|md)$/` matches: `.mdx`, else `.md`, else nothing. */
  function ContentExtension(path: string): (ext: string)
    ensures ext in {"", MdExtension, MdxExtension}
    ensures EndsWith(path, ext)
    ensures ext != "" <==> IsContentFile(path)
  {
    if EndsWith(path, MdxExtension) then MdxExtension
    else if EndsWith(path, MdExtension) then MdExtension
    else ""
  }

  /** `.replace(/\\/g, '/')`. */
  function ForwardSlashes(s: string): (r: string)
    ensures |r| == |s|
    ensures '\\' !in r
    ensures forall i :: 0 <= i < |s| && s[i] == '\\' ==> r[i] == '/'
    ensures forall i :: 0 <= i < |s| && s[i] != '\\' ==> r[i] == s[i]
  {
    seq(|s|, i requires 0 <= i < |s| => if s[i] == '\\' then '/' else s[i])
  }

  /** The slug of `parseMDXFile`: the relative path without its content
      extension and with Windows separators turned into `/`. */
  function SlugOf(path: string): (slug: string)
    ensures '\\' !in slug
    ensures slug + ContentExtension(path) == ForwardSlashes(path)
  {
    var ext := ContentExtension(path);
    var stem := path[..|path| - |ext|];
    assert path == stem + ext;
    ForwardSlashesAppend(stem, ext);
    ForwardSlashes(stem)
  }

  /** Converting separators works piecewise, and an extension has none. */
  lemma ForwardSlashesAppend(stem: string, ext: string)
    requires ext in {"", MdExtension, MdxExtension}
    ensures ForwardSlashes(stem + ext) == ForwardSlashes(stem) + ext
  {
    var whole, part := ForwardSlashes(stem + ext), ForwardSlashes(stem);
    forall i | 0 <= i < |whole| ensures whole[i] == (part + ext)[i] {
      if i >= |stem| {
        assert (stem + ext)[i] == ext[i - |stem|];
      }
    }
  }

  /** Exactly the content files lose an extension when their slug is derived. */
  lemma SlugShortensExactlyContentFiles(path: string)
    ensures |SlugOf(path)| < |path| <==> IsContentFile(path)
  {
    assert |SlugOf(path) + ContentExtension(path)| == |ForwardSlashes(path)|;
  }

  /** `frontMatter.tags?.[0]`. */
  function FirstTag(tags: Option<seq<string>>): Option<string> {
    if tags.Some? && |tags.value| > 0 then Some(tags.value[0]) else None
  }

  /** `frontMatter.category || frontMatter.tags?.[0] || contentType`. */
  function CategoryOf(fm: FrontMatter, contentType: ContentType): (c: string)
    ensures c != ""
    ensures c == fm.category.GetOr("") || c == FirstTag(fm.tags).GetOr("") || c == contentType.Name()
    ensures Truthy(fm.category) ==> c == fm.category.value
  {
    OrElse(fm.category, OrElse(FirstTag(fm.tags), contentType.Name()))
  }

  /** `parseMDXFile(filePath, contentType)`; `None` stands for the `null` it
      returns when the file cannot be read or parsed. */
  function ParseFile(file: ContentFile, contentType: ContentType): (r: Option<MdxPost>)
    ensures r.None? <==> file.frontMatter.None?
    ensures r.Some? ==> r.value.slug == SlugOf(file.path)
    ensures r.Some? ==> r.value.title != "" && Truthy(r.value.changeFreq) && Truthy(r.value.category)
  {
    match file.frontMatter
    case None => None
    case Some(fm) =>
      Some(MdxPost(
        SlugOf(file.path),
        OrElse(fm.title, Untitled),
        OrElse(fm.date, OrElse(fm.publishedAt, file.birthtime)),
        Some(OrElse(fm.lastModified, OrElse(fm.updated, file.mtime))),
        Some(CategoryOf(fm, contentType)),
        Some(fm.featured == Some(true)),
        fm.priority,
        Some(OrElse(fm.changeFreq, Monthly))))
  }

  /** The fallback chains of `parseMDXFile`, field by field. */
  lemma ParseFileFallbacks(file: ContentFile, contentType: ContentType)
    requires file.frontMatter.Some?
    ensures var fm, p := file.frontMatter.value, ParseFile(file, contentType).value;
      && (p.title == if Truthy(fm.title) then fm.title.value else Untitled)
      && (p.featured == Some(true) <==> fm.featured == Some(true))
      && (p.changeFreq.value == if Truthy(fm.changeFreq) then fm.changeFreq.value else Monthly)
      && (p.category.value ==
            if Truthy(fm.category) then fm.category.value
            else if fm.tags.Some? && |fm.tags.value| > 0 && fm.tags.value[0] != "" then fm.tags.value[0]
            else contentType.Name())
      && (p.date == if Truthy(fm.date) then fm.date.value
                    else if Truthy(fm.publishedAt) then fm.publishedAt.value
                    else file.birthtime)
      && (p.lastModified.value == if Truthy(fm.lastModified) then fm.lastModified.value
                                  else if Truthy(fm.updated) then fm.updated.value
                                  else file.mtime)
  {
  }

  /** The selector of `getAllMDXFiles`. */
  function IsContent(f: ContentFile): bool {
    IsContentFile(f.path)
  }

  /** The files `getAllMDXFiles` keeps from a walked directory, in walk order. */
  function ContentFiles(files: seq<ContentFile>): (r: seq<ContentFile>)
    ensures IsSubsequence(r, files)
    ensures forall f :: f in r <==> f in files && IsContentFile(f.path)
  {
    FilterIsSubsequence(files, IsContent);
    Filter(files, IsContent)
  }

  /** The posts of one directory: every file parsed, the failures skipped. */
  function Collect(files: seq<ContentFile>, contentType: ContentType): (ps: seq<MdxPost>)
    ensures |ps| <= |files|
  {
    if |files| == 0 then []
    else
      match ParseFile(files[0], contentType)
      case None => Collect(files[1..], contentType)
      case Some(p) => [p] + Collect(files[1..], contentType)
  }

  /** Every post collected comes from a readable file of the directory, and
      every readable file yields one. */
  lemma {:induction false} CollectMembers(files: seq<ContentFile>, contentType: ContentType, p: MdxPost)
    ensures p in Collect(files, contentType) <==>
      exists f :: f in files && ParseFile(f, contentType) == Some(p)
  {
    if |files| > 0 {
      CollectMembers(files[1..], contentType, p);
      if p in Collect(files, contentType) && ParseFile(files[0], contentType) != Some(p) {
        var f :| f in files[1..] && ParseFile(f, contentType) == Some(p);
        assert f in files;
      }
      if f :| f in files && ParseFile(f, contentType) == Some(p) {
        if f != files[0] {
          assert f in files[1..];
        }
      }
    }
  }

  /** The posts of the blog, guide and flat scans, in that order, before the
      draft filter. A missing subdirectory is `None`; `content` is the walk of
      the whole content directory, consulted only when both are missing. */
  function Gathered(blog: Option<seq<ContentFile>>, guides: Option<seq<ContentFile>>,
                    content: seq<ContentFile>): seq<MdxPost>
  {
    (if blog.Some? then Collect(ContentFiles(blog.value), Blog) else [])
    + (if guides.Some? then Collect(ContentFiles(guides.value), Guide) else [])
    + (if blog.None? && guides.None? then Collect(ContentFiles(content), Article) else [])
  }

  /** The selector of the draft filter. */
  function IsTitled(p: MdxPost): bool {
    p.title != Untitled
  }

  /** The draft filter: posts titled `Untitled` are dropped, the rest keep
      their order. */
  function Published(posts: seq<MdxPost>): (r: seq<MdxPost>)
    ensures IsSubsequence(r, posts)
    ensures forall p :: p in r <==> p in posts && p.title != Untitled
    ensures forall p :: multiset(r)[p] == if p.title == Untitled then 0 else multiset(posts)[p]
  {
    FilterIsSubsequence(posts, IsTitled);
    FilterMultiplicity(posts, IsTitled);
    Filter(posts, IsTitled)
  }

  /** `getAllPosts()` of the sitemap. */
  function AllPosts(blog: Option<seq<ContentFile>>, guides: Option<seq<ContentFile>>,
                    content: seq<ContentFile>): seq<MdxPost>
  {
    Published(Gathered(blog, guides, content))
  }

  /** Blog posts precede guide posts, and the flat scan plays no part, as soon
      as either subdirectory exists. */
  lemma BlogBeforeGuides(blog: Option<seq<ContentFile>>, guides: Option<seq<ContentFile>>,
                         content: seq<ContentFile>)
    requires blog.Some? || guides.Some?
    ensures AllPosts(blog, guides, content) ==
      Published(if blog.Some? then Collect(ContentFiles(blog.value), Blog) else [])
      + Published(if guides.Some? then Collect(ContentFiles(guides.value), Guide) else [])
  {
    var b := if blog.Some? then Collect(ContentFiles(blog.value), Blog) else [];
    var g := if guides.Some? then Collect(ContentFiles(guides.value), Guide) else [];
    assert Gathered(blog, guides, content) == b + g;
    FilterAppend(b, g, IsTitled);
  }

  /** The flat scan is the only source when neither subdirectory exists, and
      every post it yields is an article-typed one. */
  lemma FlatScanOnlyWithoutSubdirectories(content: seq<ContentFile>, p: MdxPost)
    ensures p in AllPosts(None, None, content) <==>
      exists f :: f in content && IsContentFile(f.path) && ParseFile(f, Article) == Some(p) && p.title != Untitled
  {
    assert Gathered(None, None, content) == Collect(ContentFiles(content), Article);
    CollectMembers(ContentFiles(content), Article, p);
  }

  /** A post is published exactly when its file is a readable content file whose
      front matter names a title other than `Untitled`. */
  lemma PublishedTitle(file: ContentFile, contentType: ContentType)
    requires file.frontMatter.Some?
    ensures ParseFile(file, contentType).value.title != Untitled <==>
      Truthy(file.frontMatter.value.title) && file.frontMatter.value.title.value != Untitled
  {
  }

  /** `getChangeFrequency(post)`. */
  function ChangeFrequency(post: MdxPost): (freq: string)
    ensures Truthy(post.changeFreq) ==> freq == post.changeFreq.value
    ensures !Truthy(post.changeFreq) ==> freq == Weekly || freq == Monthly
    ensures !Truthy(post.changeFreq) ==>
      (freq == Weekly <==>
         (Truthy(post.category) &&
          (Contains(Lower(post.category.value), "news") || Contains(Lower(post.category.value), "update"))))
  {
    if Truthy(post.changeFreq) then post.changeFreq.value
    else if Truthy(post.category) then
      var category := Lower(post.category.value);
      if Contains(category, "news") || Contains(category, "update") then Weekly
      else if Contains(category, "guide") || Contains(category, "tutorial") then Monthly
      else if Contains(category, "review") || Contains(category, "comparison") then Monthly
      else Monthly
    else Monthly
  }

  /** A parsed post always carries a change frequency, so the category rules
      never apply to one: the sitemap reports its front matter's value or
      `monthly`. */
  lemma ParsedChangeFrequency(file: ContentFile, contentType: ContentType)
    requires file.frontMatter.Some?
    ensures ChangeFrequency(ParseFile(file, contentType).value) ==
      if Truthy(file.frontMatter.value.changeFreq) then file.frontMatter.value.changeFreq.value else Monthly
  {
  }

  /** The present, non-empty categories of the posts, in post order. */
  function Categories(posts: seq<MdxPost>): (cs: seq<string>)
    ensures forall c :: c in cs <==> exists p :: p in posts && Truthy(p.category) && p.category.value == c
  {
    if |posts| == 0 then []
    else
      assert forall p :: p in posts <==> p == posts[0] || p in posts[1..];
      (if Truthy(posts[0].category) then [posts[0].category.value] else []) + Categories(posts[1..])
  }

  /** `getUniqueCategories(posts)`: each category once, in order of first
      appearance. */
  function UniqueCategories(posts: seq<MdxPost>): (r: seq<string>)
    ensures NoDuplicates(r)
    ensures forall c :: c in r <==> c in Categories(posts)
    ensures forall c :: c in r <==> exists p :: p in posts && Truthy(p.category) && p.category.value == c
    ensures forall c :: c in r ==> c != ""
    ensures forall i, j :: 0 <= i < j < |r| ==> IndexOf(Categories(posts), r[i]) < IndexOf(Categories(posts), r[j])
  {
    Dedup(Categories(posts))
  }

  /** Drops the whitespace at the start of `s`. */
  function SkipWhitespace(s: string): (r: string)
    ensures |r| <= |s| && r == s[|s| - |r|..]
    ensures forall i :: 0 <= i < |s| - |r| ==> IsWhitespace(s[i])
    ensures |r| > 0 ==> !IsWhitespace(r[0])
  {
    if |s| > 0 && IsWhitespace(s[0]) then SkipWhitespace(s[1..]) else s
  }

  /** `.replace(/\s+/g, '-')`: every maximal run of whitespace becomes one `-`. */
  function CollapseWhitespace(s: string): (r: string)
    decreases |s|
  {
    if |s| == 0 then []
    else if IsWhitespace(s[0]) then "-" + CollapseWhitespace(SkipWhitespace(s[1..]))
    else [s[0]] + CollapseWhitespace(s[1..])
  }

  lemma {:induction false} CollapseWhitespaceLeavesNone(s: string)
    ensures forall c :: c in CollapseWhitespace(s) ==> !IsWhitespace(c)
    ensures |CollapseWhitespace(s)| <= |s|
    decreases |s|
  {
    if |s| > 0 {
      if IsWhitespace(s[0]) {
        CollapseWhitespaceLeavesNone(SkipWhitespace(s[1..]));
      } else {
        CollapseWhitespaceLeavesNone(s[1..]);
      }
    }
  }

  /** A whitespace run followed by text that does not start with whitespace
      contributes exactly one `-`. */
  lemma CollapseWhitespaceRun(run: string, rest: string)
    requires |run| > 0 && forall i :: 0 <= i < |run| ==> IsWhitespace(run[i])
    requires |rest| > 0 ==> !IsWhitespace(rest[0])
    ensures CollapseWhitespace(run + rest) == "-" + CollapseWhitespace(rest)
  {
    SkipWhitespaceRun(run[1..], rest);
    assert (run + rest)[1..] == run[1..] + rest;
  }

  lemma {:induction false} SkipWhitespaceRun(run: string, rest: string)
    requires forall i :: 0 <= i < |run| ==> IsWhitespace(run[i])
    requires |rest| > 0 ==> !IsWhitespace(rest[0])
    ensures SkipWhitespace(run + rest) == rest
  {
    if |run| > 0 {
      assert (run + rest)[1..] == run[1..] + rest;
      SkipWhitespaceRun(run[1..], rest);
    } else {
      assert run + rest == rest;
    }
  }

  /** Text without whitespace is left as it is. */
  lemma {:induction false} CollapseWhitespaceNoRuns(s: string)
    requires forall c :: c in s ==> !IsWhitespace(c)
    ensures CollapseWhitespace(s) == s
  {
    if |s| > 0 {
      assert s[0] in s;
      CollapseWhitespaceNoRuns(s[1..]);
    }
  }

  /** Text that starts without whitespace is copied up to its first run. */
  lemma {:induction false} CollapseWhitespaceAppend(a: string, b: string)
    requires forall c :: c in a ==> !IsWhitespace(c)
    ensures CollapseWhitespace(a + b) == a + CollapseWhitespace(b)
  {
    if |a| > 0 {
      assert a[0] in a;
      assert (a + b)[1..] == a[1..] + b;
      CollapseWhitespaceAppend(a[1..], b);
    } else {
      assert a + b == b;
    }
  }

  /** The URL segment of a category page:
      `category.toLowerCase().replace(/\s+/g, '-')`. */
  function CategorySegment(category: string): (segment: string)
    ensures forall c :: c in segment ==> !IsWhitespace(c)
    ensures forall i :: 0 <= i < |segment| ==> LowerChar(segment[i]) == segment[i]
    ensures |segment| <= |category|
  {
    CollapseWhitespaceLeavesNone(Lower(category));
    CollapseWhitespaceKeepsLower(Lower(category));
    CollapseWhitespace(Lower(category))
  }

  /** Lower-casing never creates or removes whitespace. */
  lemma LowerWords(a: string)
    requires forall c :: c in a ==> !IsWhitespace(c)
    ensures forall c :: c in Lower(a) ==> !IsWhitespace(c)
  {
    forall c | c in Lower(a) ensures !IsWhitespace(c) {
      var i :| 0 <= i < |a| && Lower(a)[i] == c;
      assert a[i] in a;
    }
  }

  /** A category without whitespace only loses its capitals. */
  lemma CategorySegmentOneWord(word: string)
    requires forall c :: c in word ==> !IsWhitespace(c)
    ensures CategorySegment(word) == Lower(word)
  {
    LowerWords(word);
    CollapseWhitespaceNoRuns(Lower(word));
  }

  /** Two words separated by any run of whitespace are joined by one `-`. */
  lemma CategorySegmentTwoWords(first: string, run: string, second: string)
    requires forall c :: c in first ==> !IsWhitespace(c)
    requires |run| > 0 && forall i :: 0 <= i < |run| ==> IsWhitespace(run[i])
    requires forall c :: c in second ==> !IsWhitespace(c)
    ensures CategorySegment(first + run + second) == Lower(first) + "-" + Lower(second)
  {
    var lowerRun := Lower(run);
    assert Lower(first + run + second) == Lower(first) + (lowerRun + Lower(second));
    forall i | 0 <= i < |lowerRun| ensures IsWhitespace(lowerRun[i]) {
      assert IsWhitespace(run[i]);
    }
    LowerWords(first);
    LowerWords(second);
    CollapseWhitespaceAppend(Lower(first), lowerRun + Lower(second));
    if |Lower(second)| > 0 {
      assert Lower(second)[0] in Lower(second);
    }
    CollapseWhitespaceRun(lowerRun, Lower(second));
    CollapseWhitespaceNoRuns(Lower(second));
  }

  /** "Web  Dev" is listed under `/category/web-dev`. */
  lemma CategorySegmentExample()
    ensures CategorySegment("Web  Dev") == "web-dev"
  {
    assert "Web  Dev" == "Web" + "  " + "Dev";
    CategorySegmentTwoWords("Web", "  ", "Dev");
  }

  /** Deriving a segment twice changes nothing. */
  lemma CategorySegmentIdempotent(category: string)
    ensures CategorySegment(CategorySegment(category)) == CategorySegment(category)
  {
    var segment := CategorySegment(category);
    assert Lower(segment) == segment;
    CollapseWhitespaceNoRuns(segment);
  }

  /** Collapsing lower-case text gives lower-case text. */
  lemma CollapseWhitespaceKeepsLower(s: string)
    requires forall i :: 0 <= i < |s| ==> LowerChar(s[i]) == s[i]
    ensures var r := CollapseWhitespace(s); forall i :: 0 <= i < |r| ==> LowerChar(r[i]) == r[i]
  {
    var r := CollapseWhitespace(s);
    forall i | 0 <= i < |r| ensures LowerChar(r[i]) == r[i] {
      assert r[i] in r;
      CollapseWhitespaceLowered(s, r[i]);
    }
  }

  /** Collapsing lower-case text keeps it lower-case. */
  lemma {:induction false} CollapseWhitespaceLowered(s: string, c: char)
    requires forall i :: 0 <= i < |s| ==> LowerChar(s[i]) == s[i]
    requires c in CollapseWhitespace(s)
    ensures LowerChar(c) == c
    decreases |s|
  {
    if IsWhitespace(s[0]) {
      if c != '-' {
        var t := SkipWhitespace(s[1..]);
        assert forall i :: 0 <= i < |t| ==> t[i] == s[1..][|s[1..]| - |t| + i];
        CollapseWhitespaceLowered(t, c);
      }
    } else if c != s[0] {
      CollapseWhitespaceLowered(s[1..], c);
    }
  }

  /** One weekly entry per category, in category order. */
  function CategoryPages(base: string, categories: seq<string>): (r: seq<Entry>)
    ensures |r| == |categories|
    ensures forall c :: c in categories ==> Entry(base + "/category/" + CategorySegment(c), Weekly) in r
  {
    if |categories| == 0 then []
    else
      assert forall c :: c in categories <==> c == categories[0] || c in categories[1..];
      [Entry(base + "/category/" + CategorySegment(categories[0]), Weekly)] + CategoryPages(base, categories[1..])
  }

  /** One entry per post, at the post's slug, with its change frequency. */
  function PostPages(base: string, posts: seq<MdxPost>): (r: seq<Entry>)
    ensures |r| == |posts|
    ensures forall p :: p in posts ==> Entry(base + "/" + p.slug, ChangeFrequency(p)) in r
  {
    if |posts| == 0 then []
    else
      assert forall p :: p in posts <==> p == posts[0] || p in posts[1..];
      [Entry(base + "/" + posts[0].slug, ChangeFrequency(posts[0]))] + PostPages(base, posts[1..])
  }

  /** The sitemap's entries for pages, category pages and posts, before the
      priority sort; `baseUrl` is the configured base URL, if any. The entries
      are a permutation of the sitemap the source returns, so counts and
      membership carry over to it. */
  function Entries(baseUrl: Option<string>, blog: Option<seq<ContentFile>>,
                   guides: Option<seq<ContentFile>>, content: seq<ContentFile>): (r: seq<Entry>)
    ensures var base, posts := OrElse(baseUrl, DefaultBaseUrl), AllPosts(blog, guides, content);
      && |r| == 4 + |UniqueCategories(posts)| + |posts|
      && Entry(base, Daily) in r && Entry(base + "/blog", Daily) in r
      && Entry(base + "/about", Monthly) in r && Entry(base + "/contact", Yearly) in r
      && (forall p :: p in posts ==> Entry(base + "/" + p.slug, ChangeFrequency(p)) in r)
      && (forall c :: c in UniqueCategories(posts) ==> Entry(base + "/category/" + CategorySegment(c), Weekly) in r)
  {
    var base := OrElse(baseUrl, DefaultBaseUrl);
    var posts := AllPosts(blog, guides, content);
    [Entry(base, Daily), Entry(base + "/blog", Daily),
     Entry(base + "/about", Monthly), Entry(base + "/contact", Yearly)]
    + CategoryPages(base, UniqueCategories(posts))
    + PostPages(base, posts)
  }
}
