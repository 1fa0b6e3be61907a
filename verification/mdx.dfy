/** The post index of `lib/mdx.ts`: the directory listing of `content/posts`
    becomes a newest-first list of normalised posts, queried by slug, by tag and
    by relatedness. Reading files and parsing front matter happen before this
    model starts: each file arrives as its name, its front matter and its body. */
module Mdx {
  import opened Optional
  import opened Strings
  import opened Sequences

  const PostExtension := ".mdx"
  /** Characters of the body kept by a derived excerpt. */
  const ExcerptBudget := 200
  const ExcerptMarker := "..."
  /** How many related posts `getRelatedPosts` offers when no limit is given. */
  const RelatedLimit := 3

  /** The front-matter fields the index reads. `tags` and `excerpt` are the
      ones whose absence the index repairs. */
  datatype FrontMatter = FrontMatter(
    title: string,
    subtitle: string,
    date: string,
    image: string,
    tags: Option<seq<string>>,
    author: string,
    excerpt: Option<string>)

  /** One entry of the posts directory: file name, front matter, raw body. */
  datatype PostFile = PostFile(name: string, data: FrontMatter, content: string)

  datatype Post = Post(
    slug: string,
    title: string,
    subtitle: string,
    date: string,
    image: string,
    tags: seq<string>,
    author: string,
    readingTime: string,
    excerpt: string)

  /** A post fetched by slug, together with its compiled body. */
  datatype SerializedPost = SerializedPost(meta: Post, content: string)

  /** A directory never lists the same name twice. */
  predicate DistinctNames(files: seq<PostFile>) {
    forall i, j :: 0 <= i < j < |files| ==> files[i].name != files[j].name
  }

  predicate IsPostFile(name: string) {
    EndsWith(name, PostExtension)
  }

  /** `fileName.replace(/\.mdx$/, '')`. */
  function SlugOf(name: string): (slug: string)
    ensures IsPostFile(name) ==> slug + PostExtension == name
    ensures !IsPostFile(name) ==> slug == name
  {
    if IsPostFile(name) then name[..|name| - |PostExtension|] else name
  }

  /** The file `getPostBySlug` opens for `slug` is one whose slug is `slug`. */
  lemma SlugOfFileName(slug: string)
    ensures IsPostFile(slug + PostExtension)
    ensures SlugOf(slug + PostExtension) == slug
  {
    assert (slug + PostExtension)[..|slug|] == slug;
  }

  /** `data.tags || []`. */
  function TagsOrEmpty(tags: Option<seq<string>>): seq<string> {
    tags.GetOr([])
  }

  /** `data.excerpt || content.slice(0, 200) + '...'`: a non-empty authored
      excerpt wins; otherwise the opening of the body, marked as cut. */
  function Excerpt(authored: Option<string>, body: string): (e: string)
    ensures Truthy(authored) ==> e == authored.value
    ensures !Truthy(authored) ==>
      && 3 <= |e| <= ExcerptBudget + 3
      && EndsWith(e, ExcerptMarker)
      && e[..|e| - 3] <= body
      && (|body| <= ExcerptBudget ==> e == body + ExcerptMarker)
      && (|body| >= ExcerptBudget ==> |e| == ExcerptBudget + 3)
  {
    if Truthy(authored) then authored.value
    else
      var e := Take(body, ExcerptBudget) + ExcerptMarker;
      assert e[..|e| - 3] == Take(body, ExcerptBudget);
      e
  }

  /** The record both `getAllPosts` and `getPostBySlug` build from a slug, the
      front matter and the body. */
  function MakePost(slug: string, data: FrontMatter, body: string, readingTime: string -> string): Post {
    Post(slug, data.title, data.subtitle, data.date, data.image, TagsOrEmpty(data.tags),
         data.author, readingTime(body), Excerpt(data.excerpt, body))
  }

  /** The normalised post of one file, as `getAllPosts` builds it. */
  function Normalise(f: PostFile, readingTime: string -> string): (p: Post)
    requires IsPostFile(f.name)
    ensures p.slug + PostExtension == f.name
    ensures p.title == f.data.title && p.subtitle == f.data.subtitle && p.date == f.data.date
    ensures p.image == f.data.image && p.author == f.data.author
    ensures f.data.tags.None? ==> p.tags == []
    ensures f.data.tags.Some? ==> p.tags == f.data.tags.value
    ensures p.readingTime == readingTime(f.content)
    ensures p.excerpt == Excerpt(f.data.excerpt, f.content)
  {
    MakePost(SlugOf(f.name), f.data, f.content, readingTime)
  }

  /** The `.mdx` files of the listing, normalised, in directory order. */
  function Index(files: seq<PostFile>, readingTime: string -> string): (ps: seq<Post>)
    ensures |ps| <= |files|
  {
    if |files| == 0 then []
    else if IsPostFile(files[0].name) then [Normalise(files[0], readingTime)] + Index(files[1..], readingTime)
    else Index(files[1..], readingTime)
  }

  /** Whether a directory entry is a post (`fileName.endsWith('.mdx')`). */
  predicate HasPostName(f: PostFile) {
    IsPostFile(f.name)
  }

  /** The index has one post per `.mdx` entry of the directory. */
  lemma {:induction false} IndexCount(files: seq<PostFile>, readingTime: string -> string)
    ensures |Index(files, readingTime)| == |Filter(files, HasPostName)|
  {
    if |files| > 0 {
      IndexCount(files[1..], readingTime);
    }
  }

  /** The index holds the normalised form of every `.mdx` file and nothing else. */
  lemma {:induction false} IndexMembers(files: seq<PostFile>, readingTime: string -> string, p: Post)
    ensures p in Index(files, readingTime) <==>
      exists f :: f in files && IsPostFile(f.name) && p == Normalise(f, readingTime)
  {
    if |files| > 0 {
      IndexMembers(files[1..], readingTime, p);
      assert forall f :: f in files <==> f == files[0] || f in files[1..];
    }
  }

  /** Distinct file names give distinct slugs, hence distinct posts. */
  lemma {:induction false} IndexNoDuplicates(files: seq<PostFile>, readingTime: string -> string)
    requires DistinctNames(files)
    ensures NoDuplicates(Index(files, readingTime))
  {
    if |files| > 0 {
      var rest := Index(files[1..], readingTime);
      assert DistinctNames(files[1..]);
      IndexNoDuplicates(files[1..], readingTime);
      if IsPostFile(files[0].name) {
        IndexMembers(files[1..], readingTime, Normalise(files[0], readingTime));
      }
    }
  }

  /** Newest first: no post is followed by one with a later `date`. */
  predicate NewestFirst(ps: seq<Post>) {
    forall i, j :: 0 <= i < j < |ps| ==> !Less(ps[i].date, ps[j].date)
  }

  /** Places `p` before the first post it is not older than. */
  function InsertByDate(p: Post, ps: seq<Post>): (r: seq<Post>)
    ensures multiset(r) == multiset(ps) + multiset{p}
  {
    if |ps| == 0 then [p]
    else if !Less(p.date, ps[0].date) then [p] + ps
    else
      assert ps == [ps[0]] + ps[1..];
      [ps[0]] + InsertByDate(p, ps[1..])
  }

  lemma InsertByDateMembers(p: Post, ps: seq<Post>, x: Post)
    ensures x in InsertByDate(p, ps) <==> x == p || x in ps
  {
    assert x in InsertByDate(p, ps) <==> x in multiset(InsertByDate(p, ps));
  }

  /** Inserting into a newest-first list keeps it newest-first. */
  lemma {:induction false} InsertByDateSorted(p: Post, ps: seq<Post>)
    requires NewestFirst(ps)
    ensures NewestFirst(InsertByDate(p, ps))
  {
    if |ps| == 0 {
    } else if !Less(p.date, ps[0].date) {
      forall j | 0 <= j < |ps| ensures !Less(p.date, ps[j].date) {
        if j > 0 {
          NotLessTransitive(p.date, ps[0].date, ps[j].date);
        }
      }
    } else {
      var rest := InsertByDate(p, ps[1..]);
      InsertByDateSorted(p, ps[1..]);
      LessAsymmetric(p.date, ps[0].date);
      forall j | 0 <= j < |rest| ensures !Less(ps[0].date, rest[j].date) {
        InsertByDateMembers(p, ps[1..], rest[j]);
        if rest[j] != p {
          var k :| 0 <= k < |ps[1..]| && ps[1..][k] == rest[j];
          assert ps[k + 1] == rest[j];
        }
      }
    }
  }

  lemma {:induction false} InsertByDateNoDuplicates(p: Post, ps: seq<Post>)
    requires NoDuplicates(ps) && p !in ps
    ensures NoDuplicates(InsertByDate(p, ps))
  {
    if |ps| > 0 && Less(p.date, ps[0].date) {
      var rest := InsertByDate(p, ps[1..]);
      InsertByDateNoDuplicates(p, ps[1..]);
      InsertByDateMembers(p, ps[1..], ps[0]);
      assert ps[0] !in rest;
    }
  }

  /** `sort((a, b) => (a.date < b.date ? 1 : -1))`, as an insertion sort. The
      comparator never answers "equal", so nothing is promised about the order
      of posts that share a date. */
  function SortByDate(ps: seq<Post>): (r: seq<Post>)
    ensures multiset(r) == multiset(ps)
    ensures NewestFirst(r)
    ensures NoDuplicates(ps) ==> NoDuplicates(r)
  {
    if |ps| == 0 then []
    else
      assert ps == [ps[0]] + ps[1..];
      var sorted := SortByDate(ps[1..]);
      InsertByDateSorted(ps[0], sorted);
      assert ps[0] in sorted <==> ps[0] in multiset(ps[1..]);
      if NoDuplicates(ps) then
        InsertByDateNoDuplicates(ps[0], sorted);
        InsertByDate(ps[0], sorted)
      else
        InsertByDate(ps[0], sorted)
  }

  /** `getAllPosts()`. */
  function AllPosts(files: seq<PostFile>, readingTime: string -> string): (ps: seq<Post>)
    ensures multiset(ps) == multiset(Index(files, readingTime))
    ensures NewestFirst(ps)
    ensures DistinctNames(files) ==> NoDuplicates(ps)
  {
    if DistinctNames(files) then
      IndexNoDuplicates(files, readingTime);
      SortByDate(Index(files, readingTime))
    else
      SortByDate(Index(files, readingTime))
  }

  /** Exactly the normalised `.mdx` files are listed. */
  lemma AllPostsMembers(files: seq<PostFile>, readingTime: string -> string, p: Post)
    ensures p in AllPosts(files, readingTime) <==>
      exists f :: f in files && IsPostFile(f.name) && p == Normalise(f, readingTime)
  {
    var ps := AllPosts(files, readingTime);
    assert p in ps <==> p in multiset(ps);
    assert p in Index(files, readingTime) <==> p in multiset(Index(files, readingTime));
    IndexMembers(files, readingTime, p);
  }

  /** The first file of the listing named `name`. */
  function FindFile(files: seq<PostFile>, name: string): (r: Option<PostFile>)
    ensures r.Some? ==> r.value in files && r.value.name == name
    ensures r.None? ==> forall f :: f in files ==> f.name != name
  {
    if |files| == 0 then None
    else if files[0].name == name then Some(files[0])
    else FindFile(files[1..], name)
  }

  /** `getPostBySlug(slug)`: reads `<slug>.mdx`; `None` when there is no such
      file. The compiled body comes from `serialize`. */
  function PostBySlug(files: seq<PostFile>, readingTime: string -> string, serialize: string -> string,
                      slug: string): (r: Option<SerializedPost>)
    ensures r.Some? <==> exists f :: f in files && f.name == slug + PostExtension
    ensures r.Some? ==> r.value.meta.slug == slug
    ensures r.Some? ==> r.value.meta in AllPosts(files, readingTime)
    ensures r.Some? ==> exists f :: f in files && f.name == slug + PostExtension && r.value.content == serialize(f.content)
  {
    match FindFile(files, slug + PostExtension)
    case None => None
    case Some(f) =>
      SlugOfFileName(slug);
      AllPostsMembers(files, readingTime, MakePost(slug, f.data, f.content, readingTime));
      Some(SerializedPost(MakePost(slug, f.data, f.content, readingTime), serialize(f.content)))
  }

  /** Every listed post can be fetched by its slug, and the fetched metadata is
      the listed post. */
  lemma PostBySlugAgreesWithListing(files: seq<PostFile>, readingTime: string -> string,
                                    serialize: string -> string, p: Post)
    requires DistinctNames(files)
    requires p in AllPosts(files, readingTime)
    ensures PostBySlug(files, readingTime, serialize, p.slug).Some?
    ensures PostBySlug(files, readingTime, serialize, p.slug).value.meta == p
  {
    AllPostsMembers(files, readingTime, p);
    var f :| f in files && IsPostFile(f.name) && p == Normalise(f, readingTime);
    var g := FindFile(files, p.slug + PostExtension).value;
    var i :| 0 <= i < |files| && files[i] == f;
    var j :| 0 <= j < |files| && files[j] == g;
    assert i == j;
  }

  /** `post.tags.map((t) => t.toLowerCase()).includes(tag.toLowerCase())`. */
  predicate HasTagIgnoringCase(p: Post, tag: string) {
    Lower(tag) in seq(|p.tags|, i requires 0 <= i < |p.tags| => Lower(p.tags[i]))
  }

  lemma HasTagIgnoringCaseMeans(p: Post, tag: string)
    ensures HasTagIgnoringCase(p, tag) <==> exists t :: t in p.tags && Lower(t) == Lower(tag)
  {
    var lowered := seq(|p.tags|, i requires 0 <= i < |p.tags| => Lower(p.tags[i]));
    if HasTagIgnoringCase(p, tag) {
      var i :| 0 <= i < |lowered| && lowered[i] == Lower(tag);
      assert p.tags[i] in p.tags;
    }
    if t :| t in p.tags && Lower(t) == Lower(tag) {
      var i :| 0 <= i < |p.tags| && p.tags[i] == t;
      assert lowered[i] == Lower(tag);
    }
  }

  /** The selectors the queries hand to `filter`. */
  function TaggedIgnoringCase(tag: string): Post -> bool {
    (p: Post) => HasTagIgnoringCase(p, tag)
  }

  function SlugIs(slug: string): Post -> bool {
    (p: Post) => p.slug == slug
  }

  function SlugIsNot(slug: string): Post -> bool {
    (p: Post) => p.slug != slug
  }

  function SharingTag(tags: seq<string>): Post -> bool {
    (p: Post) => SharesTag(p, tags)
  }

  function NotSharingTag(tags: seq<string>): Post -> bool {
    (p: Post) => !SharesTag(p, tags)
  }

  function NotIn(chosen: seq<Post>): Post -> bool {
    (p: Post) => p !in chosen
  }

  /** `getPostsByTag(tag)`: the listing's posts carrying `tag` up to case, in
      listing order, none left out. */
  function PostsByTag(files: seq<PostFile>, readingTime: string -> string, tag: string): (r: seq<Post>)
    ensures IsSubsequence(r, AllPosts(files, readingTime))
    ensures forall p :: p in r <==>
      p in AllPosts(files, readingTime) && exists t :: t in p.tags && Lower(t) == Lower(tag)
    ensures forall p :: multiset(r)[p] ==
             if HasTagIgnoringCase(p, tag) then multiset(AllPosts(files, readingTime))[p] else 0
  {
    var r := Filter(AllPosts(files, readingTime), TaggedIgnoringCase(tag));
    FilterIsSubsequence(AllPosts(files, readingTime), TaggedIgnoringCase(tag));
    FilterMultiplicity(AllPosts(files, readingTime), TaggedIgnoringCase(tag));
    assert forall p :: HasTagIgnoringCase(p, tag) <==> exists t :: t in p.tags && Lower(t) == Lower(tag) by {
      forall p ensures HasTagIgnoringCase(p, tag) <==> exists t :: t in p.tags && Lower(t) == Lower(tag) {
        HasTagIgnoringCaseMeans(p, tag);
      }
    }
    r
  }

  /** `posts.flatMap((post) => post.tags)`. */
  function TagsOf(ps: seq<Post>): (ts: seq<string>)
    ensures forall t :: t in ts <==> exists p :: p in ps && t in p.tags
  {
    if |ps| == 0 then []
    else
      var rest := TagsOf(ps[1..]);
      assert forall p :: p in ps <==> p == ps[0] || p in ps[1..];
      ps[0].tags + rest
  }

  /** `getAllTags()`: every tag of every listed post, once each, in order of
      first appearance along the listing. */
  function AllTags(files: seq<PostFile>, readingTime: string -> string): (r: seq<string>)
    ensures NoDuplicates(r)
    ensures forall t :: t in r <==> t in TagsOf(AllPosts(files, readingTime))
    ensures forall t :: t in r <==>
      exists f :: f in files && IsPostFile(f.name) && t in TagsOrEmpty(f.data.tags)
    ensures forall i, j :: 0 <= i < j < |r| ==>
      IndexOf(TagsOf(AllPosts(files, readingTime)), r[i]) < IndexOf(TagsOf(AllPosts(files, readingTime)), r[j])
  {
    var ps := AllPosts(files, readingTime);
    var r := Dedup(TagsOf(ps));
    assert forall t :: t in r <==> exists f :: f in files && IsPostFile(f.name) && t in TagsOrEmpty(f.data.tags) by {
      forall t ensures t in r <==> exists f :: f in files && IsPostFile(f.name) && t in TagsOrEmpty(f.data.tags) {
        if t in r {
          var p :| p in ps && t in p.tags;
          AllPostsMembers(files, readingTime, p);
        }
        if f :| f in files && IsPostFile(f.name) && t in TagsOrEmpty(f.data.tags) {
          AllPostsMembers(files, readingTime, Normalise(f, readingTime));
          assert Normalise(f, readingTime) in ps;
        }
      }
    }
    r
  }

  /** `post.tags.some((tag) => tags.includes(tag))`: case-sensitive. */
  predicate SharesTag(p: Post, tags: seq<string>) {
    exists t :: t in p.tags && t in tags
  }

  /** Listed posts with slug `current`. */
  function WithSlug(ps: seq<Post>, current: string): (r: seq<Post>)
    ensures forall p :: p in r <==> p in ps && p.slug == current
    ensures NoDuplicates(ps) ==> NoDuplicates(r)
  {
    if NoDuplicates(ps) then FilterNoDuplicates(ps, SlugIs(current)); Filter(ps, SlugIs(current))
    else Filter(ps, SlugIs(current))
  }

  /** Listed posts other than the one with slug `current`. */
  function Others(ps: seq<Post>, current: string): (r: seq<Post>)
    ensures IsSubsequence(r, ps)
    ensures forall p :: p in r <==> p in ps && p.slug != current
    ensures NoDuplicates(ps) ==> NoDuplicates(r)
    ensures |r| + |WithSlug(ps, current)| == |ps|
  {
    FilterPartitionLength(ps, SlugIsNot(current), SlugIs(current));
    FilterIsSubsequence(ps, SlugIsNot(current));
    if NoDuplicates(ps) then FilterNoDuplicates(ps, SlugIsNot(current)); Filter(ps, SlugIsNot(current))
    else Filter(ps, SlugIsNot(current))
  }

  /** In a directory, no two listed posts share a slug. */
  lemma SlugsIdentifyPosts(files: seq<PostFile>, readingTime: string -> string, p: Post, q: Post)
    requires DistinctNames(files)
    requires p in AllPosts(files, readingTime) && q in AllPosts(files, readingTime)
    requires p.slug == q.slug
    ensures p == q
  {
    AllPostsMembers(files, readingTime, p);
    AllPostsMembers(files, readingTime, q);
    var f :| f in files && IsPostFile(f.name) && p == Normalise(f, readingTime);
    var g :| g in files && IsPostFile(g.name) && q == Normalise(g, readingTime);
    var i :| 0 <= i < |files| && files[i] == f;
    var j :| 0 <= j < |files| && files[j] == g;
    assert f.name == g.name;
    assert i == j;
  }

  /** Excluding the current post removes at most one post from the listing. */
  lemma OthersMissAtMostOne(files: seq<PostFile>, readingTime: string -> string, current: string)
    requires DistinctNames(files)
    ensures |Others(AllPosts(files, readingTime), current)| + 1 >= |AllPosts(files, readingTime)|
  {
    var all := AllPosts(files, readingTime);
    var same := WithSlug(all, current);
    if |same| >= 2 {
      assert same[0] in same && same[1] in same;
      SlugsIdentifyPosts(files, readingTime, same[0], same[1]);
      assert false;
    }
  }

  function Matching(ps: seq<Post>, tags: seq<string>): (r: seq<Post>)
    ensures IsSubsequence(r, ps)
    ensures forall p :: p in r <==> p in ps && SharesTag(p, tags)
    ensures NoDuplicates(ps) ==> NoDuplicates(r)
  {
    FilterIsSubsequence(ps, SharingTag(tags));
    if NoDuplicates(ps) then FilterNoDuplicates(ps, SharingTag(tags)); Filter(ps, SharingTag(tags))
    else Filter(ps, SharingTag(tags))
  }

  function NotMatching(ps: seq<Post>, tags: seq<string>): (r: seq<Post>)
    ensures IsSubsequence(r, ps)
    ensures forall p :: p in r <==> p in ps && !SharesTag(p, tags)
    ensures |Matching(ps, tags)| + |r| == |ps|
  {
    FilterPartitionLength(ps, SharingTag(tags), NotSharingTag(tags));
    FilterIsSubsequence(ps, NotSharingTag(tags));
    Filter(ps, NotSharingTag(tags))
  }

  /** `.filter((post) => !relatedPosts.includes(post))`. */
  function NotAmong(ps: seq<Post>, chosen: seq<Post>): (r: seq<Post>)
    ensures forall p :: p in r <==> p in ps && p !in chosen
    ensures NoDuplicates(ps) ==> NoDuplicates(r)
  {
    if NoDuplicates(ps) then FilterNoDuplicates(ps, NotIn(chosen)); Filter(ps, NotIn(chosen))
    else Filter(ps, NotIn(chosen))
  }

  /** `getRelatedPosts(currentSlug, tags, limit)`. */
  function RelatedPosts(files: seq<PostFile>, readingTime: string -> string,
                        current: string, tags: seq<string>, limit: int): seq<Post>
  {
    var others := Others(AllPosts(files, readingTime), current);
    var related := Take(Matching(others, tags), limit);
    if |related| < limit then
      related + Take(NotAmong(others, related), limit - |related|)
    else
      related
  }

  /** For a non-negative limit the related posts are the first `limit` of the
      other posts, tag matches moved ahead of the rest, each group in listing
      order. */
  lemma RelatedPostsArePartitionPrefix(files: seq<PostFile>, readingTime: string -> string,
                                       current: string, tags: seq<string>, limit: int)
    requires 0 <= limit
    ensures var others := Others(AllPosts(files, readingTime), current);
      RelatedPosts(files, readingTime, current, tags, limit) ==
      Take(Matching(others, tags) + NotMatching(others, tags), limit)
  {
    var others := Others(AllPosts(files, readingTime), current);
    var matching := Matching(others, tags);
    var related := Take(matching, limit);
    if |related| < limit {
      assert related == matching;
      FilterAgree(others, NotIn(related), NotSharingTag(tags));
      assert NotAmong(others, related) == NotMatching(others, tags);
      TakeAppend(matching, NotMatching(others, tags), limit);
    } else {
      assert related == Take(matching + NotMatching(others, tags), limit);
    }
  }

  /** The current post is never offered, and every offered post is listed. */
  lemma RelatedPostsExcludeCurrent(files: seq<PostFile>, readingTime: string -> string,
                                   current: string, tags: seq<string>, limit: int)
    requires 0 <= limit
    ensures forall p :: p in RelatedPosts(files, readingTime, current, tags, limit) ==>
      p in AllPosts(files, readingTime) && p.slug != current
  {
    var others := Others(AllPosts(files, readingTime), current);
    RelatedPostsArePartitionPrefix(files, readingTime, current, tags, limit);
    assert RelatedPosts(files, readingTime, current, tags, limit) <= Matching(others, tags) + NotMatching(others, tags);
  }

  /** The list is as long as the limit and the other posts allow. */
  lemma RelatedPostsLength(files: seq<PostFile>, readingTime: string -> string,
                           current: string, tags: seq<string>, limit: int)
    requires 0 <= limit
    ensures var others := Others(AllPosts(files, readingTime), current);
      |RelatedPosts(files, readingTime, current, tags, limit)| == if limit < |others| then limit else |others|
  {
    RelatedPostsArePartitionPrefix(files, readingTime, current, tags, limit);
  }

  /** Tag matches come first: a position holds a matching post exactly when it
      lies within the matches. */
  lemma RelatedPostsMatchesFirst(files: seq<PostFile>, readingTime: string -> string,
                                 current: string, tags: seq<string>, limit: int)
    requires 0 <= limit
    ensures var r := RelatedPosts(files, readingTime, current, tags, limit);
      var others := Others(AllPosts(files, readingTime), current);
      forall i :: 0 <= i < |r| ==> (SharesTag(r[i], tags) <==> i < |Matching(others, tags)|)
  {
    var r := RelatedPosts(files, readingTime, current, tags, limit);
    var others := Others(AllPosts(files, readingTime), current);
    var matching, rest := Matching(others, tags), NotMatching(others, tags);
    RelatedPostsArePartitionPrefix(files, readingTime, current, tags, limit);
    assert r <= matching + rest;
    forall i | 0 <= i < |r| ensures SharesTag(r[i], tags) <==> i < |matching| {
      if i < |matching| {
        assert r[i] == matching[i] && matching[i] in matching;
      } else {
        assert r[i] == rest[i - |matching|] && rest[i - |matching|] in rest;
      }
    }
  }

  /** No post is offered twice, even one that both matches and would be backfill. */
  lemma RelatedPostsNoDuplicates(files: seq<PostFile>, readingTime: string -> string,
                                 current: string, tags: seq<string>, limit: int)
    requires DistinctNames(files)
    ensures NoDuplicates(RelatedPosts(files, readingTime, current, tags, limit))
  {
    var others := Others(AllPosts(files, readingTime), current);
    var matching := Matching(others, tags);
    var related := Take(matching, limit);
    NoDuplicatesTake(matching, limit);
    if |related| < limit {
      var backfill := Take(NotAmong(others, related), limit - |related|);
      NoDuplicatesTake(NotAmong(others, related), limit - |related|);
      forall x | x in backfill ensures x !in related {
        assert x in NotAmong(others, related);
      }
      NoDuplicatesAppend(related, backfill);
    }
  }

  /** With more posts listed than the limit, the limit is always reached. */
  lemma RelatedPostsFillLimit(files: seq<PostFile>, readingTime: string -> string,
                              current: string, tags: seq<string>, limit: int)
    requires DistinctNames(files)
    requires 0 <= limit < |AllPosts(files, readingTime)|
    ensures |RelatedPosts(files, readingTime, current, tags, limit)| == limit
  {
    OthersMissAtMostOne(files, readingTime, current);
    RelatedPostsLength(files, readingTime, current, tags, limit);
  }

  /** The call without a limit: at most three related posts, and exactly three
      once more than three posts are listed. */
  lemma RelatedPostsDefaultLimit(files: seq<PostFile>, readingTime: string -> string,
                                 current: string, tags: seq<string>)
    ensures |RelatedPosts(files, readingTime, current, tags, RelatedLimit)| <= RelatedLimit
    ensures DistinctNames(files) && RelatedLimit < |AllPosts(files, readingTime)| ==>
      |RelatedPosts(files, readingTime, current, tags, RelatedLimit)| == RelatedLimit
  {
    RelatedPostsLength(files, readingTime, current, tags, RelatedLimit);
    if DistinctNames(files) && RelatedLimit < |AllPosts(files, readingTime)| {
      RelatedPostsFillLimit(files, readingTime, current, tags, RelatedLimit);
    }
  }
}
