# Content index and sitemap derivation of a Next.js MDX blog

This project models, in Dafny, the two pieces of the blog that carry logic of
their own:

- the **post index** of `lib/mdx.ts`: it turns the listing of the posts
  directory into normalised `Post` records (slug from the file name, tags
  defaulting to none, an excerpt derived from the body when the author gave
  none), lists them newest first, and answers lookups by slug, by tag
  (ignoring case), the set of all tags, and "related posts" (tag matches
  first, then the newest others as backfill);
- the **content derivation of the sitemap** in `app/sitemap.tsx`: which files
  count as content, how a slug is derived from a file's relative path, the
  front-matter fallback chains, the `Untitled` draft filter, the order in
  which the blog, guide and flat scans are gathered, the change-frequency
  classifier, the de-duplicated category list and the category URL segment.

Reading directories and files, parsing front matter, the `reading-time`
package and MDX compilation are outside the model: a directory arrives as a
sequence of records (file name or relative path, parsed front matter, body or
file times), and `readingTime` and `serialize` are function parameters the
model never looks inside. Case-folding is ASCII-only (`Strings.Lower`).

Modules:

| file | module | contents |
|---|---|---|
| optional.dfy | `Optional` | `Option`, for front-matter fields that may be absent |
| strings.dfy | `Strings` | `endsWith`, `includes`, the string `<`, ASCII `toLowerCase`, `\s`, `||` on optional strings |
| sequences.dfy | `Sequences` | `filter`, `slice(0, k)`, `[...new Set(xs)]`, subsequence and first-occurrence order |
| mdx.dfy | `Mdx` | the post index of `lib/mdx.ts` |
| mdx_example.dfy | `MdxExample` | three posts a month apart, listed, filtered and related |
| sitemap.dfy | `Sitemap` | the content rules of `app/sitemap.tsx` |

## Model

| member | source | states |
|---|---|---|
| Strings.LessTotal | lib/mdx.ts:51 | two different dates are always ordered one way or the other by the string `<` the sort comparator uses |
| Strings.NotLessTransitive | lib/mdx.ts:51 | "not earlier than" is transitive, so a list ordered between neighbours is ordered pairwise |
| Sequences.FilterIsSubsequence | lib/mdx.ts:82 | `filter` keeps the kept elements in their original relative order |
| Sequences.FilterMultiplicity | lib/mdx.ts:82 | `filter` keeps each satisfying element exactly as often as it occurs and drops every other |
| Sequences.Dedup | lib/mdx.ts:90 | `[...new Set(xs)]` has no duplicates, the same elements as `xs`, and lists them in order of first occurrence |
| Sequences.Take | lib/mdx.ts:99 | `slice(0, k)` is a prefix of length `min(k, n)`, and for negative `k` drops `-k` elements from the end |
| Mdx.SlugOf | lib/mdx.ts:32 | for a `.mdx` name, slug followed by `.mdx` is the name again |
| Mdx.SlugOfFileName | lib/mdx.ts:56 | the file `getPostBySlug` opens for a slug is a post file whose slug is that slug |
| Mdx.Excerpt | lib/mdx.ts:47 | a non-empty authored excerpt is kept; otherwise the excerpt is a prefix of the body of at most 200 characters followed by `...`, the whole body when it is short and exactly 203 characters when it is long |
| Mdx.Normalise | lib/mdx.ts:38-48 | slug plus `.mdx` is the file name; title, subtitle, date, image and author are copied from the front matter; absent tags become the empty list and present ones are kept; reading time and excerpt are derived from the body |
| Mdx.IndexMembers | lib/mdx.ts:29-49 | the normalised listing holds the post of every `.mdx` file and nothing else |
| Mdx.IndexNoDuplicates | lib/mdx.ts:29-32 | distinct file names give distinct posts |
| Mdx.IndexCount | lib/mdx.ts:29-32 | the listing has exactly one post per `.mdx` entry of the directory |
| Mdx.InsertByDateSorted | lib/mdx.ts:51 | inserting a post into a newest-first list keeps it newest-first |
| Mdx.SortByDate | lib/mdx.ts:51 | the sort is a permutation of its input, newest first, and keeps a duplicate-free input duplicate-free |
| Mdx.AllPosts | lib/mdx.ts:26-52 | `getAllPosts` is a permutation of the normalised `.mdx` files with non-increasing dates |
| Mdx.AllPostsMembers | lib/mdx.ts:29-51 | a post is listed exactly when it is the normalised form of some `.mdx` file |
| Mdx.PostBySlug | lib/mdx.ts:54-78 | a post is found exactly when `<slug>.mdx` exists; the found post has the requested slug, is one of the listed posts, and its compiled body is `serialize` of that file's body |
| Mdx.PostBySlugAgreesWithListing | lib/mdx.ts:54-74 | every listed post is found by its slug, with the same metadata the listing derived |
| Mdx.HasTagIgnoringCaseMeans | lib/mdx.ts:83 | the lower-cased `includes` test holds exactly when some tag equals the argument up to case |
| Mdx.PostsByTag | lib/mdx.ts:80-85 | the result is the order-preserving subsequence of the listing of exactly the posts with a tag equal to the argument up to case, each kept as often as listed |
| Mdx.TagsOf | lib/mdx.ts:89 | the flattened tags are exactly the tags of some post |
| Mdx.AllTags | lib/mdx.ts:87-91 | all tags: no duplicates, exactly the tags of the `.mdx` files, in order of first appearance along the listing |
| Mdx.Others | lib/mdx.ts:97 | the candidates are the listed posts whose slug is not the current one, in order; together with the posts that have that slug they account for the whole listing |
| Mdx.Matching | lib/mdx.ts:98 | the tag-matching candidates, in order, are exactly those sharing a tag with the given list |
| Mdx.RelatedPostsArePartitionPrefix | lib/mdx.ts:93-111 | for a non-negative limit, the related posts are the first `limit` of the candidates with the tag matches moved ahead of the rest, each group in listing order |
| Mdx.RelatedPostsExcludeCurrent | lib/mdx.ts:96-107 | no related post has the current slug, and every related post is listed |
| Mdx.RelatedPostsLength | lib/mdx.ts:99-107 | there are `min(limit, number of other posts)` related posts |
| Mdx.RelatedPostsMatchesFirst | lib/mdx.ts:98-107 | a position holds a tag match exactly when it comes before the number of matches |
| Mdx.RelatedPostsNoDuplicates | lib/mdx.ts:102-107 | no post is offered twice, including a match that would also qualify as backfill |
| Mdx.SlugsIdentifyPosts | lib/mdx.ts:30-32 | two listed posts with the same slug are the same post |
| Mdx.OthersMissAtMostOne | lib/mdx.ts:97 | excluding the current slug removes at most one listed post |
| Mdx.RelatedPostsFillLimit | lib/mdx.ts:93-111 | with more listed posts than the limit, exactly `limit` related posts are returned |
| Mdx.RelatedPostsDefaultLimit | lib/mdx.ts:93 | called without a limit, at most three related posts are offered, and exactly three once more than three posts are listed |
| MdxExample.ExampleListing | lib/mdx.ts:51 | posts dated 2024-01, -02 and -03 are listed newest first |
| MdxExample.ExampleByTag | lib/mdx.ts:80-85 | filtering that listing by `Y` gives the two posts tagged `y`, newest first |
| MdxExample.ExampleRelated | lib/mdx.ts:93-111 | the posts related to the newest one by tag `y` are the tag match, then the remaining post as backfill |
| Sitemap.ContentExtension | app/sitemap.tsx:54 | the suffix the extension pattern removes is `.mdx`, `.md` or nothing, ends the path, and is non-empty exactly for content files |
| Sitemap.ForwardSlashes | app/sitemap.tsx:55 | every `\` becomes `/`, every other character is kept in place, and no backslash is left |
| Sitemap.SlugOf | app/sitemap.tsx:52-55 | the slug has no backslash, and slug plus the removed extension is the path with `/` separators |
| Sitemap.SlugShortensExactlyContentFiles | app/sitemap.tsx:38 | a path loses characters to slug derivation exactly when `getAllMDXFiles` counts it as content |
| Sitemap.CategoryOf | app/sitemap.tsx:65 | the category is never empty: the front-matter category when present, otherwise the first tag or the content type |
| Sitemap.ParseFile | app/sitemap.tsx:46-74 | a post is parsed exactly when the file could be read; its slug is derived from its path, and title, category and change frequency are always present |
| Sitemap.ParseFileFallbacks | app/sitemap.tsx:60-69 | the fallback chains of title, featured, change frequency, category, date and last modification, field by field |
| Sitemap.ContentFiles | app/sitemap.tsx:32-41 | the files kept by the walk are exactly the `.md`/`.mdx` ones, in walk order |
| Sitemap.CollectMembers | app/sitemap.tsx:145-148 | a directory yields the post of every readable file and nothing else |
| Sitemap.Published | app/sitemap.tsx:170-174 | the draft filter drops exactly the posts titled `Untitled`, keeps the others as often as they occur, and keeps their order |
| Sitemap.BlogBeforeGuides | app/sitemap.tsx:142-158 | when either subdirectory exists, the published blog posts come before the published guide posts and the flat scan is not used |
| Sitemap.FlatScanOnlyWithoutSubdirectories | app/sitemap.tsx:160-167 | with neither subdirectory, the posts are exactly the published posts of the content files of the whole directory |
| Sitemap.PublishedTitle | app/sitemap.tsx:62 | a parsed post survives the draft filter exactly when its front matter has a non-empty title other than `Untitled` |
| Sitemap.ChangeFrequency | app/sitemap.tsx:113-137 | an explicit frequency is returned unchanged; otherwise `weekly` exactly when the lower-cased category mentions `news` or `update`, else `monthly` |
| Sitemap.ParsedChangeFrequency | app/sitemap.tsx:68 | for every parsed post the reported frequency is its front matter's `changeFreq`, or `monthly` when that is absent |
| Sitemap.Categories | app/sitemap.tsx:180-184 | the collected categories are exactly the present, non-empty ones |
| Sitemap.UniqueCategories | app/sitemap.tsx:177-187 | no duplicates, exactly the non-empty categories of the posts, in order of first appearance |
| Sitemap.CollapseWhitespaceLeavesNone | app/sitemap.tsx:228 | after replacing whitespace runs no whitespace is left and the text is no longer |
| Sitemap.CollapseWhitespaceRun | app/sitemap.tsx:228 | a whole run of whitespace becomes a single `-` |
| Sitemap.CollapseWhitespaceAppend | app/sitemap.tsx:228 | characters before the first whitespace are copied unchanged; with the run and no-runs lemmas this fixes the replacement on every text |
| Sitemap.CollapseWhitespaceNoRuns | app/sitemap.tsx:228 | text without whitespace is unchanged |
| Sitemap.CategorySegment | app/sitemap.tsx:228 | the category URL segment is lower-case, contains no whitespace and is no longer than the category |
| Sitemap.CategorySegmentOneWord | app/sitemap.tsx:228 | a category without whitespace becomes its lower-cased self |
| Sitemap.CategorySegmentTwoWords | app/sitemap.tsx:228 | two words separated by any whitespace run become the lower-cased words joined by one `-` |
| Sitemap.CategorySegmentExample | app/sitemap.tsx:228 | the category "Web  Dev" has the segment `web-dev` |
| Sitemap.CategorySegmentIdempotent | app/sitemap.tsx:228 | deriving the segment of a segment changes nothing |
| Sitemap.CategoryPages | app/sitemap.tsx:227-232 | one weekly page per category, at its segment |
| Sitemap.PostPages | app/sitemap.tsx:235-240 | one page per post, at its slug, with its change frequency |
| Sitemap.Entries | app/sitemap.tsx:189-247 | the home and `/blog` pages (daily), `/about` (monthly) and `/contact` (yearly), then one page per category and one per published post, each post page with the post's change frequency |

Facts about the code that the model states as they are:

- the tag list of `getAllTags` keeps the order in which tags first occur,
  because it is built from a JavaScript `Set`, which keeps insertion order;
- the listing promises nothing about the order of posts with equal dates,
  because the sort comparator (`lib/mdx.ts:51`) never returns 0;
- `getAllPosts` of `lib/mdx.ts` has no `catch`, so it does not skip
  unreadable files; only the sitemap's `parseMDXFile` skips them, modelled as
  `Sitemap.Collect`;
- `getRelatedPosts` excludes the current post by comparing slugs.

## Left out

- File system access (`readdirSync`, `readFileSync`, `statSync`, `existsSync`) and the recursive directory walk of `getAllMDXFiles`: a directory is given as the sequence of its (already walked) files, and a missing subdirectory as `None`. The extension test is applied to the relative path, which ends with the file name the source tests.
- `path.join` and `path.relative`: paths arrive relative to the content directory; `getPostBySlug` is modelled as a lookup of the name `<slug>.mdx` in the listing, so slugs containing `..` or `/` are not resolved as paths.
- Front-matter parsing (`gray-matter`): its result is an input. For `lib/mdx.ts`, `title`, `subtitle`, `date`, `image` and `author` are modelled as strings that are always present, and only `tags` and `excerpt` may be absent; a missing mandatory field (which the source copies as `undefined`) is not modelled, and for the sitemap every field is optional; YAML values of other types, such as the `Date` objects produced for unquoted timestamps, a string-valued `tags`, or non-string tags that make `toLowerCase` throw, are not modelled. Dates are compared as strings.
- Mdx.AllPosts: a file that cannot be read makes the source's `getAllPosts` throw; the model assumes every listed file is readable.
- Mdx.PostBySlug: the `catch` branch for a failing `serialize` or unreadable file is not modelled; only the missing file yields `None`.
- `reading-time` and `next-mdx-remote`'s `serialize`: function parameters `readingTime` and `serialize`, never inspected.
- Mdx.SortByDate: every post is assumed to carry a string `date`; a post without one compares as neither earlier nor later than any other, the comparator then answers -1 both ways, and the source's order is implementation-defined.
- Mdx.SortByDate: the source sorts with V8's `Array.prototype.sort` and a comparator that never returns 0; the model sorts by insertion and states only that the result is a newest-first permutation, not the order among posts with equal dates.
- Unicode: `toLowerCase` is ASCII-only; `slice(0, 200)` and `<` work on Dafny characters (Unicode scalar values) rather than UTF-16 code units, so excerpts and comparisons differ from the source for text outside the Basic Multilingual Plane.
- Mdx.RelatedPostsNoDuplicates: JavaScript's `includes` on objects compares identity; the model compares posts structurally, which agrees because distinct file names give distinct slugs. The lemma therefore assumes distinct file names, which a directory guarantees.
- `calculatePriority` and the final priority sort of `sitemap()` (app/sitemap.tsx:76-111, 250): floating-point arithmetic and the current date. `priority` is carried through unread, and entries are modelled without priority or modification time; since the final sort only reorders, the statements about `Sitemap.Entries` are about counts and membership.
- `process.env.NEXT_PUBLIC_BASE_URL` is a parameter; `console.log`/`console.error` are not modelled.
- Page, layout and UI components (headers, consent banner, share buttons, analytics and ad scripts, related-post rendering): presentation only.
