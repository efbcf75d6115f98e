/** Blog posts in the database's row shape, built from the file posts. */
module BlogPosts {
  import opened Wrappers
  import opened Strings
  import opened FileBlogPosts

  /** `blog_posts` row; timestamps are milliseconds, `notion_blocks` (always null here) is not
      kept. */
  datatype BlogRow = BlogRow(
    id: string, notionPageId: string, title: string, slug: string, excerpt: Option<string>,
    content: string, metaTitle: Option<string>, metaDescription: Option<string>,
    ogImage: Option<string>, author: Option<string>, tags: Option<seq<string>>,
    category: Option<string>, published: bool, publishedAt: Option<int>,
    notionLastEditedTime: Option<int>, createdAt: int, updatedAt: int, syncedAt: int)

  const FilePrefix := "file_"

  /** The key a file post is stored under. */
  function PageKey(slug: string): (key: string)
    ensures |key| == |FilePrefix| + |slug| && key[..|FilePrefix|] == FilePrefix && key[|FilePrefix|..] == slug
  {
    FilePrefix + slug
  }

  /** Different slugs never share a key. */
  lemma PageKeyInjective(a: string, b: string)
    requires PageKey(a) == PageKey(b)
    ensures a == b
  {
    assert a == PageKey(a)[|FilePrefix|..];
  }

  /** `x || null` on a string: the value when it is non-empty. */
  function OrNull(x: Option<string>): (r: Option<string>)
    ensures r.Some? <==> Truthy(x)
    ensures r.Some? ==> r == x
  {
    if Truthy(x) then x else None
  }

  /** `x || y || null` on strings: the first non-empty of the two. */
  function FirstOf(x: Option<string>, y: Option<string>): (r: Option<string>)
    ensures Truthy(x) ==> r == x
    ensures !Truthy(x) ==> r == OrNull(y)
  {
    if Truthy(x) then x else OrNull(y)
  }

  /** `convertFileBlogToDbFormat` at time `now`: keyed by "file_" + slug, with an id that adds
      the time; the empty optional strings become null; the last-edit time is the
      modification date, else the date; `updated_at` falls back further to `now`. */
  function ConvertFileBlogToDbFormat(post: Post, now: nat): (row: BlogRow)
    ensures row.notionPageId == PageKey(post.slug) && row.slug == post.slug
    ensures row.id == row.notionPageId + "_" + NatToString(now)
    ensures row.title == post.meta.title && row.content == post.content
    ensures row.excerpt == OrNull(post.meta.description)
    ensures row.metaTitle == OrNull(post.meta.seoTitle)
    ensures row.metaDescription == FirstOf(post.meta.seoDescription, post.meta.description)
    ensures row.ogImage == FirstOf(post.meta.socialImage, post.meta.image)
    ensures row.author == OrNull(post.meta.author) && row.category == OrNull(post.meta.category)
    ensures row.tags == Some(post.meta.tags)
    ensures row.published == post.meta.published
    ensures row.publishedAt == post.meta.date
    ensures row.notionLastEditedTime == if post.meta.lastModified.Some? then post.meta.lastModified else post.meta.date
    ensures row.notionLastEditedTime.Some? ==> row.updatedAt == row.notionLastEditedTime.value
    ensures row.notionLastEditedTime.None? ==> row.updatedAt == now
    ensures row.createdAt == now && row.syncedAt == now
  {
    var lastEdited := if post.meta.lastModified.Some? then post.meta.lastModified else post.meta.date;
    BlogRow(
      FilePrefix + post.slug + "_" + NatToString(now),
      PageKey(post.slug),
      post.meta.title,
      post.slug,
      OrNull(post.meta.description),
      post.content,
      OrNull(post.meta.seoTitle),
      FirstOf(post.meta.seoDescription, post.meta.description),
      FirstOf(post.meta.socialImage, post.meta.image),
      OrNull(post.meta.author),
      Some(post.meta.tags),
      OrNull(post.meta.category),
      post.meta.published,
      post.meta.date,
      lastEdited,
      now,
      if lastEdited.Some? then lastEdited.value else now,
      now)
  }

  /** Two posts converted at the same time get the same id only when they have the same
      slug. */
  lemma RowIdsDistinguishSlugs(p: Post, q: Post, now: nat)
    requires ConvertFileBlogToDbFormat(p, now).id == ConvertFileBlogToDbFormat(q, now).id
    ensures p.slug == q.slug
  {
    var tail := "_" + NatToString(now);
    var a := ConvertFileBlogToDbFormat(p, now).id;
    assert a == PageKey(p.slug) + tail;
    assert a == PageKey(q.slug) + tail;
    assert PageKey(p.slug) == a[..|a| - |tail|];
    assert PageKey(q.slug) == a[..|a| - |tail|];
    PageKeyInjective(p.slug, q.slug);
  }

  function ConvertAll(posts: seq<Post>, now: nat): (rows: seq<BlogRow>)
    ensures |rows| == |posts|
    ensures forall i :: 0 <= i < |posts| ==> rows[i] == ConvertFileBlogToDbFormat(posts[i], now)
  {
    if posts == [] then [] else [ConvertFileBlogToDbFormat(posts[0], now)] + ConvertAll(posts[1..], now)
  }

  /** `getBlogPosts`: the file listing converted row by row, in its order and length. */
  function GetBlogPosts(directory: Option<seq<DirEntry>>, limit: Option<int>, now: nat): (rows: seq<BlogRow>)
    ensures var posts := FileBlogPostsOf(directory, limit);
      |rows| == |posts| && forall i :: 0 <= i < |rows| ==> rows[i].slug == posts[i].slug && rows[i].published
  {
    var posts := FileBlogPostsOf(directory, limit);
    ListingPublished(directory, limit);
    ConvertAllKeepsSlugs(posts, now);
    ConvertAll(posts, now)
  }

  lemma ListingPublished(directory: Option<seq<DirEntry>>, limit: Option<int>)
    ensures var posts := FileBlogPostsOf(directory, limit);
            forall i :: 0 <= i < |posts| ==> posts[i].meta.published
  {
    var posts := FileBlogPostsOf(directory, limit);
    FileBlogPostsProperties(directory, limit);
    assert forall i :: 0 <= i < |posts| ==> posts[i] in posts;
  }

  lemma ConvertAllKeepsSlugs(posts: seq<Post>, now: nat)
    ensures forall i :: 0 <= i < |posts| ==>
              ConvertAll(posts, now)[i].slug == posts[i].slug
              && ConvertAll(posts, now)[i].published == posts[i].meta.published
  {
  }

  /** `getBlogPost`: the converted file post with that slug, or none. */
  function GetBlogPost(directory: Option<seq<DirEntry>>, slug: string, now: nat): (row: Option<BlogRow>)
    ensures row.Some? <==> directory.Some? && FindPost(directory.value, slug).Some?
    ensures row.Some? ==> row.value.slug == slug && row.value.notionPageId == PageKey(slug)
  {
    if directory.None? then None
    else match FindPost(directory.value, slug)
      case None => None
      case Some(post) => Some(ConvertFileBlogToDbFormat(post, now))
  }

  /** `getBlogPostSlugs`: the file slugs, unchanged. */
  function GetBlogPostSlugs(directory: Option<seq<DirEntry>>): (slugs: seq<string>)
    ensures directory.Some? ==> slugs == SlugsOf(Published(directory.value))
    ensures directory.None? ==> slugs == []
  {
    if directory.None? then []
    else
      SlugsMatchListing(directory.value);
      PublishedSlugs(directory.value)
  }
}
