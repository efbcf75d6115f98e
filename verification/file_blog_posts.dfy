/** Blog posts read from Markdown files: each `.md` file of the blogs directory gives a post
    whose slug, title, publication flag, tags and reading time fall back to defaults when its
    frontmatter leaves them out. The directory's listing and the parsed frontmatter are inputs;
    dates are timestamps. */
module FileBlogPosts {
  import opened Wrappers
  import opened Strings

  /** The frontmatter as parsed; every field may be missing. */
  datatype Frontmatter = Frontmatter(
    title: Option<string>, description: Option<string>, date: Option<int>,
    published: Option<bool>, slug: Option<string>, tags: Option<seq<string>>,
    author: Option<string>, image: Option<string>, readingTime: Option<nat>,
    category: Option<string>, featured: Option<bool>, seoTitle: Option<string>,
    seoDescription: Option<string>, socialImage: Option<string>, lastModified: Option<int>)

  /** The frontmatter of a loaded post, with its defaults filled in. */
  datatype PostMeta = PostMeta(
    title: string, description: Option<string>, date: Option<int>, published: bool,
    slug: string, tags: seq<string>, author: Option<string>, image: Option<string>,
    readingTime: nat, category: Option<string>, featured: Option<bool>,
    seoTitle: Option<string>, seoDescription: Option<string>, socialImage: Option<string>,
    lastModified: Option<int>)

  datatype Post = Post(slug: string, meta: PostMeta, content: string, readingTime: nat)

  /** A file that could not be read or parsed, or its frontmatter and body. */
  datatype FileRead = Unreadable | Parsed(frontmatter: Frontmatter, content: string)

  datatype DirEntry = DirEntry(name: string, file: FileRead)

  /** A string value that is present and not empty. */
  predicate Truthy(s: Option<string>) {
    s.Some? && s.value != []
  }

  // ---------------------------------------------------------------- reading time and slug

  const WordsPerMinute: nat := 200

  /** Whitespace-separated words of the trimmed content. */
  function WordCount(content: string): (n: nat)
    ensures n >= 1
  {
    |SplitOnSpace(Trim(content))|
  }

  /** Minutes to read at 200 words a minute, rounded up; at least one minute, even for an
      empty body, since an empty text still splits into one (empty) word. */
  function ReadingTime(content: string): (minutes: nat)
    ensures minutes >= 1
    ensures (minutes - 1) * WordsPerMinute < WordCount(content) <= minutes * WordsPerMinute
  {
    (WordCount(content) + WordsPerMinute - 1) / WordsPerMinute
  }

  /** In a non-blank body the words counted are exactly its runs of non-space characters. */
  lemma WordsAreNonEmpty(content: string)
    requires HasNonSpace(content)
    ensures var words := SplitOnSpace(Trim(content));
            (forall i :: 0 <= i < |words| ==> words[i] != []) && Concat(words) == NonSpaceChars(Trim(content))
  {
    var t := Trim(content);
    SplitTrimmedWords(t);
    SplitOnSpaceKeepsWords(t);
  }

  const MarkdownExtension := ".md"

  predicate IsMarkdown(name: string) {
    EndsWith(name, MarkdownExtension)
  }

  /** The file name without one trailing ".md"; other names are kept whole. */
  function SlugFromFilename(name: string): (slug: string)
    ensures IsMarkdown(name) ==> slug + MarkdownExtension == name
    ensures !IsMarkdown(name) ==> slug == name
  {
    if IsMarkdown(name) then name[..|name| - 3] else name
  }

  /** Deriving a slug only undoes the extension: a slug written to "<slug>.md" comes back. */
  lemma SlugRoundTrip(slug: string)
    ensures SlugFromFilename(slug + MarkdownExtension) == slug
  {
    var name := slug + MarkdownExtension;
    assert name[|name| - 3..] == MarkdownExtension;
    assert name[..|name| - 3] == slug;
  }

  // ---------------------------------------------------------------- loading one file

  /** The post a parsed file gives: the frontmatter slug if it is non-empty, else the file name's
      slug; "Untitled" for a missing title; published unless it says `published: false`; no
      tags for missing tags; the frontmatter's positive reading time, else the computed one. */
  function LoadPost(name: string, fm: Frontmatter, content: string): (p: Post)
    ensures p.meta.slug == p.slug && p.content == content && p.readingTime == p.meta.readingTime
    ensures p.slug == if Truthy(fm.slug) then fm.slug.value else SlugFromFilename(name)
    ensures p.meta.published <==> fm.published != Some(false)
    ensures p.meta.title != [] && (Truthy(fm.title) ==> p.meta.title == fm.title.value)
    ensures !Truthy(fm.title) ==> p.meta.title == "Untitled"
    ensures p.readingTime >= 1
    ensures p.readingTime == if fm.readingTime.Some? && fm.readingTime.value != 0 then fm.readingTime.value
                             else ReadingTime(content)
    ensures p.meta.date == fm.date && p.meta.lastModified == fm.lastModified
  {
    var slug := if Truthy(fm.slug) then fm.slug.value else SlugFromFilename(name);
    var minutes := if fm.readingTime.Some? && fm.readingTime.value != 0 then fm.readingTime.value
                   else ReadingTime(content);
    var meta := PostMeta(
      if Truthy(fm.title) then fm.title.value else "Untitled",
      fm.description, fm.date, fm.published != Some(false), slug,
      fm.tags.GetOr([]), fm.author, fm.image, minutes, fm.category, fm.featured,
      fm.seoTitle, fm.seoDescription, fm.socialImage, fm.lastModified);
    Post(slug, meta, content, minutes)
  }

  /** A directory entry's post: only Markdown files that could be read and parsed give one. */
  function Load(e: DirEntry): (r: Option<Post>)
    ensures r.Some? <==> IsMarkdown(e.name) && e.file.Parsed?
  {
    if IsMarkdown(e.name) && e.file.Parsed? then Some(LoadPost(e.name, e.file.frontmatter, e.file.content))
    else None
  }

  predicate IsPublished(e: DirEntry) {
    Load(e).Some? && Load(e).value.meta.published
  }

  /** What one entry adds to the listing: its post when it is published, else nothing. */
  function PublishedPost(e: DirEntry): (r: seq<Post>)
    ensures |r| <= 1 && forall p :: p in r ==> p.meta.published
  {
    if IsPublished(e) then [Load(e).value] else []
  }

  /** The published posts in directory order. */
  function Published(entries: seq<DirEntry>): (posts: seq<Post>)
    ensures |posts| <= |entries|
    ensures forall p :: p in posts ==> p.meta.published
  {
    if entries == [] then [] else PublishedPost(entries[0]) + Published(entries[1..])
  }

  lemma {:induction false} PublishedAppend(a: seq<DirEntry>, b: seq<DirEntry>)
    ensures Published(a + b) == Published(a) + Published(b)
  {
    if a == [] {
      assert a + b == b;
    } else {
      assert (a + b)[0] == a[0];
      assert (a + b)[1..] == a[1..] + b;
      PublishedAppend(a[1..], b);
    }
  }

  /** A file that fails to read changes nothing for the others. */
  lemma {:induction false} UnreadableFileSkipped(entries: seq<DirEntry>, i: nat)
    requires i < |entries| && entries[i].file.Unreadable?
    ensures Published(entries[..i] + entries[i + 1..]) == Published(entries)
  {
    var before, after := entries[..i], entries[i + 1..];
    var tail := [entries[i]] + after;
    assert entries == before + tail;
    PublishedAppend(before, tail);
    assert tail[0] == entries[i] && tail[1..] == after;
    assert PublishedPost(entries[i]) == [];
    assert Published(tail) == Published(after);
    PublishedAppend(before, after);
  }

  // ---------------------------------------------------------------- date order

  /** The sort key: the post's date, or 0 when it has none. */
  function DateKey(p: Post): int {
    p.meta.date.GetOr(0)
  }

  predicate SortedByDate(s: seq<Post>) {
    forall i, j :: 0 <= i < j < |s| ==> DateKey(s[i]) >= DateKey(s[j])
  }

  /** `x` placed before the first element with a strictly older date... or an equal one, so a
      post that came first stays first among equal dates. */
  function InsertByDate(x: Post, s: seq<Post>): (r: seq<Post>)
    ensures |r| == |s| + 1
  {
    if s == [] || DateKey(x) >= DateKey(s[0]) then [x] + s
    else [s[0]] + InsertByDate(x, s[1..])
  }

  /** `r` is `s` with `x` placed at index `k`, after every strictly newer post and before the
      first post at most as new. */
  predicate InsertedAt(x: Post, s: seq<Post>, r: seq<Post>, k: nat) {
    && k <= |s| && r == s[..k] + [x] + s[k..]
    && (forall i :: 0 <= i < k ==> DateKey(s[i]) > DateKey(x))
    && (k < |s| ==> DateKey(x) >= DateKey(s[k]))
  }

  /** Putting a strictly newer post in front moves the insertion point one place on. */
  lemma InsertedAtCons(x: Post, y: Post, t: seq<Post>, r: seq<Post>, k: nat)
    requires InsertedAt(x, t, r, k) && DateKey(y) > DateKey(x)
    ensures InsertedAt(x, [y] + t, [y] + r, k + 1)
  {
    var s := [y] + t;
    assert s[..k + 1] == [y] + t[..k];
    assert s[k + 1..] == t[k..];
    assert forall i :: 0 < i < k + 1 ==> s[i] == t[i - 1];
  }

  /** Inserting cuts the list once, at the first post at most as new as the inserted one. */
  lemma {:induction false} InsertByDatePosition(x: Post, s: seq<Post>)
    ensures exists k: nat :: InsertedAt(x, s, InsertByDate(x, s), k)
    decreases |s|
  {
    if s == [] || DateKey(x) >= DateKey(s[0]) {
      assert s[..0] + [x] + s[0..] == [x] + s;
      assert InsertedAt(x, s, InsertByDate(x, s), 0);
    } else {
      var t := s[1..];
      InsertByDatePosition(x, t);
      var k: nat :| InsertedAt(x, t, InsertByDate(x, t), k);
      InsertedAtCons(x, s[0], t, InsertByDate(x, t), k);
      assert [s[0]] + t == s;
    }
  }

  /** The stable newest-first order the listing's comparator gives. */
  function SortByDate(s: seq<Post>): (r: seq<Post>)
    ensures |r| == |s|
  {
    if s == [] then [] else InsertByDate(s[0], SortByDate(s[1..]))
  }

  /** The posts dated `key`, in order. */
  function WithDate(s: seq<Post>, key: int): seq<Post> {
    if s == [] then []
    else (if DateKey(s[0]) == key then [s[0]] else []) + WithDate(s[1..], key)
  }

  lemma {:induction false} InsertByDatePermutes(x: Post, s: seq<Post>)
    ensures multiset(InsertByDate(x, s)) == multiset(s) + multiset{x}
    decreases |s|
  {
    if s == [] || DateKey(x) >= DateKey(s[0]) {
      assert InsertByDate(x, s) == [x] + s;
    } else {
      InsertByDatePermutes(x, s[1..]);
      assert InsertByDate(x, s) == [s[0]] + InsertByDate(x, s[1..]);
      assert s == [s[0]] + s[1..];
    }
  }

  /** No post of `s` is dated later than `bound`. */
  predicate AllAtMost(s: seq<Post>, bound: int) {
    forall i :: 0 <= i < |s| ==> DateKey(s[i]) <= bound
  }

  /** A sorted sequence's tail is sorted and dated no later than its head. */
  lemma SortedTail(s: seq<Post>)
    requires SortedByDate(s) && s != []
    ensures SortedByDate(s[1..]) && AllAtMost(s[1..], DateKey(s[0]))
  {
    var tail := s[1..];
    forall i | 0 <= i < |tail| ensures tail[i] == s[i + 1] { }
  }

  /** Putting a post no older than any of a sorted sequence in front keeps it sorted. */
  lemma ConsSorted(y: Post, s: seq<Post>)
    requires SortedByDate(s) && AllAtMost(s, DateKey(y))
    ensures SortedByDate([y] + s)
  {
    var r := [y] + s;
    forall i, j | 0 <= i < j < |r| ensures DateKey(r[i]) >= DateKey(r[j]) {
      assert r[j] == s[j - 1];
      if i > 0 { assert r[i] == s[i - 1]; }
    }
  }

  lemma {:induction false} InsertByDateBounded(x: Post, s: seq<Post>, bound: int)
    requires DateKey(x) <= bound && AllAtMost(s, bound)
    ensures AllAtMost(InsertByDate(x, s), bound)
    decreases |s|
  {
    if s == [] || DateKey(x) >= DateKey(s[0]) {
      var r := [x] + s;
      assert InsertByDate(x, s) == r;
      forall i | 1 <= i < |r| ensures r[i] == s[i - 1] { }
    } else {
      var tail := s[1..];
      forall i | 0 <= i < |tail| ensures tail[i] == s[i + 1] { }
      InsertByDateBounded(x, tail, bound);
      var rest := InsertByDate(x, tail);
      var r := [s[0]] + rest;
      assert InsertByDate(x, s) == r;
      forall i | 1 <= i < |r| ensures r[i] == rest[i - 1] { }
    }
  }

  lemma {:induction false} InsertByDateSorted(x: Post, s: seq<Post>)
    requires SortedByDate(s)
    ensures SortedByDate(InsertByDate(x, s))
    decreases |s|
  {
    if s == [] {
      ConsSorted(x, s);
    } else if DateKey(x) >= DateKey(s[0]) {
      SortedTail(s);
      assert AllAtMost(s, DateKey(x)) by {
        forall i | 0 < i < |s| ensures DateKey(s[i]) <= DateKey(x) {
          assert s[i] == s[1..][i - 1];
        }
      }
      ConsSorted(x, s);
    } else {
      SortedTail(s);
      InsertByDateSorted(x, s[1..]);
      InsertByDateBounded(x, s[1..], DateKey(s[0]));
      ConsSorted(s[0], InsertByDate(x, s[1..]));
    }
  }

  lemma {:induction false} InsertByDateStable(x: Post, s: seq<Post>, key: int)
    ensures WithDate(InsertByDate(x, s), key) == (if DateKey(x) == key then [x] else []) + WithDate(s, key)
    decreases |s|
  {
    if s == [] || DateKey(x) >= DateKey(s[0]) {
      var r := [x] + s;
      assert r[0] == x && r[1..] == s;
      assert InsertByDate(x, s) == r;
    } else {
      var rest := InsertByDate(x, s[1..]);
      InsertByDateStable(x, s[1..], key);
      var r := [s[0]] + rest;
      assert InsertByDate(x, s) == r;
      assert r[0] == s[0] && r[1..] == rest;
      if DateKey(s[0]) == key {
        assert WithDate(r, key) == [s[0]] + WithDate(rest, key);
        assert WithDate(s, key) == [s[0]] + WithDate(s[1..], key);
      } else {
        assert WithDate(r, key) == WithDate(rest, key);
        assert WithDate(s, key) == WithDate(s[1..], key);
      }
    }
  }

  /** The listing's order: newest first, the same posts, and posts with the same date in their
      directory order. */
  lemma {:induction false} SortByDateCorrect(s: seq<Post>)
    ensures SortedByDate(SortByDate(s))
    ensures multiset(SortByDate(s)) == multiset(s)
    ensures forall key :: WithDate(SortByDate(s), key) == WithDate(s, key)
  {
    if s != [] {
      SortByDateCorrect(s[1..]);
      InsertByDateSorted(s[0], SortByDate(s[1..]));
      InsertByDatePermutes(s[0], SortByDate(s[1..]));
      assert s == [s[0]] + s[1..];
      forall key ensures WithDate(SortByDate(s), key) == WithDate(s, key) {
        InsertByDateStable(s[0], SortByDate(s[1..]), key);
        assert WithDate(s, key) == (if DateKey(s[0]) == key then [s[0]] else []) + WithDate(s[1..], key);
      }
    }
  }

  // ---------------------------------------------------------------- limit

  /** `limit ? posts.slice(0, limit) : posts`: a missing or zero limit keeps every post, a
      positive one keeps at most that many, a negative one drops that many from the end. */
  function TakeLimit(posts: seq<Post>, limit: Option<int>): (r: seq<Post>)
    ensures r <= posts
    ensures (limit.None? || limit.value == 0) ==> r == posts
    ensures limit.Some? && limit.value > 0 ==> |r| == if limit.value < |posts| then limit.value else |posts|
    ensures limit.Some? && limit.value < 0 ==> |r| == if |posts| + limit.value > 0 then |posts| + limit.value else 0
  {
    if limit.None? || limit.value == 0 then posts
    else if limit.value > 0 then (if limit.value < |posts| then posts[..limit.value] else posts)
    else (if |posts| + limit.value > 0 then posts[..|posts| + limit.value] else [])
  }

  // ---------------------------------------------------------------- the three readers

  /** What `getFileBlogPosts` returns for a directory listing (`None`: no directory). */
  function FileBlogPostsOf(directory: Option<seq<DirEntry>>, limit: Option<int>): (r: seq<Post>)
    ensures directory.None? ==> r == []
    ensures directory.Some? ==> |r| <= |Published(directory.value)|
    ensures directory.Some? && (limit.None? || limit.value == 0) ==> |r| == |Published(directory.value)|
  {
    if directory.None? then [] else TakeLimit(SortByDate(Published(directory.value)), limit)
  }

  /** The listing holds only published posts, newest first, and a positive limit bounds it. */
  lemma FileBlogPostsProperties(directory: Option<seq<DirEntry>>, limit: Option<int>)
    ensures var r := FileBlogPostsOf(directory, limit);
      && SortedByDate(r)
      && (forall p :: p in r ==> p.meta.published)
      && (limit.Some? && limit.value > 0 ==> |r| <= limit.value)
      && (directory.Some? && (limit.None? || limit.value == 0) ==> multiset(r) == multiset(Published(directory.value)))
  {
    if directory.Some? {
      var all := SortByDate(Published(directory.value));
      SortByDateCorrect(Published(directory.value));
      var r := TakeLimit(all, limit);
      assert forall i :: 0 <= i < |r| ==> r[i] == all[i];
      forall p | p in r ensures p.meta.published {
        var i :| 0 <= i < |r| && r[i] == p;
        assert all[i] in multiset(all);
      }
    }
  }

  /** `getFileBlogPosts`: the published Markdown files, loaded in directory order, sorted newest
      first and cut to the limit. */
  method GetFileBlogPosts(directory: Option<seq<DirEntry>>, limit: Option<int>) returns (posts: seq<Post>)
    ensures posts == FileBlogPostsOf(directory, limit)
  {
    if directory.None? {
      return [];
    }
    var files := directory.value;
    var collected: seq<Post> := [];
    var i := 0;
    while i < |files|
      invariant 0 <= i <= |files|
      invariant collected == Published(files[..i])
    {
      assert files[..i + 1] == files[..i] + [files[i]];
      PublishedAppend(files[..i], [files[i]]);
      assert Published([files[i]]) == PublishedPost(files[i]) by {
        assert [files[i]][1..] == [];
      }
      var post := Load(files[i]);
      if post.Some? && post.value.meta.published {
        assert PublishedPost(files[i]) == [post.value];
        collected := collected + [post.value];
      } else {
        assert PublishedPost(files[i]) == [];
      }
      i := i + 1;
    }
    assert files[..|files|] == files;
    posts := TakeLimit(SortByDate(collected), limit);
  }

  /** The entry loads to a post whose slug is `slug`. */
  predicate Matches(e: DirEntry, slug: string) {
    Load(e).Some? && Load(e).value.slug == slug
  }

  /** The index of the first entry from `from` on that matches `slug`, or the listing's
      length when none does. */
  function FirstMatch(entries: seq<DirEntry>, slug: string, from: nat): (k: nat)
    requires from <= |entries|
    ensures from <= k <= |entries|
    ensures k < |entries| ==> Matches(entries[k], slug)
    ensures forall j :: from <= j < k ==> !Matches(entries[j], slug)
    decreases |entries| - from
  {
    if from == |entries| || Matches(entries[from], slug) then from else FirstMatch(entries, slug, from + 1)
  }

  /** The first loaded file, in directory order, whose slug is `slug`. */
  function FindPost(entries: seq<DirEntry>, slug: string): (r: Option<Post>)
    ensures r.Some? ==> r.value.slug == slug
    ensures r.Some? ==> exists i :: 0 <= i < |entries| && Load(entries[i]) == r
                          && forall j :: 0 <= j < i ==> Load(entries[j]).None? || Load(entries[j]).value.slug != slug
    ensures r.None? ==> forall i :: 0 <= i < |entries| && Load(entries[i]).Some? ==> Load(entries[i]).value.slug != slug
  {
    var k := FirstMatch(entries, slug, 0);
    if k < |entries| then Load(entries[k]) else None
  }

  /** A post is found by its slug whether or not it is published. */
  lemma FindIgnoresPublication(entries: seq<DirEntry>, i: nat)
    requires i < |entries| && Load(entries[i]).Some? && !Load(entries[i]).value.meta.published
    ensures FindPost(entries, Load(entries[i]).value.slug).Some?
  {
  }

  /** `getFileBlogPost`: the first file in directory order whose slug matches, published or
      not; none when no file matches or there is no directory. */
  method GetFileBlogPost(directory: Option<seq<DirEntry>>, slug: string) returns (post: Option<Post>)
    ensures directory.None? ==> post.None?
    ensures directory.Some? ==> post == FindPost(directory.value, slug)
  {
    if directory.None? {
      return None;
    }
    var files := directory.value;
    var i := 0;
    while i < |files|
      invariant 0 <= i <= |files|
      invariant FirstMatch(files, slug, 0) == FirstMatch(files, slug, i)
    {
      var loaded := Load(files[i]);
      if loaded.Some? && loaded.value.slug == slug {
        return loaded;
      }
      i := i + 1;
    }
    return None;
  }

  /** What one entry adds to the slug list. */
  function PublishedSlug(e: DirEntry): seq<string> {
    if IsPublished(e) then [Load(e).value.slug] else []
  }

  /** The slugs of the published files, in directory order. */
  function PublishedSlugs(entries: seq<DirEntry>): seq<string> {
    if entries == [] then [] else PublishedSlug(entries[0]) + PublishedSlugs(entries[1..])
  }

  function SlugsOf(posts: seq<Post>): seq<string> {
    if posts == [] then [] else [posts[0].slug] + SlugsOf(posts[1..])
  }

  /** The slug list names the same posts as the listing, unsorted: exactly the published
      posts' slugs in directory order. */
  lemma {:induction false} SlugsMatchListing(entries: seq<DirEntry>)
    ensures PublishedSlugs(entries) == SlugsOf(Published(entries))
  {
    if entries != [] {
      SlugsMatchListing(entries[1..]);
      var head := PublishedPost(entries[0]);
      SlugsOfAppend(head, Published(entries[1..]));
      assert SlugsOf(head) == PublishedSlug(entries[0]) by {
        if head != [] { assert head[1..] == []; }
      }
    }
  }

  lemma {:induction false} SlugsOfAppend(a: seq<Post>, b: seq<Post>)
    ensures SlugsOf(a + b) == SlugsOf(a) + SlugsOf(b)
  {
    if a == [] {
      assert a + b == b;
    } else {
      assert (a + b)[1..] == a[1..] + b;
      SlugsOfAppend(a[1..], b);
    }
  }

  /** `getFileBlogPostSlugs`: the published files' slugs in directory order. */
  method GetFileBlogPostSlugs(directory: Option<seq<DirEntry>>) returns (slugs: seq<string>)
    ensures directory.None? ==> slugs == []
    ensures directory.Some? ==> slugs == PublishedSlugs(directory.value)
  {
    if directory.None? {
      return [];
    }
    var files := directory.value;
    slugs := [];
    var i := 0;
    while i < |files|
      invariant 0 <= i <= |files|
      invariant slugs + PublishedSlugs(files[i..]) == PublishedSlugs(files)
    {
      assert PublishedSlugs(files[i..]) == PublishedSlug(files[i]) + PublishedSlugs(files[i + 1..]) by {
        assert files[i..][1..] == files[i + 1..];
      }
      var loaded := Load(files[i]);
      if loaded.Some? && loaded.value.meta.published {
        assert PublishedSlug(files[i]) == [loaded.value.slug];
        slugs := slugs + [loaded.value.slug];
      } else {
        assert PublishedSlug(files[i]) == [];
      }
      i := i + 1;
    }
  }
}
