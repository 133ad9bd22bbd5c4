/**
 * The single-post page (components/Blog.tsx): which post the URL names,
 * whether the page shows it, the script test that blocks its HTML, the
 * in-place HTML editor with its snippet buttons, saving the edited HTML back
 * into the store, and the related posts under the article.
 */
module PostView {
  import opened Wrappers
  import opened Text
  import opened Seqs
  import opened Content

  // ---------------------------------------------------------------- which post

  /** `path.split('/').pop()`: the text after the last '/', or the whole path when it has none. */
  function LastSegment(path: string): (r: string)
    ensures '/' !in r
    ensures |r| <= |path|
    decreases |path|
  {
    if |path| == 0 || path[|path| - 1] == '/' then ""
    else LastSegment(path[..|path| - 1]) + [path[|path| - 1]]
  }

  /** The last segment is a suffix of the path. */
  lemma {:induction false} LastSegmentIsSuffix(path: string)
    ensures var r := LastSegment(path); r == path[|path| - |r|..]
    decreases |path|
  {
    if |path| > 0 && path[|path| - 1] != '/' {
      var init := path[..|path| - 1];
      LastSegmentIsSuffix(init);
      var rest := LastSegment(init);
      assert init[|init| - |rest|..] == path[|path| - 1 - |rest|..|path| - 1];
      assert LastSegment(path) == rest + [path[|path| - 1]];
    }
  }

  /** The last segment is the whole path or follows a '/': it is the longest suffix without one. */
  lemma {:induction false} LastSegmentAfterSlash(path: string)
    ensures var r := LastSegment(path); |r| == |path| || path[|path| - |r| - 1] == '/'
    decreases |path|
  {
    if |path| > 0 && path[|path| - 1] != '/' {
      var init := path[..|path| - 1];
      LastSegmentAfterSlash(init);
      var rest := LastSegment(init);
      assert LastSegment(path) == rest + [path[|path| - 1]];
      if |rest| < |init| {
        assert init[|init| - |rest| - 1] == path[|path| - |rest| - 2];
      }
    }
  }

  /** The segment after the last '/' is the one the path ends with. */
  lemma {:induction false} LastSegmentOf(prefix: string, segment: string)
    requires '/' !in segment
    ensures LastSegment(prefix + "/" + segment) == segment
    decreases |segment|
  {
    var path := prefix + "/" + segment;
    if |segment| > 0 {
      var init := segment[..|segment| - 1];
      assert path[..|path| - 1] == prefix + "/" + init;
      assert '/' !in init by {
        forall j | 0 <= j < |init| ensures init[j] != '/' { assert init[j] == segment[j]; }
      }
      LastSegmentOf(prefix, init);
      assert init + [segment[|segment| - 1]] == segment;
    }
  }

  /** The index of the first post with the slug. */
  function SlugIndex(posts: seq<BlogPost>, slug: string): (r: Option<nat>)
    ensures r.Some? ==> r.value < |posts| && posts[r.value].slug == slug &&
                        forall j :: 0 <= j < r.value ==> posts[j].slug != slug
    ensures r.None? <==> forall j :: 0 <= j < |posts| ==> posts[j].slug != slug
  {
    FirstIndex(posts, (p: BlogPost) => p.slug == slug)
  }

  /** `blogPosts.find(post => post.slug === slug)`: the first post with the slug. */
  function FindPostBySlug(posts: seq<BlogPost>, slug: string): (r: Option<BlogPost>)
    ensures r.Some? ==> r.value.slug == slug && r.value in posts
    ensures r.Some? <==> SlugIndex(posts, slug).Some?
    ensures r.Some? ==> r.value == posts[SlugIndex(posts, slug).value]
  {
    match SlugIndex(posts, slug)
    case Some(k) => Some(posts[k])
    case None => None
  }

  /** A post is found at `<anything>/<its slug>` when its slug has no '/' and no earlier post shares it. */
  lemma FindPostAtItsUrl(posts: seq<BlogPost>, k: nat, prefix: string)
    requires k < |posts| && '/' !in posts[k].slug
    requires forall j :: 0 <= j < k ==> posts[j].slug != posts[k].slug
    ensures FindPostBySlug(posts, LastSegment(prefix + "/" + posts[k].slug)) == Some(posts[k])
  {
    LastSegmentOf(prefix, posts[k].slug);
  }

  /**
   * The post the page shows: the first post with the URL's slug, and only
   * when it is published; otherwise the page says "Blog Post Not Found".
   */
  function ShownPost(posts: seq<BlogPost>, path: string): (r: Option<BlogPost>)
    ensures r.Some? ==> r == FindPostBySlug(posts, LastSegment(path))
    ensures r.Some? ==> r.value.slug == LastSegment(path) && r.value.status == Published && r.value in posts
    ensures r.None? <==> (forall j :: 0 <= j < |posts| ==> posts[j].slug != LastSegment(path)) ||
                         FindPostBySlug(posts, LastSegment(path)).value.status != Published
  {
    match FindPostBySlug(posts, LastSegment(path))
    case Some(p) => if p.status == Published then Some(p) else None
    case None => None
  }

  // ---------------------------------------------------------------- script blocking

  const ScriptOpen: string := "<script"
  const ScriptClose: string := "</script>"

  /** `<script` starts at `i`, in any ASCII case. */
  predicate OpenAt(s: string, i: int) {
    0 <= i && i + |ScriptOpen| <= |s| && Lower(s[i..i + |ScriptOpen|]) == ScriptOpen
  }

  /** `</script>` starts at `i`, in any ASCII case. */
  predicate CloseAt(s: string, i: int) {
    0 <= i && i + |ScriptClose| <= |s| && Lower(s[i..i + |ScriptClose|]) == ScriptClose
  }

  /** `\b` right after `<script`: the next character, if any, is not a word character. */
  predicate BoundaryAfterOpen(s: string, i: int)
    requires 0 <= i && i + |ScriptOpen| <= |s|
  {
    i + |ScriptOpen| == |s| || !IsWordChar(s[i + |ScriptOpen|])
  }

  /**
   * `[^<]*(?:(?!<\/script>)<[^<]*)*<\/script>` matches from `j`: it stops at
   * a closing tag, or takes a character other than '<', or takes a '<' that
   * does not start a closing tag, and goes on.
   */
  predicate TailMatches(s: string, j: nat)
    requires j <= |s|
    decreases |s| - j
  {
    j < |s| &&
    (CloseAt(s, j)
     || (s[j] != '<' && TailMatches(s, j + 1))
     || (s[j] == '<' && !CloseAt(s, j) && TailMatches(s, j + 1)))
  }

  /** The whole pattern matches at `i`. */
  predicate MatchAt(s: string, i: nat) {
    OpenAt(s, i) && BoundaryAfterOpen(s, i) && TailMatches(s, i + |ScriptOpen|)
  }

  /** `scriptRegex.test(s)` with the search starting at `i`. */
  predicate SearchFrom(s: string, i: nat)
    requires i <= |s|
    decreases |s| - i
  {
    MatchAt(s, i) || (i < |s| && SearchFrom(s, i + 1))
  }

  /** `scriptRegex.test(content)`: the post's HTML is replaced by "Content blocked". */
  predicate ScriptBlocked(content: string) {
    SearchFrom(content, 0)
  }

  /** The tail matches exactly when a closing tag starts at or after `j`. */
  lemma {:induction false} TailMatchesIff(s: string, j: nat)
    requires j <= |s|
    ensures TailMatches(s, j) <==> exists e :: j <= e && CloseAt(s, e)
    decreases |s| - j
  {
    if j < |s| {
      TailMatchesIff(s, j + 1);
      if !CloseAt(s, j) && (exists e :: j <= e && CloseAt(s, e)) {
        var e :| j <= e && CloseAt(s, e);
        assert j + 1 <= e;
      }
    } else {
      assert forall e :: j <= e ==> !CloseAt(s, e);
    }
  }

  /** The search from `i` succeeds exactly when a match starts at or after `i`. */
  lemma {:induction false} SearchFromIff(s: string, i: nat)
    requires i <= |s|
    ensures SearchFrom(s, i) <==> exists p :: i <= p <= |s| && MatchAt(s, p)
    decreases |s| - i
  {
    if i < |s| {
      SearchFromIff(s, i + 1);
      if exists p :: i <= p <= |s| && MatchAt(s, p) {
        var p :| i <= p <= |s| && MatchAt(s, p);
        if p != i {
          assert i + 1 <= p;
        }
      }
    }
  }

  /**
   * Content is blocked exactly when some `<script` (any case) not followed by
   * a word character has a `</script>` (any case) starting at or after its end.
   */
  lemma ScriptBlockedIff(s: string)
    ensures ScriptBlocked(s) <==>
      exists p, e :: 0 <= p && OpenAt(s, p) && BoundaryAfterOpen(s, p) && p + |ScriptOpen| <= e && CloseAt(s, e)
  {
    SearchFromIff(s, 0);
    if ScriptBlocked(s) {
      var p :| 0 <= p <= |s| && MatchAt(s, p);
      TailMatchesIff(s, p + |ScriptOpen|);
    }
    if exists p, e :: 0 <= p && OpenAt(s, p) && BoundaryAfterOpen(s, p) && p + |ScriptOpen| <= e && CloseAt(s, e) {
      var p, e :| 0 <= p && OpenAt(s, p) && BoundaryAfterOpen(s, p) && p + |ScriptOpen| <= e && CloseAt(s, e);
      TailMatchesIff(s, p + |ScriptOpen|);
      assert MatchAt(s, p);
    }
  }

  /** Content with no closing `</script>` is never blocked, even with an opening tag. */
  lemma UnclosedScriptNotBlocked(s: string)
    requires forall e :: !CloseAt(s, e)
    ensures !ScriptBlocked(s)
  {
    ScriptBlockedIff(s);
  }

  /** Content without `<script` in any case is never blocked. */
  lemma NoScriptNotBlocked(s: string)
    requires !Contains(Lower(s), ScriptOpen)
    ensures !ScriptBlocked(s)
  {
    forall p | 0 <= p && p + |ScriptOpen| <= |s| ensures !OpenAt(s, p) {
      assert Lower(s)[p..p + |ScriptOpen|] == Lower(s[p..p + |ScriptOpen|]);
      assert !OccursAt(Lower(s), ScriptOpen, p);
    }
    ScriptBlockedIff(s);
  }

  /** A bare `<script></script>` pair is blocked. */
  lemma EmptyScriptBlocked(s: string)
    requires s == ScriptOpen + ScriptClose
    ensures ScriptBlocked(s)
  {
    assert s[..7] == ScriptOpen;
    assert s[7..16] == ScriptClose;
    assert s[7] == '<';
    ScriptBlockedIff(s);
    assert OpenAt(s, 0) && BoundaryAfterOpen(s, 0) && CloseAt(s, 7);
  }

  /** What the article body shows. */
  datatype Body = Html(html: string) | ContentBlocked

  /** `renderPostHtml` for the shown post; a missing content is tested as "". */
  function RenderBody(post: BlogPost): (b: Body)
    ensures b == ContentBlocked <==> ScriptBlocked(post.content)
    ensures b.Html? ==> b.html == post.content
  {
    if ScriptBlocked(post.content) then ContentBlocked else Html(post.content)
  }

  // ---------------------------------------------------------------- editor snippets

  const ElementClass: string := "wx-blog-element"

  /** The HTML a sidebar button (or a drop of its name) appends to the editor, by kind. */
  function Snippet(kind: string): (r: Option<string>)
    ensures r.Some? ==> |r.value| > 0 && r.value[0] == '\n' && Contains(r.value, ElementClass)
    ensures r.None? <==> kind !in {"title", "paragraph", "image", "quote", "code", "ul", "video", "divider"}
  {
    if kind == "title" then Wrap("<h1 class=\"", "\">Title</h1>")
    else if kind == "paragraph" then Wrap("<p class=\"", "\">Paragraph</p>")
    else if kind == "image" then Wrap("<img src=\"/api/placeholder/400/300\" alt=\"Image\" class=\"", "\">")
    else if kind == "quote" then Wrap("<blockquote class=\"", "\">Quote</blockquote>")
    else if kind == "code" then Wrap("<pre><code class=\"", "\">Code</code></pre>")
    else if kind == "ul" then Wrap("<ul class=\"", "\"><li>Item 1</li><li>Item 2</li><li>Item 3</li></ul>")
    else if kind == "video" then Wrap("<video src=\"/api/placeholder/400/300\" controls class=\"", "\"></video>")
    else if kind == "divider" then Wrap("<hr class=\"", " wx-divider\">")
    else None
  }

  /** A snippet on a new line whose class attribute holds the default element class. */
  function Wrap(before: string, after: string): (r: Option<string>)
    ensures r.Some? && |r.value| > 0 && r.value[0] == '\n' && Contains(r.value, ElementClass)
  {
    ContainsMiddle("\n" + before, ElementClass, after);
    Some("\n" + before + ElementClass + after)
  }

  // ---------------------------------------------------------------- saving

  /** The builder component being edited, as far as `handle_save` looks at it. */
  datatype Component = Component(componentType: string, pluginName: string)

  /** `handle_save` goes ahead only for a shown post and a plugin component of the "Blog" plugin. */
  predicate SaveAllowed(post: Option<BlogPost>, component: Option<Component>) {
    post.Some? && component.Some? && component.value.componentType == "plugin" && component.value.pluginName == "Blog"
  }

  /** The stored posts with the content of every post with the id replaced by the editor's text. */
  function WithContent(posts: seq<BlogPost>, postId: string, html: string): (r: seq<BlogPost>)
    ensures |r| == |posts|
    ensures forall i :: 0 <= i < |r| && posts[i].id == postId ==> r[i] == posts[i].(content := html)
    ensures forall i :: 0 <= i < |r| && posts[i].id != postId ==> r[i] == posts[i]
  {
    seq(|posts|, i requires 0 <= i < |posts| => if posts[i].id == postId then posts[i].(content := html) else posts[i])
  }

  /**
   * The store after `handle_save`: the "Blog" entry keeps its other fields and
   * takes the stored posts with the edited content; other keys are untouched.
   */
  function SavedEntries(entries: map<string, StoreEntry>, postId: string, html: string): (r: map<string, StoreEntry>)
    ensures r.Keys == entries.Keys + {BlogKey}
    ensures forall key :: key in entries && key != BlogKey ==> r[key] == entries[key]
    ensures r[BlogKey].posts == Some(WithContent(StoredPosts(entries, BlogKey), postId, html))
    ensures BlogKey in entries ==>
      r[BlogKey].categories == entries[BlogKey].categories && r[BlogKey].blogSettings == entries[BlogKey].blogSettings
  {
    var old_ := if BlogKey in entries then entries[BlogKey] else StoreEntry(None, None, None);
    entries[BlogKey := old_.(posts := Some(WithContent(StoredPosts(entries, BlogKey), postId, html)))]
  }

  /** Saving twice with the same text is saving once. */
  lemma SaveIdempotent(entries: map<string, StoreEntry>, postId: string, html: string)
    ensures SavedEntries(SavedEntries(entries, postId, html), postId, html) == SavedEntries(entries, postId, html)
  {
    var once := SavedEntries(entries, postId, html);
    var posts := StoredPosts(once, BlogKey);
    assert WithContent(posts, postId, html) == posts;
  }

  /** After a save, every stored post with the id holds the saved text and the others are as they were. */
  lemma SaveThenRead(entries: map<string, StoreEntry>, postId: string, html: string)
    ensures var before := StoredPosts(entries, BlogKey);
      var after := StoredPosts(SavedEntries(entries, postId, html), BlogKey);
      |after| == |before| &&
      (forall i :: 0 <= i < |after| ==> after[i].id == before[i].id) &&
      (forall i :: 0 <= i < |after| && after[i].id == postId ==> after[i].content == html) &&
      (forall i :: 0 <= i < |after| && after[i].id != postId ==> after[i] == before[i])
  {
  }

  /** After a save of a post found by its slug, the same slug finds that post holding the saved text. */
  lemma SaveThenShown(entries: map<string, StoreEntry>, slug: string, html: string)
    requires FindPostBySlug(StoredPosts(entries, BlogKey), slug).Some?
    ensures var p := FindPostBySlug(StoredPosts(entries, BlogKey), slug).value;
      FindPostBySlug(StoredPosts(SavedEntries(entries, p.id, html), BlogKey), slug) == Some(p.(content := html))
  {
    var before := StoredPosts(entries, BlogKey);
    var p := FindPostBySlug(before, slug).value;
    var after := StoredPosts(SavedEntries(entries, p.id, html), BlogKey);
    assert after == WithContent(before, p.id, html);
    assert forall i :: 0 <= i < |after| ==> after[i].slug == before[i].slug;
    var k := SlugIndex(before, slug).value;
    var k' := SlugIndex(after, slug).value;
    assert k' == k;
  }

  // ---------------------------------------------------------------- related posts

  /** A post is related to the current one: same category, different slug. */
  predicate RelatedTo(p: BlogPost, current: Option<BlogPost>) {
    current.Some? && p.category == current.value.category && p.slug != current.value.slug
  }

  function RelatedTest(current: Option<BlogPost>): BlogPost -> bool {
    (p: BlogPost) => RelatedTo(p, current)
  }

  function PublishedTest(): BlogPost -> bool {
    (p: BlogPost) => p.status == Published
  }

  function RelatedAndPublished(current: Option<BlogPost>): BlogPost -> bool {
    (p: BlogPost) => RelatedTo(p, current) && p.status == Published
  }

  /**
   * The related posts under the article: at most three published posts of the
   * same category and another slug, the first three such in stored order.
   */
  function RelatedPosts(posts: seq<BlogPost>, current: Option<BlogPost>): (r: seq<BlogPost>)
    ensures |r| <= 3
    ensures r == Take(Filter(posts, RelatedAndPublished(current)), 3)
    ensures forall i :: 0 <= i < |r| ==> RelatedTo(r[i], current) && r[i].status == Published
    ensures IsSubsequence(r, posts)
    ensures current.None? ==> r == []
  {
    var step := Filter(posts, RelatedTest(current));
    FilterFilter(posts, RelatedTest(current), PublishedTest(), RelatedAndPublished(current));
    var all := Filter(step, PublishedTest());
    var r := Take(all, 3);
    FilterIsSubsequence(posts, RelatedAndPublished(current));
    PrefixIsSubsequence(all, |r|);
    SubsequenceTransitive(r, all, posts);
    FilterKeepsNoneIff(posts, RelatedAndPublished(current));
    r
  }

  /** A published post of the same category and another slug is listed unless three come before it. */
  lemma RelatedPostsComplete(posts: seq<BlogPost>, current: Option<BlogPost>, k: nat)
    requires k < |posts| && RelatedTo(posts[k], current) && posts[k].status == Published
    requires |Filter(posts[..k], RelatedAndPublished(current))| < 3
    ensures posts[k] in RelatedPosts(posts, current)
  {
    var p := RelatedAndPublished(current);
    assert posts == posts[..k] + posts[k..];
    FilterAppend(posts[..k], posts[k..], p);
    assert Filter(posts[k..], p) == [posts[k]] + Filter(posts[k + 1..], p) by {
      assert posts[k..][0] == posts[k] && posts[k..][1..] == posts[k + 1..];
    }
    var before := Filter(posts[..k], p);
    var all := Filter(posts, p);
    assert all[|before|] == posts[k];
  }

  // ---------------------------------------------------------------- the page's state

  /**
   * The single-post page: the store it reads and writes, the path of its URL
   * and that path's last segment, whether the editor is open, the editor's text, and whether the editor has
   * mounted (the editor reference is set). The post is looked up in the store
   * again on every render.
   */
  class SinglePostView {
    const store: Store
    const path: string
    const slug: string
    var editing: bool
    var editorValue: string
    var editorMounted: bool

    /** `blogPosts.find(post => post.slug === <last path segment>)` over the current store. */
    function Post(): Option<BlogPost>
      reads store
    {
      FindPostBySlug(StoredPosts(store.entries, BlogKey), slug)
    }

    constructor(store: Store, path: string)
      ensures slug == LastSegment(path)
      ensures this.store == store && this.path == path
      ensures !editing && editorValue == "" && !editorMounted
    {
      slug := LastSegment(path);
      this.store := store;
      this.path := path;
      editing := false;
      editorValue := "";
      editorMounted := false;
    }

    /** The edit button flips between the article and the editor. */
    method ToggleEditing()
      modifies this
      ensures editing == !old(editing)
      ensures editorValue == old(editorValue) && editorMounted == old(editorMounted)
    {
      editing := !editing;
    }

    /** The editor's `onMount`: it starts from the post's stored HTML. */
    method MountEditor()
      requires Post().Some? && editing
      modifies this
      ensures editorMounted && editorValue == Post().value.content
      ensures editing == old(editing)
    {
      editorMounted := true;
      editorValue := Post().value.content;
    }

    /** The editor's `onChange`; an undefined value becomes "". */
    method EditorChanged(value: Option<string>)
      modifies this
      ensures editorValue == (if value.Some? then value.value else "")
      ensures editing == old(editing) && editorMounted == old(editorMounted)
    {
      editorValue := if value.Some? then value.value else "";
    }

    /** `handleAddHtml`: once the editor is mounted, a known kind appends its snippet; anything else changes nothing. */
    method AddHtml(kind: string)
      modifies this
      ensures editorMounted && Snippet(kind).Some? ==> editorValue == old(editorValue) + Snippet(kind).value
      ensures !editorMounted || Snippet(kind).None? ==> editorValue == old(editorValue)
      ensures editing == old(editing) && editorMounted == old(editorMounted)
    {
      if !editorMounted {
        return;
      }
      match Snippet(kind)
      case Some(html) =>
        editorValue := editorValue + html;
      case None =>
    }

    /**
     * `handle_save`: writes the editor's text into the stored post and closes
     * the editor; the page then shows the post with the saved text.
     */
    method Save(component: Option<Component>)
      modifies this, store
      ensures SaveAllowed(old(Post()), component) ==>
        store.entries == SavedEntries(old(store.entries), old(Post()).value.id, editorValue) && !editing
      ensures SaveAllowed(old(Post()), component) ==> Post() == Some(old(Post()).value.(content := editorValue))
      ensures !SaveAllowed(old(Post()), component) ==> store.entries == old(store.entries) && editing == old(editing)
      ensures editorValue == old(editorValue) && editorMounted == old(editorMounted)
    {
      var post := Post();
      if !SaveAllowed(post, component) {
        return;
      }
      SaveThenShown(store.entries, slug, editorValue);
      store.entries := SavedEntries(store.entries, post.value.id, editorValue);
      editing := false;
    }
  }
}
