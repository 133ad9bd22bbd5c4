/**
 * The dashboard's content logic (ui.tsx): the overview counters, the search
 * over posts and categories, and the category and post commands. Each command
 * is first a function from the lists before to the lists after; the class
 * `BlogDashboard` holds the lists the dashboard keeps in component state and
 * its methods reassign them as those functions say.
 */
module Dashboard {
  import opened Wrappers
  import opened Text
  import opened Seqs
  import opened Slug
  import opened Content

  /** Why a command left the lists as they were (an alert, a cancelled confirm or a silent return). */
  datatype Rejection =
    | DuplicateCategoryName
    | DefaultCategoryProtected
    | NotConfirmed
    | NoUser
    | NoCategory
    | NoImage
    | MissingFields

  // ---------------------------------------------------------------- overview

  predicate IsPublished(p: BlogPost) { p.status == Published }
  predicate IsDraft(p: BlogPost) { p.status == Draft }

  /** The overview counters: published and draft posts are counted by exact status. */
  function Stats(posts: seq<BlogPost>, categories: seq<BlogCategory>): (s: BlogStats)
    ensures s.totalPosts == |posts| && s.categories == |categories| && s.comments == 0
    ensures s.publishedPosts == |Positions(posts, IsPublished)|
    ensures s.draftPosts == |Positions(posts, IsDraft)|
    ensures s.publishedPosts + s.draftPosts <= s.totalPosts
    ensures s.publishedPosts == s.totalPosts <==> forall i :: 0 <= i < |posts| ==> IsPublished(posts[i])
    ensures s.draftPosts == s.totalPosts <==> forall i :: 0 <= i < |posts| ==> IsDraft(posts[i])
    ensures s.publishedPosts == 0 <==> forall i :: 0 <= i < |posts| ==> !IsPublished(posts[i])
  {
    FilterDisjointCounts(posts, IsPublished, IsDraft);
    FilterKeepsAllIff(posts, IsPublished);
    FilterKeepsAllIff(posts, IsDraft);
    FilterKeepsNoneIff(posts, IsPublished);
    FilterCounts(posts, IsPublished);
    FilterCounts(posts, IsDraft);
    BlogStats(|posts|, |Filter(posts, IsPublished)|, |Filter(posts, IsDraft)|, |categories|, 0)
  }

  // ---------------------------------------------------------------- search

  /** A post matches when the lower-cased term occurs in its lower-cased title, content, author, category or a tag. */
  predicate PostMatches(p: BlogPost, term: string) {
    var t := Lower(term);
    Contains(Lower(p.title), t) || Contains(Lower(p.content), t) || Contains(Lower(p.author), t)
    || Contains(Lower(p.category), t) || exists k :: 0 <= k < |p.tags| && Contains(Lower(p.tags[k]), t)
  }

  function PostMatcher(term: string): BlogPost -> bool {
    (p: BlogPost) => PostMatches(p, term)
  }

  /** The posts table under the search box. */
  function FilteredPosts(posts: seq<BlogPost>, term: string): (r: seq<BlogPost>)
    ensures IsSubsequence(r, posts)
    ensures forall i :: 0 <= i < |r| ==> PostMatches(r[i], term)
    ensures forall i :: 0 <= i < |posts| ==> (posts[i] in r <==> PostMatches(posts[i], term))
  {
    FilterIsSubsequence(posts, PostMatcher(term));
    FilterMembership(posts, PostMatcher(term));
    Filter(posts, PostMatcher(term))
  }

  /** An empty search box shows every post. */
  lemma EmptySearchShowsAllPosts(posts: seq<BlogPost>)
    ensures FilteredPosts(posts, "") == posts
  {
    forall i | 0 <= i < |posts| ensures PostMatcher("")(posts[i]) {
      ContainsEmpty(Lower(posts[i].title));
    }
    FilterKeepsAll(posts, PostMatcher(""));
  }

  /** Typing more (a term containing the previous one) only narrows the table. */
  lemma SearchNarrowsPosts(posts: seq<BlogPost>, short: string, long: string)
    requires Contains(long, short)
    ensures IsSubsequence(FilteredPosts(posts, long), FilteredPosts(posts, short))
    ensures |FilteredPosts(posts, long)| <= |FilteredPosts(posts, short)|
  {
    LowerKeepsContains(long, short);
    var lt, st := Lower(long), Lower(short);
    forall p | p in posts && PostMatcher(long)(p) ensures PostMatcher(short)(p) {
      if Contains(Lower(p.title), lt) { ContainsTransitive(Lower(p.title), lt, st); }
      else if Contains(Lower(p.content), lt) { ContainsTransitive(Lower(p.content), lt, st); }
      else if Contains(Lower(p.author), lt) { ContainsTransitive(Lower(p.author), lt, st); }
      else if Contains(Lower(p.category), lt) { ContainsTransitive(Lower(p.category), lt, st); }
      else {
        var k :| 0 <= k < |p.tags| && Contains(Lower(p.tags[k]), lt);
        ContainsTransitive(Lower(p.tags[k]), lt, st);
      }
    }
    FilterMonotone(posts, PostMatcher(long), PostMatcher(short));
    SubsequenceLength(FilteredPosts(posts, long), FilteredPosts(posts, short));
  }

  /** A category matches when the lower-cased term occurs in its lower-cased name or description. */
  predicate CategoryMatches(c: BlogCategory, term: string) {
    Contains(Lower(c.name), Lower(term)) || Contains(Lower(c.description), Lower(term))
  }

  function CategoryMatcher(term: string): BlogCategory -> bool {
    (c: BlogCategory) => CategoryMatches(c, term)
  }

  /** The categories table under the same search box. */
  function FilteredCategories(categories: seq<BlogCategory>, term: string): (r: seq<BlogCategory>)
    ensures IsSubsequence(r, categories)
    ensures forall i :: 0 <= i < |r| ==> CategoryMatches(r[i], term)
    ensures forall i :: 0 <= i < |categories| ==> (categories[i] in r <==> CategoryMatches(categories[i], term))
  {
    FilterIsSubsequence(categories, CategoryMatcher(term));
    FilterMembership(categories, CategoryMatcher(term));
    Filter(categories, CategoryMatcher(term))
  }

  /** An empty search box shows every category. */
  lemma EmptySearchShowsAllCategories(categories: seq<BlogCategory>)
    ensures FilteredCategories(categories, "") == categories
  {
    forall i | 0 <= i < |categories| ensures CategoryMatcher("")(categories[i]) {
      ContainsEmpty(Lower(categories[i].name));
    }
    FilterKeepsAll(categories, CategoryMatcher(""));
  }

  // ---------------------------------------------------------------- categories

  /** Some category's name equals `name` up to ASCII case. */
  predicate NameTaken(categories: seq<BlogCategory>, name: string) {
    exists i :: 0 <= i < |categories| && Lower(categories[i].name) == Lower(name)
  }

  /** No two categories share a name up to ASCII case. */
  predicate NamesDistinct(categories: seq<BlogCategory>) {
    forall i, j :: 0 <= i < j < |categories| ==> Lower(categories[i].name) != Lower(categories[j].name)
  }

  /** Adding a category: refused when the name is taken, otherwise appended with the slug of its name. */
  function AddCategoryTo(categories: seq<BlogCategory>, name: string, description: string, newId: string)
    : (r: Result<seq<BlogCategory>, Rejection>)
    ensures r.Err? <==> NameTaken(categories, name)
    ensures r.Err? ==> r.error == DuplicateCategoryName
    ensures r.Ok? ==> |r.value| == |categories| + 1 && r.value[..|categories|] == categories
    ensures r.Ok? ==> var c := r.value[|categories|];
      c.id == newId && c.name == name && c.description == description &&
      c.slug == CreateSlug(name) && IsSlugText(c.slug)
  {
    if NameTaken(categories, name) then Err(DuplicateCategoryName)
    else Ok(categories + [BlogCategory(newId, name, CreateSlug(name), description)])
  }

  /** Adding keeps names distinct, and the name just added is then taken. */
  lemma AddCategoryKeepsNamesDistinct(categories: seq<BlogCategory>, name: string, description: string, newId: string)
    requires NamesDistinct(categories)
    requires AddCategoryTo(categories, name, description, newId).Ok?
    ensures NamesDistinct(AddCategoryTo(categories, name, description, newId).value)
    ensures NameTaken(AddCategoryTo(categories, name, description, newId).value, name)
  {
    var r := AddCategoryTo(categories, name, description, newId).value;
    assert r[|categories|].name == name;
    forall i, j | 0 <= i < j < |r| ensures Lower(r[i].name) != Lower(r[j].name) {
      if j == |categories| {
        assert r[i] == categories[i];
      } else {
        assert r[i] == categories[i] && r[j] == categories[j];
      }
    }
  }

  /** Submitting the same name twice, in any case, adds it once. */
  lemma AddCategoryTwiceRejected(categories: seq<BlogCategory>, name: string, again: string, d1: string, d2: string,
                                 id1: string, id2: string)
    requires AddCategoryTo(categories, name, d1, id1).Ok?
    requires Lower(again) == Lower(name)
    ensures AddCategoryTo(AddCategoryTo(categories, name, d1, id1).value, again, d2, id2) == Err(DuplicateCategoryName)
  {
    var r := AddCategoryTo(categories, name, d1, id1).value;
    assert Lower(r[|categories|].name) == Lower(again);
  }

  /** Editing a category: the one with the id gets the new name and description; ids and slugs stay. */
  function UpdateCategoryIn(categories: seq<BlogCategory>, categoryId: string, name: string, description: string)
    : (r: seq<BlogCategory>)
    ensures |r| == |categories|
    ensures forall i :: 0 <= i < |r| ==> r[i].id == categories[i].id && r[i].slug == categories[i].slug
    ensures forall i :: 0 <= i < |r| && categories[i].id == categoryId ==>
      r[i].name == name && r[i].description == description
    ensures forall i :: 0 <= i < |r| && categories[i].id != categoryId ==> r[i] == categories[i]
  {
    seq(|categories|, i requires 0 <= i < |categories| =>
      if categories[i].id == categoryId then categories[i].(name := name, description := description)
      else categories[i])
  }

  /** Submitting the same edit twice is submitting it once. */
  lemma UpdateCategoryIdempotent(categories: seq<BlogCategory>, categoryId: string, name: string, description: string)
    ensures var once := UpdateCategoryIn(categories, categoryId, name, description);
      UpdateCategoryIn(once, categoryId, name, description) == once
  {
  }

  /** The category field a lookup compares: `cat.id` or `cat.slug`. */
  datatype CategoryKey = ById | BySlug

  function KeyOf(c: BlogCategory, key: CategoryKey): string {
    match key
    case ById => c.id
    case BySlug => c.slug
  }

  /** The index `find(cat => cat.id === id)` or `find(cat => cat.slug === slug)` lands on. */
  function CategoryIndex(categories: seq<BlogCategory>, key: CategoryKey, value: string): (r: Option<nat>)
    ensures r.Some? ==> r.value < |categories| && KeyOf(categories[r.value], key) == value &&
                        forall j :: 0 <= j < r.value ==> KeyOf(categories[j], key) != value
    ensures r.None? <==> forall j :: 0 <= j < |categories| ==> KeyOf(categories[j], key) != value
  {
    FirstIndex(categories, (c: BlogCategory) => KeyOf(c, key) == value)
  }

  /** The category name orphaned posts move to: the uncategorized category's name, or the literal fallback. */
  function RehomeName(categories: seq<BlogCategory>): (n: string)
    ensures n != ""
    ensures match CategoryIndex(categories, BySlug, UncategorizedSlug)
      case Some(u) =>
        (categories[u].name != "" ==> n == categories[u].name) &&
        (categories[u].name == "" ==> n == UncategorizedName)
      case None => n == UncategorizedName
  {
    match CategoryIndex(categories, BySlug, UncategorizedSlug)
    case Some(u) => if categories[u].name != "" then categories[u].name else UncategorizedName
    case None => UncategorizedName
  }

  /** The default category (by slug) is the one `deleteCategory` refuses to remove. */
  predicate IsDefaultCategory(categories: seq<BlogCategory>, defaultSlug: string, categoryId: string) {
    match CategoryIndex(categories, ById, categoryId)
    case Some(k) => categories[k].slug == defaultSlug
    case None => false
  }

  /** Posts filed under `from` are refiled under `to`; the rest stay as they are. */
  function RefilePosts(posts: seq<BlogPost>, from: string, to: string): (r: seq<BlogPost>)
    ensures |r| == |posts|
    ensures forall i :: 0 <= i < |r| && posts[i].category == from ==> r[i] == posts[i].(category := to)
    ensures forall i :: 0 <= i < |r| && posts[i].category != from ==> r[i] == posts[i]
  {
    seq(|posts|, i requires 0 <= i < |posts| =>
      if posts[i].category == from then posts[i].(category := to) else posts[i])
  }

  function CategoryIdIsNot(id: string): BlogCategory -> bool {
    (c: BlogCategory) => c.id != id
  }

  /** The categories other than the one with the id, in their order. */
  function WithoutCategory(categories: seq<BlogCategory>, categoryId: string): (r: seq<BlogCategory>)
    ensures IsSubsequence(r, categories)
    ensures forall i :: 0 <= i < |r| ==> r[i].id != categoryId
    ensures forall i :: 0 <= i < |categories| ==> (categories[i] in r <==> categories[i].id != categoryId)
  {
    FilterIsSubsequence(categories, CategoryIdIsNot(categoryId));
    FilterMembership(categories, CategoryIdIsNot(categoryId));
    Filter(categories, CategoryIdIsNot(categoryId))
  }

  /** The two lists the dashboard keeps in state. */
  datatype Lists = Lists(posts: seq<BlogPost>, categories: seq<BlogCategory>)

  /**
   * Deleting a category: the default category is refused, a cancelled confirm
   * changes nothing, otherwise the category goes and its posts move to the
   * uncategorized category's name.
   */
  function DeleteCategoryFrom(posts: seq<BlogPost>, categories: seq<BlogCategory>, defaultSlug: string,
                              categoryId: string, confirmed: bool): (r: Result<Lists, Rejection>)
    ensures r == Err(DefaultCategoryProtected) <==> IsDefaultCategory(categories, defaultSlug, categoryId)
    ensures r == Err(NotConfirmed) <==> !IsDefaultCategory(categories, defaultSlug, categoryId) && !confirmed
    ensures r.Ok? ==> r.value.categories == WithoutCategory(categories, categoryId)
    ensures r.Ok? ==> match CategoryIndex(categories, ById, categoryId)
      case Some(k) => r.value.posts == RefilePosts(posts, categories[k].name, RehomeName(categories))
      case None => r.value.posts == posts
  {
    if IsDefaultCategory(categories, defaultSlug, categoryId) then Err(DefaultCategoryProtected)
    else if !confirmed then Err(NotConfirmed)
    else
      var moved := match CategoryIndex(categories, ById, categoryId)
        case Some(k) => RefilePosts(posts, categories[k].name, RehomeName(categories))
        case None => posts;
      Ok(Lists(moved, WithoutCategory(categories, categoryId)))
  }

  /** Every post is filed under the name of an existing category. */
  predicate PostsFiled(posts: seq<BlogPost>, categories: seq<BlogCategory>) {
    forall i :: 0 <= i < |posts| ==> exists j :: 0 <= j < |categories| && categories[j].name == posts[i].category
  }

  predicate IdsDistinct(categories: seq<BlogCategory>) {
    forall i, j :: 0 <= i < j < |categories| ==> categories[i].id != categories[j].id
  }

  /**
   * Deleting a category leaves no post filed under a missing category, as long
   * as the uncategorized category exists, has a name and is not the one deleted.
   */
  lemma DeleteCategoryKeepsPostsFiled(posts: seq<BlogPost>, categories: seq<BlogCategory>, defaultSlug: string,
                                      categoryId: string, confirmed: bool)
    requires PostsFiled(posts, categories) && IdsDistinct(categories)
    requires CategoryIndex(categories, BySlug, UncategorizedSlug).Some?
    requires var u := CategoryIndex(categories, BySlug, UncategorizedSlug).value;
      categories[u].id != categoryId && categories[u].name != ""
    requires DeleteCategoryFrom(posts, categories, defaultSlug, categoryId, confirmed).Ok?
    ensures var r := DeleteCategoryFrom(posts, categories, defaultSlug, categoryId, confirmed).value;
      PostsFiled(r.posts, r.categories)
  {
    var r := DeleteCategoryFrom(posts, categories, defaultSlug, categoryId, confirmed).value;
    var u := CategoryIndex(categories, BySlug, UncategorizedSlug).value;
    assert RehomeName(categories) == categories[u].name;
    assert r.categories == WithoutCategory(categories, categoryId);
    forall i | 0 <= i < |r.posts|
      ensures exists j :: 0 <= j < |r.categories| && r.categories[j].name == r.posts[i].category
    {
      var j :| 0 <= j < |categories| && categories[j].name == posts[i].category;
      match CategoryIndex(categories, ById, categoryId)
      case None =>
        NameSurvives(categories, categoryId, j);
      case Some(k) =>
        assert KeyOf(categories[k], ById) == categories[k].id == categoryId;
        if posts[i].category == categories[k].name {
          assert r.posts[i].category == categories[u].name;
          NameSurvives(categories, categoryId, u);
        } else {
          assert r.posts[i] == posts[i];
          NameSurvives(categories, categoryId, j);
        }
    }
  }

  /** A category other than the deleted one keeps its name among the remaining ones. */
  lemma NameSurvives(categories: seq<BlogCategory>, categoryId: string, j: nat)
    requires j < |categories| && categories[j].id != categoryId
    ensures var kept := WithoutCategory(categories, categoryId);
      exists j' :: 0 <= j' < |kept| && kept[j'].name == categories[j].name
  {
    var kept := WithoutCategory(categories, categoryId);
    assert categories[j] in kept;
    var j' :| 0 <= j' < |kept| && kept[j'] == categories[j];
  }

  /** Deleting the "Tech" category moves its posts to "Uncategorized" and leaves one category. */
  lemma DeleteTechCategory(posts: seq<BlogPost>, tech: BlogCategory, uncategorized: BlogCategory)
    requires tech == BlogCategory("2", "Tech", "tech", "")
    requires uncategorized == DefaultCategories[0]
    requires forall i :: 0 <= i < |posts| ==> posts[i].category == "Tech"
    ensures var r := DeleteCategoryFrom(posts, [uncategorized, tech], UncategorizedSlug, "2", true);
      r.Ok? && r.value.categories == [uncategorized]
      && forall i :: 0 <= i < |r.value.posts| ==> r.value.posts[i].category == UncategorizedName
  {
    var cats := [uncategorized, tech];
    assert cats[0].id != "2" by { assert cats[0].id[0] == '1'; }
    assert cats[1].id == "2";
    var k := CategoryIndex(cats, ById, "2");
    assert k.Some? && k.value < 2 && cats[k.value].id == "2";
    assert k == Some(1);
    assert CategoryIndex(cats, BySlug, UncategorizedSlug) == Some(0);
    assert Filter(cats, CategoryIdIsNot("2")) == [uncategorized] by {
      assert Filter(cats[1..], CategoryIdIsNot("2")) == [];
    }
  }

  // ---------------------------------------------------------------- posts

  /** The host page a post is shown on is registered under `blog/<slug>`. */
  function PostPageUrl(slug: string): string {
    "blog/" + slug
  }

  /** The index `getPages()?.find(page => page.url === url)` lands on. */
  function PageIndex(pages: seq<Page>, url: string): (r: Option<nat>)
    ensures r.Some? ==> r.value < |pages| && pages[r.value].url == url &&
                        forall j :: 0 <= j < r.value ==> pages[j].url != url
    ensures r.None? <==> forall j :: 0 <= j < |pages| ==> pages[j].url != url
  {
    FirstIndex(pages, (g: Page) => g.url == url)
  }

  /** `removePage` applied to the first page with the URL, when there is one. */
  function RemovePageAt(pages: seq<Page>, url: string): (r: seq<Page>)
    ensures |r| == if PageIndex(pages, url).Some? then |pages| - 1 else |pages|
    ensures PageIndex(pages, url).None? ==> r == pages
    ensures forall j :: 0 <= j < |pages| && pages[j].url != url ==> pages[j] in r
    ensures forall j :: 0 <= j < |r| ==> r[j] in pages
  {
    match PageIndex(pages, url)
    case None => pages
    case Some(k) =>
      var r := pages[..k] + pages[k + 1..];
      assert forall j :: 0 <= j < k ==> r[j] == pages[j];
      assert forall j :: k < j < |pages| ==> r[j - 1] == pages[j];
      r
  }

  function PostIdIsNot(id: string): BlogPost -> bool {
    (p: BlogPost) => p.id != id
  }

  /** The posts other than those with the id, in their order. */
  function WithoutPost(posts: seq<BlogPost>, postId: string): (r: seq<BlogPost>)
    ensures IsSubsequence(r, posts)
    ensures forall i :: 0 <= i < |r| ==> r[i].id != postId
    ensures forall i :: 0 <= i < |posts| ==> (posts[i] in r <==> posts[i].id != postId)
  {
    FilterIsSubsequence(posts, PostIdIsNot(postId));
    FilterMembership(posts, PostIdIsNot(postId));
    Filter(posts, PostIdIsNot(postId))
  }

  /** The posts list and the host's page registry. */
  datatype Site = Site(posts: seq<BlogPost>, pages: seq<Page>)

  /**
   * Deleting a post as written: the post goes only when confirmed, but the
   * page registered at `blog/<postId>` is removed whether or not it was.
   */
  function DeletePostAsWritten(posts: seq<BlogPost>, pages: seq<Page>, postId: string, confirmed: bool): (r: Site)
    ensures !confirmed ==> r.posts == posts
    ensures confirmed ==> r.posts == WithoutPost(posts, postId)
    ensures r.pages == RemovePageAt(pages, PostPageUrl(postId))
  {
    Site(if confirmed then WithoutPost(posts, postId) else posts, RemovePageAt(pages, PostPageUrl(postId)))
  }

  /** The index of the first post with the id. */
  function PostIndex(posts: seq<BlogPost>, postId: string): (r: Option<nat>)
    ensures r.Some? ==> r.value < |posts| && posts[r.value].id == postId &&
                        forall j :: 0 <= j < r.value ==> posts[j].id != postId
    ensures r.None? <==> forall j :: 0 <= j < |posts| ==> posts[j].id != postId
  {
    FirstIndex(posts, (p: BlogPost) => p.id == postId)
  }

  function UrlIsNot(url: string): Page -> bool {
    (g: Page) => g.url != url
  }

  /**
   * Deleting a post as intended: nothing changes unless confirmed; then the
   * post goes, and so do the pages registered under its slug.
   */
  function DeletePostFrom(posts: seq<BlogPost>, pages: seq<Page>, postId: string, confirmed: bool): (r: Site)
    ensures !confirmed ==> r == Site(posts, pages)
    ensures confirmed ==> r.posts == WithoutPost(posts, postId)
    ensures confirmed ==> match PostIndex(posts, postId)
      case Some(k) =>
        (forall j :: 0 <= j < |r.pages| ==> r.pages[j].url != PostPageUrl(posts[k].slug)) &&
        (forall j :: 0 <= j < |pages| && pages[j].url != PostPageUrl(posts[k].slug) ==> pages[j] in r.pages)
      case None => r.pages == pages
  {
    if !confirmed then Site(posts, pages)
    else match PostIndex(posts, postId)
      case None => Site(WithoutPost(posts, postId), pages)
      case Some(k) =>
        var url := PostPageUrl(posts[k].slug);
        FilterMembership(pages, UrlIsNot(url));
        Site(WithoutPost(posts, postId), Filter(pages, UrlIsNot(url)))
  }

  /** The fields `handleSubmit` of the add-post form reads. */
  datatype PostForm = PostForm(
    category: string,
    imagePreview: string,
    title: string,
    content: string,
    excerpt: string,
    tags: string,
    status: string)

  /** `post_<title>_<millis>`, `millis` being the decimal text of `Date.now()`. */
  function NewPostId(title: string, millis: string): (r: string)
    ensures |r| == |title| + |millis| + 6 && r[..5] == "post_"
    ensures r[5..5 + |title|] == title && r[5 + |title|] == '_' && r[6 + |title|..] == millis
  {
    "post_" + title + "_" + millis
  }

  /** Two posts with the same title added at different clock readings get different ids. */
  lemma NewPostIdsDiffer(title: string, m1: string, m2: string)
    requires m1 != m2
    ensures NewPostId(title, m1) != NewPostId(title, m2)
  {
    var a, b := NewPostId(title, m1), NewPostId(title, m2);
    if |m1| == |m2| {
      assert a[6 + |title|..] != b[6 + |title|..];
    }
  }

  /** The byline: first and last name when there is a first name (a missing last name prints "undefined"), else the e-mail. */
  function AuthorName(u: User): (r: string)
    ensures u.firstName == "" ==> r == u.email
    ensures u.firstName != "" ==>
      |r| > |u.firstName| && r[..|u.firstName|] == u.firstName && r[|u.firstName|] == ' ' &&
      r[|u.firstName| + 1..] == (if u.lastName.Some? then u.lastName.value else "undefined")
  {
    if u.firstName != "" then u.firstName + " " + (match u.lastName case Some(l) => l case None => "undefined")
    else u.email
  }

  function TrimAll(parts: seq<string>): (r: seq<string>)
    ensures |r| == |parts| && forall i {:trigger r[i]} :: 0 <= i < |r| ==> r[i] == Trim(parts[i])
  {
    seq(|parts|, i requires 0 <= i < |parts| => Trim(parts[i]))
  }

  /** A tag field split at commas with every tag trimmed. */
  function SplitTags(field: string): (r: seq<string>)
    ensures |r| >= 1 && |r| == |Split(field, ',')|
    ensures forall i {:trigger r[i]} :: 0 <= i < |r| ==> r[i] == Trim(Split(field, ',')[i])
    ensures forall i :: 0 <= i < |r| ==> IsTrimmed(r[i])
    ensures forall i :: 0 <= i < |r| ==> Contains(Split(field, ',')[i], r[i])
  {
    TrimAll(Split(field, ','))
  }

  /** The host page registered for a new post. */
  function PostPage(p: BlogPost): (g: Page)
    ensures g.id == p.id && g.name == p.title && g.description == p.excerpt
    ensures g.url == PostPageUrl(p.slug) && g.hidden
  {
    Page(p.id, p.title, p.excerpt, PostPageUrl(p.slug), true)
  }

  /** Each post's slug is the slug of its title. */
  predicate SlugsFollowTitles(posts: seq<BlogPost>) {
    forall i :: 0 <= i < |posts| ==> posts[i].slug == CreateSlug(posts[i].title)
  }

  /**
   * Adding a post: no user, no category, no image, or an empty title or
   * content each stop it, in that order; otherwise the post is appended and
   * its hidden page registered under `blog/<slug>`.
   */
  function AddPostTo(posts: seq<BlogPost>, pages: seq<Page>, user: Option<User>, form: PostForm,
                     millis: string, now: string, imageUrl: string): (r: Result<Site, Rejection>)
    ensures r == Err(NoUser) <==> user.None?
    ensures r == Err(NoCategory) <==> user.Some? && form.category == ""
    ensures r == Err(NoImage) <==> user.Some? && form.category != "" && form.imagePreview == ""
    ensures r == Err(MissingFields) <==>
      user.Some? && form.category != "" && form.imagePreview != "" && (form.title == "" || form.content == "")
    ensures r.Ok? ==>
      |r.value.posts| == |posts| + 1 && r.value.posts[..|posts|] == posts &&
      r.value.pages == pages + [PostPage(r.value.posts[|posts|])]
    ensures r.Ok? ==> var p := r.value.posts[|posts|];
      p.id == NewPostId(form.title, millis) && p.title == form.title && p.content == form.content &&
      p.excerpt == form.excerpt && p.category == form.category && p.featuredImage == imageUrl &&
      p.author == AuthorName(user.value) && p.createdAt == now && p.updatedAt == now &&
      p.tags == SplitTags(form.tags) && p.status == Lower(form.status)
    ensures r.Ok? ==> var p := r.value.posts[|posts|];
      p.slug == CreateSlug(p.title) && IsSlugText(p.slug) && |p.slug| < |p.id|
  {
    if user.None? then Err(NoUser)
    else if form.category == "" then Err(NoCategory)
    else if form.imagePreview == "" then Err(NoImage)
    else if form.title == "" || form.content == "" then Err(MissingFields)
    else
      var p := BlogPost(NewPostId(form.title, millis), form.title, form.content, form.excerpt, AuthorName(user.value),
                        form.category, SplitTags(form.tags), Lower(form.status), imageUrl, now, now, CreateSlug(form.title));
      Ok(Site(posts + [p], pages + [PostPage(p)]))
  }

  /** The fields the edit form's `UpdatePost` reads; category, status and image come from the form's state. */
  datatype EditForm = EditForm(
    title: string,
    excerpt: string,
    tags: string,
    status: string,
    category: string,
    featuredImage: string)

  /**
   * Saving an edit with the given tag list: the post with the id takes the
   * form's fields, a slug of its new title and a new update time; its id,
   * content, author and creation time stay, and the other posts are untouched.
   */
  function EditPostIn(posts: seq<BlogPost>, postId: string, form: EditForm, now: string, tags: seq<string>)
    : (r: seq<BlogPost>)
    ensures |r| == |posts|
    ensures forall i :: 0 <= i < |r| ==>
      r[i].id == posts[i].id && r[i].content == posts[i].content &&
      r[i].author == posts[i].author && r[i].createdAt == posts[i].createdAt
    ensures forall i :: 0 <= i < |r| && posts[i].id == postId ==>
      r[i].title == form.title && r[i].excerpt == form.excerpt && r[i].tags == tags &&
      r[i].status == form.status && r[i].category == form.category &&
      r[i].featuredImage == form.featuredImage && r[i].updatedAt == now &&
      r[i].slug == CreateSlug(form.title) && IsSlugText(r[i].slug)
    ensures forall i :: 0 <= i < |r| && posts[i].id != postId ==> r[i] == posts[i]
  {
    seq(|posts|, i requires 0 <= i < |posts| =>
      if posts[i].id == postId then
        posts[i].(title := form.title, excerpt := form.excerpt, tags := tags, status := form.status,
                  slug := CreateSlug(form.title), featuredImage := form.featuredImage,
                  category := form.category, updatedAt := now)
      else posts[i])
  }

  /** `UpdatePost` as written: the tag field is split at commas and not trimmed. */
  function UpdatePostAsWritten(posts: seq<BlogPost>, postId: string, form: EditForm, now: string): (r: seq<BlogPost>)
    ensures |r| == |posts|
    ensures forall i :: 0 <= i < |r| && posts[i].id == postId ==>
      r[i].tags == Split(form.tags, ',') && |r[i].tags| >= 1 && Join(r[i].tags, ',') == form.tags &&
      forall k :: 0 <= k < |r[i].tags| ==> ',' !in r[i].tags[k]
    ensures forall i :: 0 <= i < |r| && posts[i].id == postId ==>
      r[i] == posts[i].(title := form.title, excerpt := form.excerpt, tags := r[i].tags, status := form.status,
                        slug := CreateSlug(form.title), featuredImage := form.featuredImage,
                        category := form.category, updatedAt := now)
    ensures forall i :: 0 <= i < |r| && posts[i].id != postId ==> r[i] == posts[i]
  {
    EditPostIn(posts, postId, form, now, Split(form.tags, ','))
  }

  /** `UpdatePost` as intended: tags are split and trimmed as when the post was added. */
  function UpdatePostIn(posts: seq<BlogPost>, postId: string, form: EditForm, now: string): (r: seq<BlogPost>)
    ensures |r| == |posts|
    ensures forall i :: 0 <= i < |r| && posts[i].id == postId ==> r[i].tags == SplitTags(form.tags)
  {
    EditPostIn(posts, postId, form, now, SplitTags(form.tags))
  }

  /** Saving the same edit twice is saving it once. */
  lemma UpdatePostIdempotent(posts: seq<BlogPost>, postId: string, form: EditForm, now: string)
    ensures var once := UpdatePostIn(posts, postId, form, now);
      UpdatePostIn(once, postId, form, now) == once
  {
    var once := UpdatePostIn(posts, postId, form, now);
    var twice := UpdatePostIn(once, postId, form, now);
    forall i | 0 <= i < |posts| ensures twice[i] == once[i] {
    }
  }

  /** The tag field the edit form starts from: the tags joined with ", ". */
  function TagsField(tags: seq<string>): (r: string)
    ensures |tags| == 0 ==> r == ""
    ensures |tags| == 1 ==> r == tags[0]
    ensures |tags| > 1 ==> |r| > |tags[0]| + 1 && r[..|tags[0]| + 2] == tags[0] + ", "
  {
    if |tags| == 0 then "" else if |tags| == 1 then tags[0] else tags[0] + ", " + TagsField(tags[1..])
  }

  /** The comma-separated parts of a joined tag field: every tag after the first carries the space of ", ". */
  function SpacedTags(tags: seq<string>): (r: seq<string>)
    requires |tags| >= 1
    ensures |r| == |tags| && r[0] == tags[0]
    ensures forall i :: 1 <= i < |r| ==> r[i] == " " + tags[i]
  {
    seq(|tags|, i requires 0 <= i < |tags| => if i == 0 then tags[0] else " " + tags[i])
  }

  /** Joining with ", " is joining the spaced parts with ','. */
  lemma {:induction false} TagsFieldIsJoin(tags: seq<string>)
    requires |tags| >= 1
    ensures TagsField(tags) == Join(SpacedTags(tags), ',')
    decreases |tags|
  {
    if |tags| > 1 {
      TagsFieldIsJoin(tags[1..]);
      var rest := SpacedTags(tags[1..]);
      var all := SpacedTags(tags);
      assert all[1..] == [" " + rest[0]] + rest[1..];
      assert Join(all[1..], ',') == " " + Join(rest, ',') by {
        if |rest| > 1 {
          assert Join(all[1..], ',') == (" " + rest[0]) + [','] + Join(all[1..][1..], ',');
          assert all[1..][1..] == rest[1..];
          assert Join(rest, ',') == rest[0] + [','] + Join(rest[1..], ',');
        }
      }
    }
  }

  /**
   * Saving the edit form untouched turns the tags ["a", "b"] into ["a", " b"]:
   * the as-written split keeps the space the join put in.
   */
  lemma UntouchedEditAddsSpaces(tags: seq<string>)
    requires tags == ["a", "b"]
    ensures Split(TagsField(tags), ',') == ["a", " b"] != tags
  {
    TagsFieldIsJoin(tags);
    SplitJoin(SpacedTags(tags), ',');
    var spaced := SpacedTags(tags);
    assert spaced[1] == " " + "b" == " b";
    assert spaced == ["a", " b"];
    assert " b" != "b";
  }

  /**
   * With the intended split the untouched edit form gives the tags back: any
   * non-empty list of trimmed tags without commas survives the round trip.
   */
  lemma TagsFieldRoundTrip(tags: seq<string>)
    requires |tags| >= 1
    requires forall i :: 0 <= i < |tags| ==> ',' !in tags[i] && IsTrimmed(tags[i])
    ensures SplitTags(TagsField(tags)) == tags
  {
    SplitTagsField(tags);
    TrimSpacedTags(tags);
  }

  /** The as-written split of a joined tag field: the spaced parts. */
  lemma SplitTagsField(tags: seq<string>)
    requires |tags| >= 1
    requires forall i :: 0 <= i < |tags| ==> ',' !in tags[i]
    ensures Split(TagsField(tags), ',') == SpacedTags(tags)
  {
    TagsFieldIsJoin(tags);
    var spaced := SpacedTags(tags);
    forall i | 0 <= i < |spaced| ensures ',' !in spaced[i] {
      if i > 0 {
        assert spaced[i] == " " + tags[i];
      }
    }
    SplitJoin(spaced, ',');
  }

  /** Trimming the spaced parts of trimmed tags gives the tags. */
  lemma TrimSpacedTags(tags: seq<string>)
    requires |tags| >= 1
    requires forall i :: 0 <= i < |tags| ==> IsTrimmed(tags[i])
    ensures TrimAll(SpacedTags(tags)) == tags
  {
    var r := TrimAll(SpacedTags(tags));
    forall i | 0 <= i < |tags| ensures r[i] == tags[i] {
      TrimSpacedTagAt(tags, i);
    }
  }

  lemma TrimSpacedTagAt(tags: seq<string>, i: nat)
    requires i < |tags| && IsTrimmed(tags[i])
    ensures TrimAll(SpacedTags(tags))[i] == tags[i]
  {
    var spaced := SpacedTags(tags);
    assert TrimAll(spaced)[i] == Trim(spaced[i]);
    if i > 0 {
      TrimSpacedTag(tags[i], spaced[i]);
    } else {
      TrimOfTrimmed(tags[0]);
    }
  }

  lemma TrimSpacedTag(tag: string, part: string)
    requires IsTrimmed(tag) && part == " " + tag
    ensures Trim(part) == tag
  {
    TrimOfTrimmed(tag);
    TrimLeadingSpace(tag);
  }

  /** Every post just added is edited back to its own tags by the intended `UpdatePost` from the untouched form. */
  lemma EditOfNewPostKeepsTags(posts: seq<BlogPost>, pages: seq<Page>, user: Option<User>, form: PostForm,
                               millis: string, now: string, imageUrl: string, edit: EditForm, later: string)
    requires AddPostTo(posts, pages, user, form, millis, now, imageUrl).Ok?
    requires edit.tags == TagsField(AddPostTo(posts, pages, user, form, millis, now, imageUrl).value.posts[|posts|].tags)
    ensures var added := AddPostTo(posts, pages, user, form, millis, now, imageUrl).value.posts;
      UpdatePostIn(added, added[|posts|].id, edit, later)[|posts|].tags == added[|posts|].tags
  {
    var added := AddPostTo(posts, pages, user, form, millis, now, imageUrl).value.posts;
    var tags := added[|posts|].tags;
    var parts := Split(form.tags, ',');
    forall i | 0 <= i < |tags| ensures ',' !in tags[i] && IsTrimmed(tags[i]) {
      ContainsNoChar(parts[i], tags[i], ',');
    }
    TagsFieldRoundTrip(tags);
  }

  /**
   * As written, deleting a post just added leaves its page registered, even
   * when confirmed: the lookup is by `blog/<id>`, the page sits at
   * `blog/<slug>`, and a slug is always shorter than the id. A cancelled
   * delete still removes whatever page sits at `blog/<id>`.
   */
  lemma DeleteAsWrittenLeavesPage(posts: seq<BlogPost>, pages: seq<Page>, user: Option<User>, form: PostForm,
                                  millis: string, now: string, imageUrl: string)
    requires AddPostTo(posts, pages, user, form, millis, now, imageUrl).Ok?
    ensures var s := AddPostTo(posts, pages, user, form, millis, now, imageUrl).value;
      var p := s.posts[|posts|];
      PostPage(p) in DeletePostAsWritten(s.posts, s.pages, p.id, true).pages
    ensures forall postId :: PageIndex(pages, PostPageUrl(postId)).Some? ==>
      |DeletePostAsWritten(posts, pages, postId, false).pages| == |pages| - 1
  {
    var s := AddPostTo(posts, pages, user, form, millis, now, imageUrl).value;
    var p := s.posts[|posts|];
    assert |PostPageUrl(p.slug)| < |PostPageUrl(p.id)|;
    assert s.pages[|pages|] == PostPage(p);
  }

  /**
   * As intended, deleting a post just added (under a fresh id) removes its
   * page and no other, and a cancelled delete changes nothing.
   */
  lemma DeleteRemovesPageOfNewPost(posts: seq<BlogPost>, pages: seq<Page>, user: Option<User>, form: PostForm,
                                   millis: string, now: string, imageUrl: string)
    requires AddPostTo(posts, pages, user, form, millis, now, imageUrl).Ok?
    requires forall i :: 0 <= i < |posts| ==> posts[i].id != NewPostId(form.title, millis)
    ensures var s := AddPostTo(posts, pages, user, form, millis, now, imageUrl).value;
      var p := s.posts[|posts|];
      var after := DeletePostFrom(s.posts, s.pages, p.id, true);
      (forall i :: 0 <= i < |after.posts| ==> after.posts[i].id != p.id) &&
      (forall j :: 0 <= j < |after.pages| ==> after.pages[j].url != PostPageUrl(p.slug)) &&
      (forall j :: 0 <= j < |pages| && pages[j].url != PostPageUrl(p.slug) ==> pages[j] in after.pages) &&
      DeletePostFrom(s.posts, s.pages, p.id, false) == s
  {
    var s := AddPostTo(posts, pages, user, form, millis, now, imageUrl).value;
    var p := s.posts[|posts|];
    assert forall i :: 0 <= i < |posts| ==> s.posts[i] == posts[i];
    assert PostIndex(s.posts, p.id) == Some(|posts|);
    assert forall j :: 0 <= j < |pages| ==> s.pages[j] == pages[j];
  }

  /** Adding a post keeps every slug the slug of its title. */
  lemma AddPostKeepsSlugs(posts: seq<BlogPost>, pages: seq<Page>, user: Option<User>, form: PostForm,
                          millis: string, now: string, imageUrl: string)
    requires SlugsFollowTitles(posts)
    requires AddPostTo(posts, pages, user, form, millis, now, imageUrl).Ok?
    ensures SlugsFollowTitles(AddPostTo(posts, pages, user, form, millis, now, imageUrl).value.posts)
  {
    var r := AddPostTo(posts, pages, user, form, millis, now, imageUrl).value.posts;
    forall i | 0 <= i < |r| ensures r[i].slug == CreateSlug(r[i].title) {
      if i < |posts| {
        assert r[i] == r[..|posts|][i] == posts[i];
      }
    }
  }

  /** Editing a post keeps every slug the slug of its title. */
  lemma EditPostKeepsSlugs(posts: seq<BlogPost>, postId: string, form: EditForm, now: string, tags: seq<string>)
    requires SlugsFollowTitles(posts)
    ensures SlugsFollowTitles(EditPostIn(posts, postId, form, now, tags))
  {
  }

  /** Deleting a post or a category keeps every slug the slug of its title. */
  lemma DeletesKeepSlugs(posts: seq<BlogPost>, pages: seq<Page>, categories: seq<BlogCategory>, defaultSlug: string,
                         id: string, confirmed: bool)
    requires SlugsFollowTitles(posts)
    ensures SlugsFollowTitles(DeletePostFrom(posts, pages, id, confirmed).posts)
    ensures DeleteCategoryFrom(posts, categories, defaultSlug, id, confirmed).Ok? ==>
      SlugsFollowTitles(DeleteCategoryFrom(posts, categories, defaultSlug, id, confirmed).value.posts)
  {
    var kept := WithoutPost(posts, id);
    forall i | 0 <= i < |kept| ensures kept[i].slug == CreateSlug(kept[i].title) {
      SubsequenceMembers(kept, posts);
    }
  }

  // ---------------------------------------------------------------- the dashboard's state

  /**
   * The dashboard component's state. The lists start from the "Blog" store
   * entry (a stored list is kept even when empty) or from the defaults.
   */
  class BlogDashboard {
    var posts: seq<BlogPost>
    var categories: seq<BlogCategory>
    var blogSettings: BlogSettings
    /** The host's page registry, which the post commands write. */
    var pages: seq<Page>

    constructor(stored: Option<StoreEntry>, seedPosts: seq<BlogPost>, pages: seq<Page>)
      ensures posts == if stored.Some? && stored.value.posts.Some? then stored.value.posts.value else seedPosts
      ensures categories ==
        if stored.Some? && stored.value.categories.Some? then stored.value.categories.value else DefaultCategories
      ensures blogSettings ==
        if stored.Some? && stored.value.blogSettings.Some? then stored.value.blogSettings.value else DefaultSettings
      ensures this.pages == pages
    {
      posts := if stored.Some? && stored.value.posts.Some? then stored.value.posts.value else seedPosts;
      categories :=
        if stored.Some? && stored.value.categories.Some? then stored.value.categories.value else DefaultCategories;
      blogSettings :=
        if stored.Some? && stored.value.blogSettings.Some? then stored.value.blogSettings.value else DefaultSettings;
      this.pages := pages;
    }

    /** `addNewCategory`. */
    method AddNewCategory(name: string, description: string, newId: string) returns (rejected: Option<Rejection>)
      modifies this
      ensures match AddCategoryTo(old(categories), name, description, newId)
        case Ok(cs) => categories == cs && rejected == None
        case Err(e) => categories == old(categories) && rejected == Some(e)
      ensures posts == old(posts) && pages == old(pages)
      ensures blogSettings == old(blogSettings)
    {
      match AddCategoryTo(categories, name, description, newId)
      case Ok(cs) =>
        categories := cs;
        rejected := None;
      case Err(e) =>
        rejected := Some(e);
    }

    /** `updateCategory`. */
    method UpdateCategory(categoryId: string, name: string, description: string)
      modifies this
      ensures categories == UpdateCategoryIn(old(categories), categoryId, name, description)
      ensures posts == old(posts) && pages == old(pages)
      ensures blogSettings == old(blogSettings)
    {
      categories := UpdateCategoryIn(categories, categoryId, name, description);
    }

    /** `deleteCategory`, with the answer to its confirm dialog as a parameter. */
    method DeleteCategory(categoryId: string, confirmed: bool) returns (rejected: Option<Rejection>)
      modifies this
      ensures match DeleteCategoryFrom(old(posts), old(categories), blogSettings.defaultCategory, categoryId, confirmed)
        case Ok(lists) => posts == lists.posts && categories == lists.categories && rejected == None
        case Err(e) => posts == old(posts) && categories == old(categories) && rejected == Some(e)
      ensures pages == old(pages) && blogSettings == old(blogSettings)
    {
      match DeleteCategoryFrom(posts, categories, blogSettings.defaultCategory, categoryId, confirmed)
      case Ok(lists) =>
        posts, categories := lists.posts, lists.categories;
        rejected := None;
      case Err(e) =>
        rejected := Some(e);
    }

    /** `deletePost`, with the answer to its confirm dialog as a parameter. */
    method DeletePost(postId: string, confirmed: bool)
      modifies this
      ensures Site(posts, pages) == DeletePostAsWritten(old(posts), old(pages), postId, confirmed)
      ensures categories == old(categories) && blogSettings == old(blogSettings)
    {
      var site := DeletePostAsWritten(posts, pages, postId, confirmed);
      posts, pages := site.posts, site.pages;
    }

    /**
     * `handleSubmit` of the add-post form: the clock readings and the URL the
     * media library gave the uploaded image are parameters.
     */
    method AddPost(user: Option<User>, form: PostForm, millis: string, now: string, imageUrl: string)
      returns (rejected: Option<Rejection>)
      modifies this
      ensures match AddPostTo(old(posts), old(pages), user, form, millis, now, imageUrl)
        case Ok(site) => posts == site.posts && pages == site.pages && rejected == None
        case Err(e) => posts == old(posts) && pages == old(pages) && rejected == Some(e)
      ensures categories == old(categories) && blogSettings == old(blogSettings)
    {
      var result := AddPostTo(posts, pages, user, form, millis, now, imageUrl);
      if result.Ok? {
        posts, pages := result.value.posts, result.value.pages;
        rejected := None;
      } else {
        rejected := Some(result.error);
      }
    }

    /** `UpdatePost` of the edit form: the tag field is split at commas and not trimmed. */
    method UpdatePost(postId: string, form: EditForm, now: string)
      modifies this
      ensures posts == UpdatePostAsWritten(old(posts), postId, form, now)
      ensures categories == old(categories) && pages == old(pages)
      ensures blogSettings == old(blogSettings)
    {
      posts := UpdatePostAsWritten(posts, postId, form, now);
    }
  }
}
