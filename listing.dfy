/**
 * The blog listing (components/blogs.tsx): the category options with their
 * "All" entry, the filter over stored posts by search text and category, the
 * "clear all filters" action and the two empty states.
 */
module Listing {
  import opened Text
  import opened Seqs
  import opened Content

  const AllName: string := "All"

  /** The "All" entry put before the stored categories; it has no id and no description. */
  const AllOption: BlogCategory := BlogCategory("", AllName, "all", "")

  /** One entry of the component's plugin settings; the first one is the category to start with. */
  datatype Setting = Setting(name: string, value: string, description: string)

  /** The category options: "All", then the stored categories in order. */
  function CategoryOptions(stored: seq<BlogCategory>): (r: seq<BlogCategory>)
    ensures |r| == |stored| + 1 && r[0] == AllOption && r[1..] == stored
  {
    [AllOption] + stored
  }

  /** The category the listing starts on: the first setting's value, else the first option's name, else "All". */
  function InitialCategory(settings: seq<Setting>, options: seq<BlogCategory>): (c: string)
    ensures c != ""
    ensures |settings| > 0 && settings[0].value != "" ==> c == settings[0].value
    ensures (|settings| == 0 || settings[0].value == "") && |options| > 0 && options[0] == AllOption ==> c == AllName
  {
    if |settings| > 0 && settings[0].value != "" then settings[0].value
    else if |options| > 0 && options[0].name != "" then options[0].name
    else AllName
  }

  /** A category compared after `toLowerCase().replace(' ', '-')`: only the first space becomes a hyphen. */
  function Normalize(name: string): (r: string)
    ensures |r| == |name|
    ensures forall i :: 0 <= i < |name| ==>
      r[i] == (if name[i] == ' ' && ' ' !in name[..i] then '-' else LowerChar(name[i]))
    ensures ' ' !in name ==> r == Lower(name)
  {
    var low := Lower(name);
    forall i | 0 <= i <= |name| ensures (' ' in low[..i] <==> ' ' in name[..i]) {
      if ' ' in low[..i] {
        var j :| 0 <= j < i && low[..i][j] == ' ';
        assert name[..i][j] == ' ';
      }
      if ' ' in name[..i] {
        var j :| 0 <= j < i && name[..i][j] == ' ';
        assert low[..i][j] == ' ';
      }
    }
    ReplaceFirst(low, ' ', '-')
  }

  /** The search text occurs, ignoring ASCII case, in the title. */
  predicate TitleMatches(blog: BlogPost, query: string) {
    Contains(Lower(blog.title), Lower(query))
  }

  /**
   * The listing's test as written: `a && b && c ? blog : d` groups as
   * `(a && b && c) ? blog : d`, so a post shows when it is published, matches
   * the search and the category is "All" — or else whenever its category
   * matches, whatever its status and the search.
   */
  predicate ShownAsWritten(blog: BlogPost, query: string, category: string) {
    (blog.status == Published && TitleMatches(blog, query) && category == AllName)
    || Normalize(blog.category) == Normalize(category)
  }

  /** The listing's test as intended: published, matching the search, and in the category unless it is "All". */
  predicate Shown(blog: BlogPost, query: string, category: string) {
    blog.status == Published && TitleMatches(blog, query)
    && (category == AllName || Normalize(blog.category) == Normalize(category))
  }

  /** Under a category other than "All", the as-written test looks at nothing but the category. */
  lemma AsWrittenIgnoresStatusAndSearch(blog: BlogPost, query: string, category: string)
    requires category != AllName
    ensures ShownAsWritten(blog, query, category) <==> Normalize(blog.category) == Normalize(category)
  {
  }

  /** A draft post in "Tech" is listed under "Tech" as written, and not as intended. */
  lemma DraftShownUnderCategory(blog: BlogPost, query: string)
    requires blog.status == Draft && blog.category == "Tech"
    ensures ShownAsWritten(blog, query, "Tech") && !Shown(blog, query, "Tech")
  {
    assert Draft != Published by { assert Draft[0] != Published[0]; }
  }

  /** What the intended test shows, the as-written test shows too. */
  lemma ShownIsShownAsWritten(blog: BlogPost, query: string, category: string)
    requires Shown(blog, query, category)
    ensures ShownAsWritten(blog, query, category)
  {
  }

  function ShownTest(query: string, category: string): BlogPost -> bool {
    (b: BlogPost) => Shown(b, query, category)
  }

  function ShownAsWrittenTest(query: string, category: string): BlogPost -> bool {
    (b: BlogPost) => ShownAsWritten(b, query, category)
  }

  /** The posts the listing shows as intended, in stored order. */
  function VisibleBlogs(blogs: seq<BlogPost>, query: string, category: string): (r: seq<BlogPost>)
    ensures IsSubsequence(r, blogs)
    ensures forall i :: 0 <= i < |r| ==> Shown(r[i], query, category)
    ensures forall i :: 0 <= i < |blogs| ==> (blogs[i] in r <==> Shown(blogs[i], query, category))
  {
    FilterIsSubsequence(blogs, ShownTest(query, category));
    FilterMembership(blogs, ShownTest(query, category));
    Filter(blogs, ShownTest(query, category))
  }

  /** The posts the listing shows as written, in stored order. */
  function VisibleBlogsAsWritten(blogs: seq<BlogPost>, query: string, category: string): (r: seq<BlogPost>)
    ensures IsSubsequence(r, blogs)
    ensures forall i :: 0 <= i < |blogs| ==> (blogs[i] in r <==> ShownAsWritten(blogs[i], query, category))
    ensures category == AllName ==>
      forall i :: 0 <= i < |blogs| && blogs[i].status == Published && TitleMatches(blogs[i], query) ==> blogs[i] in r
    ensures category != AllName ==> forall i :: 0 <= i < |blogs| ==>
      (blogs[i] in r <==> Normalize(blogs[i].category) == Normalize(category))
  {
    FilterIsSubsequence(blogs, ShownAsWrittenTest(query, category));
    FilterMembership(blogs, ShownAsWrittenTest(query, category));
    Filter(blogs, ShownAsWrittenTest(query, category))
  }

  /** The intended listing is a subsequence of the as-written one. */
  lemma VisibleWithinAsWritten(blogs: seq<BlogPost>, query: string, category: string)
    ensures IsSubsequence(VisibleBlogs(blogs, query, category), VisibleBlogsAsWritten(blogs, query, category))
  {
    FilterMonotone(blogs, ShownTest(query, category), ShownAsWrittenTest(query, category));
  }

  /** With the filters cleared, the intended listing is every published post. */
  lemma ClearedShowsAllPublished(blogs: seq<BlogPost>)
    ensures forall i :: 0 <= i < |blogs| ==> (blogs[i] in VisibleBlogs(blogs, "", AllName) <==> blogs[i].status == Published)
  {
    forall i | 0 <= i < |blogs| ensures TitleMatches(blogs[i], "") {
      ContainsEmpty(Lower(blogs[i].title));
    }
  }

  /** Typing more into the search box only narrows the intended listing. */
  lemma SearchNarrowsListing(blogs: seq<BlogPost>, short: string, long: string, category: string)
    requires Contains(long, short)
    ensures IsSubsequence(VisibleBlogs(blogs, long, category), VisibleBlogs(blogs, short, category))
  {
    LowerKeepsContains(long, short);
    forall b | b in blogs && ShownTest(long, category)(b) ensures ShownTest(short, category)(b) {
      ContainsTransitive(Lower(b.title), Lower(long), Lower(short));
    }
    FilterMonotone(blogs, ShownTest(long, category), ShownTest(short, category));
  }

  /** The listing's state: the posts and options read from the store once, the search text and the category. */
  datatype ListingState = ListingState(
    blogs: seq<BlogPost>,
    categories: seq<BlogCategory>,
    searchQuery: string,
    category: string)

  /** The state when the listing mounts. */
  function InitialListing(entries: map<string, StoreEntry>, settings: seq<Setting>): (s: ListingState)
    ensures s.blogs == StoredPosts(entries, BlogKey)
    ensures s.categories == CategoryOptions(StoredCategories(entries, BlogKey))
    ensures s.searchQuery == ""
    ensures |settings| > 0 && settings[0].value != "" ==> s.category == settings[0].value
    ensures |settings| == 0 || settings[0].value == "" ==> s.category == AllName
  {
    var options := CategoryOptions(StoredCategories(entries, BlogKey));
    ListingState(StoredPosts(entries, BlogKey), options, "", InitialCategory(settings, options))
  }

  /** What the filter effect computes for the state, with the test as written. */
  function FilteredBlogs(s: ListingState): (r: seq<BlogPost>)
    ensures IsSubsequence(r, s.blogs)
    ensures forall i :: 0 <= i < |s.blogs| ==> (s.blogs[i] in r <==> ShownAsWritten(s.blogs[i], s.searchQuery, s.category))
  {
    VisibleBlogsAsWritten(s.blogs, s.searchQuery, s.category)
  }

  /** "Clear all filters": empty search text and the first option's name (or ""). */
  function ClearFilters(s: ListingState): (r: ListingState)
    ensures r.blogs == s.blogs && r.categories == s.categories && r.searchQuery == ""
    ensures |s.categories| > 0 && s.categories[0] == AllOption ==> r.category == AllName
  {
    s.(searchQuery := "", category := if |s.categories| > 0 && s.categories[0].name != "" then s.categories[0].name else "")
  }

  /**
   * After clearing, the listing shows the published posts and, whatever their
   * status, the posts whose category normalises to "all".
   */
  lemma ClearedListingShowsPublished(s: ListingState)
    requires |s.categories| > 0 && s.categories[0] == AllOption
    ensures var r := FilteredBlogs(ClearFilters(s));
      forall i :: 0 <= i < |s.blogs| ==>
        (s.blogs[i] in r <==> s.blogs[i].status == Published || Normalize(s.blogs[i].category) == "all")
  {
    var n := Normalize(AllName);
    assert n[0] == 'a' && n[1] == 'l' && n[2] == 'l';
    assert n == "all";
    forall i | 0 <= i < |s.blogs| ensures TitleMatches(s.blogs[i], "") {
      ContainsEmpty(Lower(s.blogs[i].title));
    }
  }

  /** The options of a mounted listing start with "All", so clearing always selects "All". */
  lemma MountedListingClearsToAll(entries: map<string, StoreEntry>, settings: seq<Setting>, query: string, category: string)
    ensures ClearFilters(InitialListing(entries, settings).(searchQuery := query, category := category)).category == AllName
  {
  }

  /** "No blogs found" shows when nothing is stored. */
  predicate ShowsEmptyState(s: ListingState) {
    |s.blogs| == 0
  }

  /** "No results found" shows when the filter keeps nothing. */
  predicate ShowsSearchEmpty(s: ListingState) {
    |FilteredBlogs(s)| == 0
  }

  /** With nothing stored, both empty states show. */
  lemma NothingStoredShowsBoth(s: ListingState)
    requires |s.blogs| == 0
    ensures ShowsEmptyState(s) && ShowsSearchEmpty(s)
  {
    SubsequenceLength(FilteredBlogs(s), s.blogs);
  }
}
