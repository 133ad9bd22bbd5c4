/**
 * The plugin's records (ui.tsx): posts, categories, settings, the host's
 * pages and signed-in user, and the persisted "Blog" blob of the host's
 * key-value store.
 */
module Content {
  import opened Wrappers

  /** A blog post. `status` is kept as text: the forms store whatever the status control yields, lower-cased or not. */
  datatype BlogPost = BlogPost(
    id: string,
    title: string,
    content: string,
    excerpt: string,
    author: string,
    category: string,
    tags: seq<string>,
    status: string,
    featuredImage: string,
    createdAt: string,
    updatedAt: string,
    slug: string)

  datatype BlogCategory = BlogCategory(id: string, name: string, slug: string, description: string)

  datatype BlogSettings = BlogSettings(
    enableComments: bool,
    moderateComments: bool,
    postsPerPage: int,
    showAuthor: bool,
    showDate: bool,
    allowRatings: bool,
    defaultCategory: string)

  /** The dashboard's overview counters. */
  datatype BlogStats = BlogStats(totalPosts: nat, publishedPosts: nat, draftPosts: nat, categories: nat, comments: nat)

  /** A page of the host site builder, as far as the plugin registers and looks pages up. */
  datatype Page = Page(id: string, name: string, description: string, url: string, hidden: bool)

  /** The signed-in user; an absent first name is "", an absent last name is None. */
  datatype User = User(firstName: string, lastName: Option<string>, email: string)

  /** The object stored under a key of the host's store; each field may be missing. */
  datatype StoreEntry = StoreEntry(
    posts: Option<seq<BlogPost>>,
    categories: Option<seq<BlogCategory>>,
    blogSettings: Option<BlogSettings>)

  const BlogKey: string := "Blog"
  const Published: string := "published"
  const Draft: string := "draft"
  const UncategorizedSlug: string := "uncategorized"
  const UncategorizedName: string := "Uncategorized"

  /** Categories used when the store holds none. */
  const DefaultCategories: seq<BlogCategory> := [BlogCategory("1", UncategorizedName, UncategorizedSlug, "Default category")]

  /** Settings used when the store holds none. */
  const DefaultSettings: BlogSettings := BlogSettings(true, true, 10, true, true, false, UncategorizedSlug)

  /** `getState(key)?.posts || []`. */
  function StoredPosts(entries: map<string, StoreEntry>, key: string): (r: seq<BlogPost>)
    ensures key in entries && entries[key].posts.Some? ==> r == entries[key].posts.value
    ensures key !in entries || entries[key].posts.None? ==> r == []
  {
    if key in entries && entries[key].posts.Some? then entries[key].posts.value else []
  }

  /** `getState(key)?.categories || []`. */
  function StoredCategories(entries: map<string, StoreEntry>, key: string): (r: seq<BlogCategory>)
    ensures key in entries && entries[key].categories.Some? ==> r == entries[key].categories.value
    ensures key !in entries || entries[key].categories.None? ==> r == []
  {
    if key in entries && entries[key].categories.Some? then entries[key].categories.value else []
  }

  /** The host's key-value store, written in place by `putItemInStore`. */
  class Store {
    var entries: map<string, StoreEntry>

    constructor(entries: map<string, StoreEntry>)
      ensures this.entries == entries
    {
      this.entries := entries;
    }
  }
}
