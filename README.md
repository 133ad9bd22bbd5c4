# Blog plugin content model

A Dafny model of the content logic of a page-builder blog plugin:

- the admin dashboard (`ui.tsx`): overview counters, search over posts and
  categories, the slug generator, and the commands that add, edit and delete
  categories and posts;
- the single-post page (`components/Blog.tsx`): finding the post a URL names,
  the published / not-found gate, the script test that blocks a post's HTML,
  the in-place HTML editor's snippet buttons, saving edited HTML into the
  store, and the related posts;
- the public listing (`components/blogs.tsx`): the category options with
  their "All" entry, the search / category filter, "clear all filters" and
  the two empty states;
- the comment box (`components/Comments.tsx`).

Modules, one per file:

- `Wrappers`: Option and Result.
- `Text`: ASCII lower-casing, the ECMAScript whitespace set, substring search
  (`includes`), `trim`, split / join on one character, replace-first.
- `Seqs`: filter, order-preserving subsequence, first index, take.
- `Slug`: `createSlug` as its four replace stages.
- `Content`: the records (posts, categories, settings, pages, user, the
  "Blog" store entry) and the host's key-value store.
- `Dashboard`: every dashboard command as a function from the lists before to
  the lists after, plus the class `BlogDashboard`, whose methods reassign its
  list fields as those functions say.
- `PostView`: the single-post page, with the class `SinglePostView` for its
  editor state over the store it reads and writes.
- `Listing`: the listing's filter, as written and as intended.
- `Comments`: the class `CommentBox`.

Where the source contradicts its evident intent, both versions are modelled
(see "## Findings"). The state-holding classes and the listing's filter
effect run the code as written; the corrected definitions stand beside them,
each with the intended property proved.

## Model

| member | source | states |
|---|---|---|
| Slug.CreateSlug | ui.tsx:157-163 | every slug is lower-case ASCII letters, digits, `_` and `-` with no two hyphens in a row, and is no longer than the title |
| Slug.SlugIdempotent | ui.tsx:157-163 | the slug of a slug is the slug itself |
| Slug.SlugOfSlugText | ui.tsx:157-163 | text already in slug form is its own slug |
| Slug.HyphenRunsCollapsed | ui.tsx:162 | after the last replace, no two hyphens are adjacent |
| Slug.SlugOfHelloWorld | ui.tsx:157-163 | "Hello, World!" becomes "hello-world" |
| Slug.SlugOfGreeting | ui.tsx:157-163 | "<word>, <word>!" becomes the two lower-cased words joined by one hyphen |
| Slug.SlugKeepsLeadingHyphen | ui.tsx:157-163 | leading whitespace is not trimmed: it becomes a leading hyphen |
| Slug.StripSpecial | ui.tsx:160 | the result is a subsequence of the input made of word characters, whitespace and hyphens only, and every such character of the input appears in it |
| Slug.StripSpecialPerCharacter | ui.tsx:160 | the first replace works one character at a time: it distributes over concatenation and keeps a single character exactly when it is a word character, whitespace or a hyphen |
| Slug.ReplaceRuns | ui.tsx:161-162 | each run of the class becomes a single hyphen; the result starts with a hyphen exactly when the input starts with a run or a hyphen |
| Slug.ReplaceRunsSegment | ui.tsx:161-162 | text without the class, then a non-empty run of it, then text not starting with it: the run becomes exactly one hyphen and the text before it is kept as it is |
| Slug.ReplaceRunsAbsent | ui.tsx:161-162 | text without the class is unchanged |
| Slug.DropRunPrefix | ui.tsx:161-162 | a run followed by text not starting with the class is consumed whole |
| Dashboard.Stats | ui.tsx:136-142 | total and category counts are the list lengths; published and draft counts are exactly the numbers of positions holding such a post; together they never exceed the total; all (none) are published exactly when the count equals the total (is 0) |
| Dashboard.IsPublished | ui.tsx:138 | a post counts as published when its status is exactly "published" |
| Dashboard.IsDraft | ui.tsx:139 | a post counts as a draft when its status is exactly "draft" |
| Dashboard.PostMatches | ui.tsx:333-337 | a post matches when its title, content, author, category or some tag contains the term, all lower-cased |
| Dashboard.FilteredPosts | ui.tsx:332-338 | an order-preserving subsequence of the posts holding exactly those whose title, content, author, category or some tag contains the term, ignoring case |
| Dashboard.EmptySearchShowsAllPosts | ui.tsx:332-338 | an empty search term keeps every post |
| Dashboard.SearchNarrowsPosts | ui.tsx:332-338 | a term containing a shorter one yields a subsequence of the shorter term's result |
| Dashboard.CategoryMatches | ui.tsx:342-343 | a category matches when its name or description contains the term, both lower-cased |
| Dashboard.FilteredCategories | ui.tsx:341-344 | an order-preserving subsequence holding exactly the categories whose name or description contains the term, ignoring case |
| Dashboard.EmptySearchShowsAllCategories | ui.tsx:341-344 | an empty search term keeps every category |
| Dashboard.AddCategoryTo | ui.tsx:173-189 | refused exactly when a category's name equals the new one ignoring case; otherwise the earlier categories are kept and one category is appended with the given id, name and description and the slug of the name |
| Dashboard.AddCategoryKeepsNamesDistinct | ui.tsx:176-189 | adding keeps category names distinct up to case, and the new name is then taken |
| Dashboard.AddCategoryTwiceRejected | ui.tsx:176-179 | adding the same name again, in any case, is refused |
| Dashboard.UpdateCategoryIn | ui.tsx:274-283 | the category with the id takes the new name and description; ids and slugs stay; every other category is unchanged |
| Dashboard.UpdateCategoryIdempotent | ui.tsx:274-283 | submitting the same edit twice is submitting it once |
| Dashboard.CategoryIndex | ui.tsx:291 | the first category whose id (or slug) is the value, or none exactly when no category has it |
| Dashboard.RehomeName | ui.tsx:299 | the name of the first category with slug "uncategorized" when it is non-empty; "Uncategorized" when that category is missing or its name is empty |
| Dashboard.IsDefaultCategory | ui.tsx:291-292 | a category is protected when the first category with the id has the settings' default slug |
| Dashboard.RefilePosts | ui.tsx:301-307 | posts filed under the deleted name move to the new name; all other posts are unchanged |
| Dashboard.WithoutCategory | ui.tsx:309 | the categories other than the one with the id, in order |
| Dashboard.DeleteCategoryFrom | ui.tsx:289-311 | the default category is refused and a cancelled confirm changes nothing; otherwise the categories lose the id and the posts of the deleted category are refiled under the uncategorized name |
| Dashboard.DeleteCategoryKeepsPostsFiled | ui.tsx:297-310 | when every post is filed under an existing category and the uncategorized category stays, that still holds after the delete |
| Dashboard.DeleteTechCategory | ui.tsx:297-310 | deleting "Tech" next to the default category moves its posts to "Uncategorized" and leaves one category |
| Dashboard.PageIndex | ui.tsx:224 | the first page with the URL, or none exactly when no page has it |
| Dashboard.RemovePageAt | ui.tsx:224-228 | removes one page when one has the URL, keeps every page with another URL, and adds none |
| Dashboard.WithoutPost | ui.tsx:221 | the posts whose id differs, in order |
| Dashboard.DeletePostAsWritten | ui.tsx:219-228 | the post goes only when confirmed; the page at `blog/<postId>` is removed either way |
| Dashboard.DeleteAsWrittenLeavesPage | ui.tsx:219-228 | a confirmed delete of a post just added leaves its page; a cancelled delete still removes the page at `blog/<postId>` |
| Dashboard.PostIndex | ui.tsx:221 | the first post with the id, or none exactly when no post has it |
| Dashboard.DeletePostFrom | ui.tsx:219-228 | (corrected) a cancelled delete changes nothing; a confirmed one removes the post and every page at `blog/<its slug>`, keeping all other pages |
| Dashboard.DeleteRemovesPageOfNewPost | ui.tsx:219-228 | (corrected) deleting a post just added removes it and its page and keeps the other pages; cancelling changes nothing |
| Dashboard.TrimAll | ui.tsx:812 | every tag is trimmed |
| Text.TrimOfPadded | ui.tsx:812 | `trim` of trimmed text padded with whitespace on both sides gives the text |
| Text.TrimIsPadded | ui.tsx:812 | every string is its trimmed text padded with whitespace on both sides; with TrimOfPadded this fixes `trim` on every input |
| Dashboard.SplitTags | ui.tsx:812 | one tag per comma-separated part, each the trimmed part, so each is trimmed and inside its part |
| Dashboard.NewPostId | ui.tsx:805 | the id is "post_", the title, "_" and the clock reading, in that order |
| Dashboard.NewPostIdsDiffer | ui.tsx:805 | two posts with the same title added at different clock readings get different ids |
| Dashboard.AuthorName | ui.tsx:816 | the e-mail when the first name is empty; otherwise the first name, a space and the last name, or "undefined" when there is none |
| Dashboard.PostPage | ui.tsx:821-830 | the page has the post's id, its title as name, its excerpt as description, the URL `blog/<slug>`, and is hidden |
| Dashboard.AddPostTo | ui.tsx:761-833 | no user, no category, no image, empty title or content each stop it, in that order; otherwise one post is appended with every field from the form, tags split and trimmed, lower-cased status, equal creation and update times, slug of the title, and its hidden page at `blog/<slug>` |
| Dashboard.AddPostKeepsSlugs | ui.tsx:804-819 | adding keeps every post's slug the slug of its title |
| Dashboard.EditPostIn | ui.tsx:1030-1046 | the post with the id takes the form's fields, the slug of the new title and the new update time; every post keeps its id, content, author and creation time; the others are unchanged; count and order stay |
| Dashboard.EditPostKeepsSlugs | ui.tsx:1030-1046 | editing keeps every post's slug the slug of its title |
| Dashboard.DeletesKeepSlugs | ui.tsx:219-311 | deleting a post or a category keeps every slug the slug of its title |
| Dashboard.UpdatePostAsWritten | ui.tsx:1022-1046 | the post with the id takes the form's title, excerpt, status, category and image, the slug of the new title and the new update time; its tags are exactly the comma-separated parts of the field, untrimmed, so joining them with ',' gives the field back; every other post is unchanged |
| Dashboard.UpdatePostIn | ui.tsx:1022-1046 | (corrected) the edited post's tags are the field split at commas and trimmed |
| Dashboard.UpdatePostIdempotent | ui.tsx:1022-1046 | saving the same edit twice is saving it once |
| Dashboard.TagsField | ui.tsx:1145 | no tags give "", one tag gives the tag, more start with the first tag followed by ", " |
| Dashboard.TagsFieldIsJoin | ui.tsx:1145 | the edit form's tag field is the tags joined with ", " |
| Dashboard.SpacedTags | ui.tsx:1145 | the comma-separated parts of the joined field: the first tag, then each later tag with a leading space |
| Dashboard.UntouchedEditAddsSpaces | ui.tsx:1145 | saving an untouched edit form turns tags ["a", "b"] into ["a", " b"] |
| Dashboard.SplitTagsField | ui.tsx:1145 | splitting the joined field at commas gives the spaced parts |
| Dashboard.TrimSpacedTags | ui.tsx:1145 | trimming the spaced parts of trimmed tags gives the tags |
| Dashboard.TrimSpacedTagAt | ui.tsx:1145 | the same, one tag at a time |
| Dashboard.TagsFieldRoundTrip | ui.tsx:1145 | (corrected) splitting and trimming the joined field gives back any non-empty list of trimmed, comma-free tags |
| Dashboard.EditOfNewPostKeepsTags | ui.tsx:1145 | (corrected) an untouched edit of a post just added keeps its tags |
| Dashboard.BlogDashboard.constructor | ui.tsx:108-133 | posts, categories and settings come from the stored entry when present, else from the seed posts, the default category and the default settings |
| Dashboard.BlogDashboard.AddNewCategory | ui.tsx:166-191 | the categories become the result of AddCategoryTo, or stay on refusal; posts, pages and settings are unchanged |
| Dashboard.BlogDashboard.UpdateCategory | ui.tsx:266-286 | the categories become the result of UpdateCategoryIn; nothing else changes |
| Dashboard.BlogDashboard.DeleteCategory | ui.tsx:289-311 | posts and categories become the result of DeleteCategoryFrom under the settings' default category, or stay on refusal |
| Dashboard.BlogDashboard.DeletePost | ui.tsx:219-228 | posts and pages become the result of DeletePostAsWritten: the post goes only when confirmed, and the page at `blog/<postId>` is removed either way; categories and settings stay |
| Dashboard.BlogDashboard.AddPost | ui.tsx:761-833 | posts and pages become the result of AddPostTo, or stay on refusal |
| Dashboard.BlogDashboard.UpdatePost | ui.tsx:1022-1046 | posts become the result of UpdatePostAsWritten, tags split at commas and not trimmed; categories, pages and settings stay |
| PostView.LastSegment | components/Blog.tsx:51 | the text after the last '/': no '/' in it and no longer than the path |
| PostView.LastSegmentIsSuffix | components/Blog.tsx:51 | the last segment is a suffix of the path |
| PostView.LastSegmentAfterSlash | components/Blog.tsx:51 | the last segment is the whole path or follows a '/' |
| PostView.LastSegmentOf | components/Blog.tsx:51 | the last segment of `<prefix>/<segment>` is the segment |
| PostView.SlugIndex | components/Blog.tsx:51 | the position of the first post with the slug, or none exactly when no post has it |
| PostView.FindPostBySlug | components/Blog.tsx:51 | a stored post with the slug, found exactly when some post has it, and it is the first such post |
| PostView.FindPostAtItsUrl | components/Blog.tsx:51 | a post is found at any URL ending in `/<its slug>` when no earlier post shares the slug |
| PostView.ShownPost | components/Blog.tsx:51-320 | a shown post is the one the slug lookup finds for the URL's last segment, so it has that slug, is published and is stored; nothing is shown exactly when no post has the slug or the first one is not published |
| PostView.ScriptBlocked | components/Blog.tsx:62-64 | the regular expression's test on the content, as a search for a match at any position |
| PostView.TailMatchesIff | components/Blog.tsx:62 | the part of the pattern after `<script\b` matches exactly when a `</script>` starts at or after that point |
| PostView.SearchFromIff | components/Blog.tsx:62-64 | the search succeeds exactly when a match starts at or after its start |
| PostView.ScriptBlockedIff | components/Blog.tsx:62-64 | content is blocked exactly when a `<script` (any case) not followed by a word character has a `</script>` (any case) at or after its end |
| PostView.UnclosedScriptNotBlocked | components/Blog.tsx:62-64 | content without a closing tag is never blocked |
| PostView.NoScriptNotBlocked | components/Blog.tsx:62-64 | content without `<script` in any case is never blocked |
| PostView.EmptyScriptBlocked | components/Blog.tsx:62-64 | `<script></script>` is blocked |
| PostView.RenderBody | components/Blog.tsx:59-73 | "Content blocked" exactly when the script test fires, else the post's HTML |
| PostView.Snippet | components/Blog.tsx:100-134 | each of the eight kinds gives a fragment starting with a newline and holding the element class; any other kind gives none |
| PostView.Wrap | components/Blog.tsx:102-132 | a fragment on a new line whose class attribute holds the element class |
| PostView.SaveAllowed | components/Blog.tsx:147-153 | a save goes ahead only for a found post and a component of type "plugin" whose plugin name is "Blog" |
| PostView.WithContent | components/Blog.tsx:164-172 | posts with the id take the editor's text as content; the others are unchanged |
| PostView.SavedEntries | components/Blog.tsx:160-175 | the "Blog" entry keeps its other fields and takes the edited posts; other store keys are unchanged |
| PostView.SaveIdempotent | components/Blog.tsx:160-175 | saving the same text twice is saving it once |
| PostView.SaveThenRead | components/Blog.tsx:160-175 | after a save the stored post with the id holds the text, ids and count stay, the other posts are unchanged |
| PostView.SaveThenShown | components/Blog.tsx:48-51 | after saving a post found by its slug, the same slug finds that post with the saved text as content |
| PostView.RelatedPosts | components/Blog.tsx:180-184 | at most three posts, in stored order, each published, of the current post's category and with another slug: the first three such |
| PostView.RelatedPostsComplete | components/Blog.tsx:180-184 | a qualifying post is listed unless three qualifying posts come before it |
| PostView.SinglePostView.constructor | components/Blog.tsx:37-51 | the page holds the store and the URL's path, and its slug is the path's last segment; the editor is closed and empty |
| PostView.SinglePostView.Post | components/Blog.tsx:48-51 | the post is looked up in the current store on every render: the first stored post with the page's slug |
| PostView.SinglePostView.ToggleEditing | components/Blog.tsx:208-209 | the edit button flips the editor open or closed and changes nothing else |
| PostView.SinglePostView.MountEditor | components/Blog.tsx:243-246 | the mounted editor starts from the stored HTML of the post the store currently holds |
| PostView.SinglePostView.EditorChanged | components/Blog.tsx:247 | the editor's text becomes the new value, or "" when there is none |
| PostView.SinglePostView.AddHtml | components/Blog.tsx:100-134 | with an editor, a known kind appends its fragment after the old text; otherwise the text is unchanged |
| PostView.SinglePostView.Save | components/Blog.tsx:144-178 | with a found post and a "Blog" plugin component the store becomes SavedEntries and the editor closes, and the page then shows the post with the saved text; otherwise the store and the editor are unchanged |
| Listing.CategoryOptions | components/blogs.tsx:37-43 | the options are "All" followed by the stored categories in order |
| Listing.InitialCategory | components/blogs.tsx:45 | the first setting's value when set, else the first option's name ("All") |
| Listing.Normalize | components/blogs.tsx:51 | same length; each character is lower-cased, except the first space, which becomes a hyphen |
| Listing.ShownAsWritten | components/blogs.tsx:48-51 | as written: published, matching the search and "All" selected, or else the normalised categories are equal |
| Listing.Shown | components/blogs.tsx:48-51 | as intended: published, matching the search, and the category unless "All" is selected |
| Listing.AsWrittenIgnoresStatusAndSearch | components/blogs.tsx:48-51 | under a category other than "All", the as-written test is exactly category equality after normalising |
| Listing.DraftShownUnderCategory | components/blogs.tsx:48-51 | as written, a draft in "Tech" is listed under "Tech"; as intended it is not |
| Listing.ShownIsShownAsWritten | components/blogs.tsx:48-51 | what the intended test shows, the as-written test shows too |
| Listing.VisibleBlogsAsWritten | components/blogs.tsx:48-54 | an order-preserving subsequence; under "All" it has every published post whose title contains the query ignoring case; under another category a post is in it exactly when its normalised category equals the selected one |
| Listing.VisibleBlogs | components/blogs.tsx:48-54 | (corrected) an order-preserving subsequence holding exactly the published posts matching the query and, unless "All" is selected, the category |
| Listing.VisibleWithinAsWritten | components/blogs.tsx:48-54 | the intended listing is a subsequence of the as-written one |
| Listing.ClearedShowsAllPublished | components/blogs.tsx:48-54 | (corrected) with an empty query under "All", exactly the published posts are shown |
| Listing.SearchNarrowsListing | components/blogs.tsx:48-54 | (corrected) a longer query containing the shorter one shows a subsequence |
| Listing.InitialListing | components/blogs.tsx:33-45 | the mounted listing holds the stored posts, the options list, an empty query and the configured category or "All" |
| Listing.FilteredBlogs | components/blogs.tsx:47-55 | the filter effect keeps an order-preserving subsequence of the posts, holding a post exactly when the as-written test shows it |
| Listing.ClearFilters | components/blogs.tsx:107-110 | the query becomes "" and the category the first option's name, "All" when the options start with it |
| Listing.ClearedListingShowsPublished | components/blogs.tsx:107-110 | after clearing, a post is shown exactly when it is published or its category normalises to "all" |
| Listing.MountedListingClearsToAll | components/blogs.tsx:37-110 | in a mounted listing, clearing always selects "All" |
| Listing.NothingStoredShowsBoth | components/blogs.tsx:203-204 | with no posts stored, both the empty state and the search-empty state show |
| Content.StoredPosts | components/Blog.tsx:48 | the posts of the "Blog" entry when the entry and its posts exist, else the empty list |
| Content.StoredCategories | components/blogs.tsx:42 | the categories of the "Blog" entry when the entry and its categories exist, else the empty list |
| Content.Store.constructor | components/Blog.tsx:46 | the host's store starts with the given entries |
| Comments.Submitted | components/Comments.tsx:32-44 | blank text changes nothing; otherwise one comment by "You" with the untrimmed text is put first, the earlier list follows, and the text area is cleared |
| Comments.SubmitTwiceAddsOnce | components/Comments.tsx:32-44 | posting again right after a post adds nothing |
| Comments.SubmitKeepsHistory | components/Comments.tsx:41 | the earlier comments follow the new one unchanged and in order |
| Comments.CommentBox.constructor | components/Comments.tsx:4-48 | the box starts empty with the three seed comments, so the heading first counts 3 |
| Comments.CommentBox.Type | components/Comments.tsx:57 | typing sets the text and leaves the list alone |
| Comments.CommentBox.Submit | components/Comments.tsx:32-44 | the box's text and list become the result of Submitted |

## Left out

- `toLowerCase` is modelled over ASCII only; non-ASCII letters are left as they are. `\s` and `trim` use the full ECMAScript whitespace set. `\w` is ASCII.
- `Date.now()`, `new Date().toISOString()` and `Math.random()` ids are parameters. The two separate `toISOString()` calls for createdAt and updatedAt (ui.tsx:809-810) are modelled as one reading, so they are equal.
- The media upload (`addMedia`) is a parameter: the URL it returns. `FileReader` previews are out; the preview is a form field.
- `window.confirm` is a boolean parameter. `alert` and early returns are `Rejection` values that leave the lists unchanged. `window.location` navigation, modals and all JSX are out.
- The persistence effect (ui.tsx:145-154), `saveSettings` (ui.tsx:314-324) and the settings toggles are host I/O and are not modelled. The store is modelled only where `handle_save` writes it.
- `reGeneratePages` (ui.tsx:193-216) is not modelled. The page registry is a list that `handleSubmit` appends to and `deletePost` removes from. `removePage` is modelled as removing the first page with the URL.
- `stats` is computed once in the source and never refreshed. Dashboard.Stats is a pure function of the lists it is given.
- Post status is kept as text: the add form lower-cases whatever the dropdown holds.
- The "All" option has no id and no description in the source. Here both are "".
- The listing's `searchQuery` and `category` setters are UI events. The listing state is a datatype, and the filter effect is the function FilteredBlogs.
- The class `SinglePostView` holds the editor reference as the flag `editorMounted`. The Monaco editor itself, drag-and-drop, the sidebar and the `VITE_WX_EDITOR` switch are out.
- `blogPlugin.tsx` (registration handshake), components/sidebar.tsx and the seed data files are not part of this model. Seed posts are a constructor parameter.
- Slug.ReplaceRuns: its own contract only bounds the result (length, characters outside the class, the leading hyphen). The exact result on every input is stated by Slug.ReplaceRunsSegment and Slug.ReplaceRunsAbsent.
- The category dropdowns of the add and edit forms (ui.tsx:925-928, ui.tsx:1135-1138) set the form's category to a category's slug. The forms start from a category name (ui.tsx:707, ui.tsx:974), and `deleteCategory` refiles posts by name. The model takes the form's category as given. For a post filed through the dropdown, the premise of Dashboard.DeleteCategoryKeepsPostsFiled (every post filed under an existing category's name) does not hold.
- PostView.SinglePostView.constructor: the last segment of the URL is taken once, when the page is built. The source reads `window.location` again on every render, which gives the same path while the page is shown.
- Slug.SlugKeepsLeadingHyphen: covers leading whitespace only. The matching trailing case is not stated.
- Comments.CommentBox.Submit and the other class methods: their contracts use `old`, so they are tied to the pure functions Submitted, AddCategoryTo and so on, which carry the properties.

## Findings

| source | as written | input that shows it | evidently intended | confidence | as-written member | corrected member |
|---|---|---|---|---|---|---|
| components/blogs.tsx:48-51 | `a && b && c ? blog : d` groups as `(a && b && c) ? blog : d`, so under any category other than "All" a post is listed by category alone, drafts included, whatever the search | a draft post in category "Tech" with category "Tech" selected is listed | the post is published, matches the search and, unless "All" is selected, matches the category | not executed | Listing.DraftShownUnderCategory | Listing.VisibleBlogs |
| ui.tsx:219-228 | the page is looked up at `blog/<postId>`, but posts are registered at `blog/<slug>` (ui.tsx:824); the lookup and removal also run when the confirm is cancelled | add a post titled "a": its id is `post_a_<millis>`, its page sits at `blog/a`, and a confirmed delete leaves that page | the page at `blog/<slug>` goes with the post, and a cancelled delete changes nothing | not executed | Dashboard.DeleteAsWrittenLeavesPage | Dashboard.DeletePostFrom |
| ui.tsx:1145 | the edit form starts from the tags joined with ", " and saving splits at ',' without trimming | tags ["a", "b"], form saved untouched, become ["a", " b"] | tags are trimmed as when the post was added (ui.tsx:812), so an untouched edit keeps them | not executed | Dashboard.UntouchedEditAddsSpaces | Dashboard.TagsFieldRoundTrip |
