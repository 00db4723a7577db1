# A lifer's Tech Blog — client-side router and renderer, modelled in Dafny

This project models the decision logic of the blog's single-page front end
(`src/index.js`): how the current path becomes a category, how the post
collection is narrowed or sorted for that category, what the posts container
holds afterwards, and which navigation links are highlighted.

- `text.dfy` (module `Text`): the lower-case fold used by every
  case-insensitive comparison, and `split('/')[0]` / `substring(1)`.
- `posts.dfy` (module `Posts`): the `Post` record and `filterPostsByCategory`.
  The strings `'latest'` and `'latests'` (exactly, case-sensitive) give a
  stable newest-first sort of a copy of the collection; any other string gives
  the order-preserving subsequence of posts whose non-empty `categoria`
  lower-cases to the lower-cased argument.
- `routing.dfy` (module `Routing`): the category derived from the path. `'/'`
  gives `'a-lifers-tech-blog/'`; every other path gives the text after its first
  character up to the next `'/'`. Only `/home` and `/home/...` give `'home'`;
  the root path does not.
- `page.dfy` (module `Page`): the page as a class, `Document`. It holds the presence of the
  `fixed-posts` and `posts-container` elements, their `display`, the
  container's children as a view model (cards or the "no posts" placeholder),
  and the navigation links as an array of `(href, data-category, active)`
  records. `renderDynamicPosts`, `togglePostContainers`, `updateActiveClass`
  and `handleRoute` are its methods. `RenderDynamicPosts`, `UpdateActiveClass`
  and `HandleRoute` are proved against pure functions (`Rendered`,
  `Highlighted`, `FilterPostsByCategory`, `CategoryOf`), and the properties are
  proved as lemmas about those functions. `TogglePostContainers` states the new
  display of each element directly.

The sort is `Array.prototype.sort` with the comparator
`(a, b) => new Date(b.dataPublicacao) - new Date(a.dataPublicacao)`; the
model's integer instant stands for the Date's time value. ECMA-262 requires that sort
to be stable (section 23.1.3.30 of the current edition). The model gives one
reference definition, an insertion sort. It proves that the result is sorted
newest first, is a permutation of the input, and keeps the input order among
posts with the same instant. It also proves that exactly one sequence has
these three properties (`NewestFirstUnique`), so the choice of algorithm does
not matter.

JavaScript truthiness is kept where the code relies on it. A post whose
`categoria` is missing or `""` never matches a category. A link whose
`data-category` is missing or `""` is never matched by category. An
`imagemCapa` of `""` shows no cover image.

`src/index.js` has no tag routes, no single-post route, no base-path
stripping and no query-string path fix, and its root path is not Home. The
model follows the code: `/post/3` is treated as the category `post`, and `/`
as the category `a-lifers-tech-blog/`, which goes through the category filter.

## Model

| member | source | states |
|---|---|---|
| Text.LowerChar | src/index.js:55 | a capital A-Z becomes the letter 32 code points later, a-z; every other character is unchanged; the result is never a capital |
| Text.DropFirst | src/index.js:75 | `substring(1)` drops the first character of a non-empty string and leaves the empty string empty |
| Text.Lower | src/index.js:55 | the model's ASCII fold for `toLowerCase` keeps the length and folds each character on its own, A-Z to a-z |
| Text.LowerIdempotent | src/index.js:55 | lower-casing an already lower-cased string changes nothing |
| Text.BeforeFirst | src/index.js:75 | `split(sep)[0]` is a prefix free of `sep`, ending at the first `sep` or at the end of the string |
| Posts.InCategory | src/index.js:55 | under the model's ASCII fold, a matching post has a non-empty category of the argument's length; a non-empty category equal to the argument always matches |
| Posts.IsLatestMode | src/index.js:51 | the sorted listing is selected by exactly the case-sensitive strings `latest` and `latests`: both select it, and a selecting string is one of those two |
| Posts.KeepCategory | src/index.js:55 | the category filter keeps exactly the matching posts, with their multiplicities, as an order-preserving subsequence of the input |
| Posts.PublishedAt | src/index.js:53 | only posts of the given instant, no more of them than the input has, headed by the input's head when that has the instant; empty when no post has that instant |
| Posts.PublishedAtSelects | src/index.js:53 | the posts of one instant are all of the input's posts at that instant, with their multiplicities, as an order-preserving subsequence |
| Posts.InsertNewestFirst | src/index.js:53 | inserting into a newest-first list keeps it newest first and adds exactly one post |
| Posts.InsertKeepsOrderWithinInstant | src/index.js:53 | an inserted post goes ahead of every post with the same instant |
| Posts.SortNewestFirst | src/index.js:53 | the sort's result is newest first, a permutation of the input, and stable for equal instants |
| Posts.NewestFirstUnique | src/index.js:53 | two newest-first sequences that agree on the order within every instant are equal |
| Posts.FilterPostsByCategory | src/index.js:50-56 | `'latest'`/`'latests'`: a sorted, stable permutation of all posts; otherwise the order-preserving subsequence of posts in the category, case-insensitively |
| Posts.LatestIsTheStableSort | src/index.js:51-53 | every stable newest-first ordering of the input is the latest listing |
| Posts.KeepCategoryIgnoresCase | src/index.js:55 | category strings with equal lower case keep the same posts |
| Posts.CategoryIgnoresCase | src/index.js:51-55 | two non-latest category strings with equal lower case give identical results |
| Posts.CapitalisedLatestIsACategory | src/index.js:51-55 | `'Latest'` and `'LATEST'` are not latest mode; both give only posts whose category lower-cases to `latest` |
| Posts.MixedCaseCategoryExample | src/index.js:55 | posts filed under `Tech` and `tech` are both listed for `TECH`, in input order |
| Routing.CategoryOf | src/index.js:75 | `/` maps to `a-lifers-tech-blog/`; any other path maps to the slash-free text after its first character, up to the next `/` |
| Routing.BeforeFirstStopsAt | src/index.js:75 | `split('/')[0]` ends exactly at the first `/` |
| Routing.HomeIff | src/index.js:75-78 | the derived category is `home` if and only if the path is `/home` or starts with `/home/` |
| Routing.RootIsNotHome | src/index.js:75-78 | the root path derives `a-lifers-tech-blog/`, not `home` |
| Routing.PathExamples | src/index.js:75 | `/post/3` gives `post`, `/tech` gives `tech`, `/latest` gives `latest` |
| Page.Excerpt | src/index.js:42 | an excerpt is at most 153 characters, starts with a prefix of the body, and always ends in `...`, even when nothing was cut |
| Page.CardOf | src/index.js:32-44 | a card links to `post.html?id=` followed by the id, carries the title, author and instant, an excerpt of the body, and a cover image exactly when `imagemCapa` is present and non-empty |
| Page.CardsOf | src/index.js:31-46 | one card per post, in order |
| Page.Rendered | src/index.js:26-46 | the placeholder alone exactly when there are no posts; the cards otherwise |
| Page.RenderedCards | src/index.js:31-46 | a non-empty render has one card per post in order, with link `post.html?id=<id>`, the title and author, and a bounded `...` excerpt; it has no placeholder |
| Page.ActiveFor | src/index.js:99-111 | on `home` a link to `/` is active exactly when its category is `latest`; otherwise a link is active exactly when its non-empty category equals the current one, ignoring case; an active link always has a non-empty category |
| Page.Highlighted | src/index.js:92-112 | every link's active state is recomputed from scratch by `ActiveFor`; hrefs and categories are unchanged |
| Page.HighlightIdempotent | src/index.js:92-112 | highlighting twice for the same category is highlighting once |
| Page.UncategorisedLinkNeverActive | src/index.js:99-108 | a link without a non-empty `data-category` is never active |
| Page.HighlightIgnoresCase | src/index.js:108 | away from `home`, current categories with equal lower case highlight the same links |
| Page.HomeHighlightsLatestRootLink | src/index.js:99-107 | on `home`, a link to `/` is active exactly when its category is `latest` |
| Page.RootPathLeavesLatestInactive | src/index.js:75-108 | visiting `/` never highlights a `latest` link |
| Page.Document.TogglePostContainers | src/index.js:59-69 | each present container is shown (`block`) or hidden (`none`); a missing one is untouched |
| Page.Document.RenderDynamicPosts | src/index.js:18-47 | with a container, its children become `Rendered(posts)`; without one, nothing changes |
| Page.Document.UpdateActiveClass | src/index.js:92-112 | the links array becomes `Highlighted` of its old contents |
| Page.Document.HandleRoute | src/index.js:73-89 | the category is derived from the path. On `home` the fixed section is shown, the container is hidden and holds the placeholder, and nothing is filtered. Otherwise the fixed section is hidden, the container is shown and holds the rendered filter result. The links are highlighted for the derived category in both cases |

## Left out

- `fetchPosts` (src/index.js:4-15) is a network request and JSON parse. Its result, including the empty collection it falls back to on failure, is the `fetched` parameter of `HandleRoute`. The error logging is not modelled.
- Dates: `dataPublicacao` is an integer instant. Parsing ISO strings with `new Date`, the NaN comparator for invalid dates, and the `pt-BR` date formatting of a card are not modelled. A card carries the raw instant.
- HTML: the markup of cards and of the placeholder, `innerHTML` parsing and escaping are not modelled. Only the view-model structure is kept.
- Event wiring and history (src/index.js:115-158): the `DOMContentLoaded`, click and `popstate` listeners, `pushState` and `preventDefault` are browser plumbing. `HandleRoute` takes the path as an argument.
- Concurrency: overlapping asynchronous `handleRoute` calls can race. Each `HandleRoute` call is modelled on its own, with nothing in between.
- `homePageContent` (src/index.js:160-228) is an unreferenced template string.
- Text.LowerChar, Text.Lower, Posts.InCategory: the fold covers only ASCII A-Z. `toLowerCase` applies full Unicode case mapping: it folds other letters, can change a string's length (`İ` becomes two code units) and depends on context (final sigma). So the per-character, length-keeping fold and InCategory's equal-length clause hold of the model only.
- Page.Excerpt: counts characters, where `substring(0, 150)` counts UTF-16 code units; the two differ for text outside the Basic Multilingual Plane.
- Page.Document.RenderDynamicPosts: models only the `posts-container` container. That is the one every call in the file uses; the `containerId` parameter is dropped. The `console.error` message for a missing container (src/index.js:21) is not modelled; only the fact that nothing changes is.
- Page.NavLink: the `active` class and `aria-current="page"` are always set and removed together. One flag stands for both. A missing `href` is modelled as `""`, which behaves the same because only equality with `/` is tested.
- Posts.Post: the id is modelled as the text it prints as in `post.html?id=${post.id}`. The conversion of a numeric id to text is not modelled, and fields are assumed present (a missing `conteudo` would throw in the source).
