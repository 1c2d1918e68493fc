# Blog client: list filter, post form and detail view

This project is a Dafny model of the logic in a small React blog client. The
client reads posts (`Blog` records) from a REST API, shows them in a
searchable list next to a detail pane, and lets a user write a new post. The
model covers the three components that compute something:

- **List view** (`BlogList.dfy`). It builds the category vocabulary shown as
  badges. This is the `categories` memo: an insertion-ordered `Set` filled by
  two nested loops, modelled as a method with loop invariants. It also models
  the search-and-category filter (`filteredBlogs`) and the two pieces of view
  state that drive it (`searchTerm`, `selectedCategory`), kept in a class.
- **Creation form** (`CreateBlog.dfy`). It models the `formData` record and
  its `handleChange` updater, the category parse
  (`split(",")`, then `trim()`, then `toUpperCase()`), and the `blogData`
  request body.
- **Detail view** (`BlogDetail.dfy`). It models which screen is shown
  (prompt, skeleton, error or post), the "min read" figure, the cover-image
  fallback and the tag labels.

`Text.dfy` defines the JavaScript string built-ins these rely on:
`includes`, `trim`, `split` on one character, `split(/\s+/)` and ASCII case
mapping. It also proves their properties: split/join round trips, piece
counts, and the characterization of `trim`. `Blogs.dfy` holds the post
record and `Wrappers.dfy` the `Option` type used for JavaScript's
`undefined`.

The model follows the code where its behaviour differs from a loose
reading of the app:

- The vocabulary is not an unordered set. It is the array of a JavaScript
  `Set`, so it keeps first-occurrence order.
- Parsed categories are not de-duplicated.
- The reading time counts split pieces, not words. Empty leading and
  trailing pieces count too, and content and description are joined with no
  separator.
- A selected category that is the empty string is falsy in JavaScript, so it
  filters nothing, the same as no selection. Such a category can arise, for
  example from the input `"a,,b"`. The model keeps this: see
  `MatchesCategory` and `BlogList.NoFilterKeepsAll`.

## Model

| member | source | states |
|---|---|---|
| `Text.IsSpace` | src/components/BlogDetail.jsx:94 | computes membership in the `\s` class, the same whitespace `trim()` removes: the ASCII tab to carriage return and space, plus the non-ASCII list in `IsWideSpace`; no contract of its own |
| `Text.Includes` | src/components/BlogList.tsx:35-36 | computes `s.includes(t)`; no contract of its own, characterized by `Text.IncludesAt` |
| `Text.Lower` | src/components/BlogList.tsx:35-36 | computes `toLowerCase()` for ASCII letters; no contract of its own, its laws are in `Text.LowerFacts` |
| `Text.Upper` | src/pages/CreateBlog.jsx:41 | computes `toUpperCase()` for ASCII letters; no contract of its own, its laws are in `Text.UpperFacts` |
| `Text.IncludesAt` | src/components/BlogList.tsx:35-36 | `includes(s, t)` holds exactly when `t` equals some slice `s[i..i+|t|]` |
| `Text.LowerFacts` | src/components/BlogList.tsx:35-36 | lower-casing leaves no capital letter, is idempotent, changes no whitespace, and upper-casing afterwards equals upper-casing directly; the first and last clauses together fix every character of the result |
| `Text.UpperFacts` | src/pages/CreateBlog.jsx:41 | upper-casing leaves no small letter, is idempotent, changes no whitespace, and lower-casing afterwards equals lower-casing directly |
| `Text.Trim` | src/pages/CreateBlog.jsx:41 | the trimmed text neither starts nor ends with whitespace and is no longer than the input |
| `Text.TrimIsInnerBlock` | src/pages/CreateBlog.jsx:41 | if the text outside `s[i..j]` is all whitespace and `s[i..j]` has no whitespace at either end, then `trim` returns exactly `s[i..j]` |
| `Text.Split` | src/pages/CreateBlog.jsx:41 | splitting on one character gives one piece more than there are separators, and no piece holds the separator |
| `Text.JoinSplit` | src/pages/CreateBlog.jsx:41 | joining the pieces with the separator gives back the input |
| `Text.SplitJoin` | src/pages/CreateBlog.jsx:41 | splitting a join of separator-free pieces gives back those pieces |
| `Text.SplitWs` | src/components/BlogDetail.jsx:94 | `split(/\s+/)` yields at least one piece, and no piece holds whitespace |
| `Text.SplitWsCount` | src/components/BlogDetail.jsx:94 | the number of pieces is the number of maximal whitespace runs plus one |
| `Text.SplitWsKeepsText` | src/components/BlogDetail.jsx:94 | the pieces, put side by side, are the input's non-whitespace characters in order |
| `Text.NoSpaceSinglePiece` | src/components/BlogDetail.jsx:94 | a text without whitespace is a single piece, itself |
| `Text.SplitWsAtRun` | src/components/BlogDetail.jsx:94 | a word followed by a maximal whitespace run ends a piece there: the pieces of `p + w + q` are `p` and then the pieces of `q`; with `NoSpaceSinglePiece` this fixes every piece boundary |
| `Blogs.CategoriesOf` | src/components/BlogList.tsx:27 | computes the array that `blog.category?.forEach` visits: the `category` array, or nothing when it is absent; no contract of its own |
| `BlogList.Add` | src/components/BlogList.tsx:27 | computes `cats.add(c)` on an insertion-ordered `Set`: unchanged if `c` is present, otherwise `c` appended; no contract of its own, its laws are in `BlogList.AddAllMembers`, `AddAllNoDuplicates` and `AddAllFirstOccurrenceOrder` |
| `BlogList.Vocabulary` | src/components/BlogList.tsx:23-29 | computes the `categories` memo as a value: `[]` while `blogs` is undefined, otherwise every category added in turn to an empty `Set`; no contract of its own, the method `BlogList.Categories` is proved equal to it |
| `BlogList.Categories` | src/components/BlogList.tsx:23-30 | the nested-loop `Set` build returns the first-occurrence de-duplication of all blogs' categories, and `[]` while `blogs` is undefined |
| `BlogList.AddAllMembers` | src/components/BlogList.tsx:25-29 | after adding `xs` to a `Set`, it holds exactly what it held before plus the elements of `xs` |
| `BlogList.AddAllNoDuplicates` | src/components/BlogList.tsx:25-29 | adding to a duplicate-free `Set` never creates a duplicate |
| `BlogList.AddAllFirstOccurrenceOrder` | src/components/BlogList.tsx:25-29 | starting empty, the `Set`'s elements come from `xs` in the order of their first occurrence |
| `BlogList.FlattenMembers` | src/components/BlogList.tsx:26-27 | a string is visited by the loops exactly when some blog's present `category` array holds it |
| `BlogList.VocabularyNoDuplicates` | src/components/BlogList.tsx:25-29 | `categories` holds no string twice |
| `BlogList.VocabularyMembers` | src/components/BlogList.tsx:26-28 | a string is in `categories` if and only if some blog's `category` array holds it; blogs without the array contribute nothing |
| `BlogList.VocabularyOrder` | src/components/BlogList.tsx:25-29 | `categories` lists each string in the order of its first occurrence across the blogs, then within each blog's array |
| `BlogList.UndefinedBlogsShowNothing` | src/components/BlogList.tsx:24-33 | with `blogs` undefined, both memos are empty |
| `BlogList.MatchesSearch` | src/components/BlogList.tsx:35-36 | computes `matchesSearch`: the lower-cased title or the lower-cased description includes the lower-cased term; no contract of its own, used by `BlogList.FilterMembers` |
| `BlogList.MatchesCategory` | src/components/BlogList.tsx:37 | computes `matchesCategory`: with a truthy selection (present and not `""`) the blog's array must be present and hold it, otherwise `true`; no contract of its own, used by `BlogList.FilterMembers`, `NoFilterKeepsAll` and `SelectedCategoryExcludes` |
| `BlogList.Keep` | src/components/BlogList.tsx:38 | computes the callback's result, `matchesSearch && matchesCategory`; no contract of its own |
| `BlogList.FilteredBlogs` | src/components/BlogList.tsx:32-39 | computes the `filteredBlogs` memo: `[]` while `blogs` is undefined (line 33), otherwise `FilterBlogs`; no contract of its own, see `BlogList.UndefinedBlogsShowNothing` |
| `BlogList.FilterBlogs` | src/components/BlogList.tsx:34-39 | the filter never lengthens the list |
| `BlogList.FilterMembers` | src/components/BlogList.tsx:34-38 | a blog is in `filteredBlogs` if and only if it is in `blogs` and satisfies `matchesSearch && matchesCategory` |
| `BlogList.FilterIsSubsequence` | src/components/BlogList.tsx:34 | `filteredBlogs` is an order-preserving subsequence of `blogs` |
| `BlogList.FilterMultiplicity` | src/components/BlogList.tsx:34-38 | a passing blog appears as often as in `blogs`, and a failing one never does |
| `BlogList.FilterAppend` | src/components/BlogList.tsx:34 | filtering a concatenation filters each part |
| `BlogList.EmptySearchMatches` | src/components/BlogList.tsx:35-36 | every title contains `""`, so an empty search matches every blog |
| `BlogList.NoFilterKeepsAll` | src/components/BlogList.tsx:35-37 | an empty search with no selection (or the falsy selection `""`) keeps every blog, in order |
| `BlogList.SelectedCategoryExcludes` | src/components/BlogList.tsx:37 | with a category selected, a blog whose array is absent or lacks it is dropped |
| `BlogList.SearchCaseBlind` | src/components/BlogList.tsx:35-36 | two search terms with the same lower-case form give the same list |
| `BlogList.SearchIgnoresCase` | src/components/BlogList.tsx:35-36 | upper- or lower-casing the search term does not change the list |
| `BlogList.SearchThenCategory` | src/components/BlogList.tsx:34-38 | searching first, then narrowing by category, equals the combined filter |
| `BlogList.CategoryThenSearch` | src/components/BlogList.tsx:34-38 | narrowing by category first, then searching, equals the combined filter |
| `BlogList.FilterOrderIrrelevant` | src/components/BlogList.tsx:34-38 | the search and the category filter commute |
| `BlogList.SearchExample` | src/components/BlogList.tsx:35-36 | searching "tax" among "Tax Tips" and "Audit 101" keeps only "Tax Tips" |
| `BlogList.Toggle` | src/components/BlogList.tsx:93 | clicking the selected badge clears the selection; clicking any other badge selects it |
| `BlogList.ToggleTwice` | src/components/BlogList.tsx:93 | two clicks on one badge restore the selection exactly when it was empty or that badge |
| `BlogList.Filters.constructor` | src/components/BlogList.tsx:20-21 | the search term starts as `""` and the selection as `null` |
| `BlogList.Filters.Type` | src/components/BlogList.tsx:67 | typing sets the search term and keeps the selection |
| `BlogList.Filters.ClearSearch` | src/components/BlogList.tsx:71 | the clear button empties the search term and keeps the selection |
| `BlogList.Filters.ShowAll` | src/components/BlogList.tsx:84 | "All" clears the selection, keeps the search term, and leaves only the search applied |
| `BlogList.Filters.ClickCategory` | src/components/BlogList.tsx:93 | a badge click toggles the selection and keeps the search term |
| `BlogList.Filters.ClearFilters` | src/components/BlogList.tsx:107 | "Clear filters" resets both pieces of state, after which every loaded blog is shown |
| `CreateBlog.Update` | src/pages/CreateBlog.jsx:34 | the updater sets the named field to the new value, and every other field keeps its value |
| `CreateBlog.UpdateLaws` | src/pages/CreateBlog.jsx:32-35 | the last value typed into a field wins; retyping a field's own value changes nothing; edits to different fields commute |
| `CreateBlog.Form.constructor` | src/pages/CreateBlog.jsx:16-22 | all five inputs start empty |
| `CreateBlog.Form.HandleChange` | src/pages/CreateBlog.jsx:32-35 | the form state becomes the old state with the named field replaced |
| `CreateBlog.Form.HandleSubmit` | src/pages/CreateBlog.jsx:37-44 | the body sent is `blogData` for the current form and time, with one category per comma plus one |
| `CreateBlog.Normalize` | src/pages/CreateBlog.jsx:41 | a trimmed, upper-cased piece has no whitespace at either end and no small letter |
| `CreateBlog.NormalizeAll` | src/pages/CreateBlog.jsx:41 | mapping keeps the number of pieces, and every result is normalized |
| `CreateBlog.ParseCategories` | src/pages/CreateBlog.jsx:41 | the parsed array has exactly (number of commas) + 1 elements, each with no outer whitespace and entirely upper-case |
| `CreateBlog.ParseKeepsOrder` | src/pages/CreateBlog.jsx:41 | for an input joined from comma-free parts, category `k` is part `k` trimmed and upper-cased, so order, repeats and empty parts are kept |
| `CreateBlog.ParseExampleFinanceTech` | src/pages/CreateBlog.jsx:41 | `"finance, Tech"` parses to `["FINANCE", "TECH"]` |
| `CreateBlog.ParseExampleRepeated` | src/pages/CreateBlog.jsx:41 | `"a, A"` parses to `["A", "A"]` (no de-duplication) |
| `CreateBlog.ParseExampleEmptyPiece` | src/pages/CreateBlog.jsx:41 | `"a,,b"` parses to `["A", "", "B"]` |
| `CreateBlog.BlogData` | src/pages/CreateBlog.jsx:39-43 | title, description, cover image and content are copied unchanged; only `category` is replaced by the parse, and `date` is added |
| `CreateBlog.ChangeThenSubmit` | src/pages/CreateBlog.jsx:32-43 | an edit to one input changes exactly one field of the request body: a copied field, or the parsed categories |
| `BlogDetail.HasId` | src/components/BlogDetail.jsx:19 | computes the negation of `!id`: the id is defined and not the empty string; no contract of its own, used by `BlogDetail.ScreenFor` |
| `BlogDetail.ScreenFor` | src/components/BlogDetail.jsx:19-57 | the prompt shows exactly when there is no id; the skeleton exactly when there is an id and loading; the error exactly when there is an id, no loading and an error; the post only when there is an id and neither flag |
| `BlogDetail.ScreenPrecedence` | src/components/BlogDetail.jsx:19-51 | without an id the flags do not matter; with an id, loading takes precedence over an error |
| `BlogDetail.Minutes` | src/components/BlogDetail.jsx:94 | `ceil(p / 200)`: the least `m` with `200 * (m - 1) < p <= 200 * m` |
| `BlogDetail.ReadingTime` | src/components/BlogDetail.jsx:94 | the figure is at least 1, and it is the ceiling of the piece count of `content + description` over 200 |
| `BlogDetail.ReadingTimeFromRuns` | src/components/BlogDetail.jsx:94 | the figure equals `ceil((whitespace runs + 1) / 200)` of the joined text |
| `BlogDetail.MinutesExamples` | src/components/BlogDetail.jsx:94 | 400 pieces give 2, 201 give 2, 200 give 1 |
| `BlogDetail.RunEdgesAppend` | src/components/BlogDetail.jsx:94 | joining two texts adds one run start exactly when a word ends the first and whitespace starts the second |
| `BlogDetail.PiecesOfJoinedText` | src/components/BlogDetail.jsx:94 | the piece count of `content + description` is the content's count plus the description's count, minus one, minus one more when the content ends and the description starts with whitespace |
| `BlogDetail.DescriptionGluedToContent` | src/components/BlogDetail.jsx:94 | a description without whitespace adds no piece to the content's count |
| `BlogDetail.CoverSource` | src/components/BlogDetail.jsx:64 | the image is never empty: it is `coverImage` when that is non-empty, otherwise the fixed default URL |
| `BlogDetail.TagLabel` | src/components/BlogDetail.jsx:110 | a label is `#` followed by the tag with no capital letter and equal to the tag ignoring case |
| `BlogDetail.TagLabels` | src/components/BlogDetail.jsx:109-111 | one label per category, in order, and none when the array is absent |

## Left out

- The HTTP wrappers in `src/lib/api.ts` and `src/lib/api.js` are not part of this model; only the `Blog` record (src/lib/api.ts:3-13) is. They are plain request/response calls.
- Routing (`src/App.jsx`) and the page layout (`src/pages/Home.jsx`) are not part of this model. They are framework wiring and CSS visibility only.
- Query caching, `invalidateQueries`, `navigate` after success, and the submit button disabled while `mutation.isPending`. These are library-managed asynchronous behaviour.
- `mutation.mutate` itself. `CreateBlog.Form.HandleSubmit` returns the body that would be sent.
- The wall-clock timestamp `new Date().toISOString()` is a parameter (`now`).
- Date parsing and locale formatting of `blog.date`, which are host APIs.
- The list view's own loading and error screens (src/components/BlogList.tsx:42-55), JSX markup, CSS classes, skeletons and icons.
- The HTML `required` checks of the form, which the browser performs.
- Case mapping covers ASCII letters only. `toLowerCase` and `toUpperCase` also map non-ASCII letters, and the model leaves those unchanged. Whitespace follows the full ECMAScript list (all of it in the Basic Multilingual Plane).
- The handlers of `BlogList.Filters` accept every state and argument. In the source, the clear button shows only while `searchTerm` is non-empty (src/components/BlogList.tsx:69). "All" and the badges show only when `categories` is non-empty (:79), and a badge's category always comes from `categories` (:88). "Clear filters" shows only when `filteredBlogs` is empty (:103). Every contract holds in every state, so these visibility conditions are not modelled.
- `handleChange` can only receive one of the five input names, so `Field` has five values. A foreign `name` would add a new key in the source.
- `BlogDetail.ScreenFor` decides the screen only. The query library's `isLoading` flag can be false before any data has arrived (for example, a query paused while offline has no data, no error and `isLoading` false). The source then reaches the post branch with an undefined `blog` and dereferences it. That library state, and the resulting crash, are not part of this model.
- `Math.ceil` runs on floating point in the source. The model divides integers, which agrees for every piece count below 2^53.
- `BlogList.FilterBlogs`: its own contract states only the length bound. The exact keep/drop semantics are in `BlogList.FilterMembers`, `BlogList.FilterIsSubsequence` and `BlogList.FilterMultiplicity`.
