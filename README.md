# WhichAI blog and catalogue logic in Dafny

WhichAI is a catalogue of AI tools with a small blog. This project models the
parts of it that compute something, not the parts that only fetch or render:

- **Slugs and read time** (`Blog`). Write-time metadata of an article:
  - `generateSlug` turns a title into a URL slug through a chain of four
    rewrites and a `trim`.
  - `estimateReadTime` walks the Editor.js block document. It counts words
    with the `split(" ")` rule and the `content`/`text`/`value` fallback for
    list items, then converts the count to minutes.
- **Logo file names** (`OptimizedLogo`). A lookup table with a second,
  different slugifier as fallback, and the `isLoading`/`hasError` flags that
  choose between the image and a letter tile.
- **Category chips** (`CategoryLabels`). The toggle rule, the comparator sort
  that puts the selected category first, the close marker, and the colour
  table lookup (which misses for "Automation").
- **Static article catalogue** (`BlogPosts`). The four built-in articles,
  first-match lookup by slug, and the featured/regular filters.
- **New-article page** (`CreatePost`). The title guard, the record built on
  save and on publish (slug, SEO defaults, status, publication time, author),
  and the `isSaving` flag.
- **Comment section** (`Comments`). Append on submit, remove by id on
  delete, clearing the input, the `isSubmitting` flag, the heading count, and
  who sees a delete button.

Four support modules:

- `Wrappers` holds the `Option` datatype.
- `JsStrings` models the JavaScript string operations the code relies on:
  ASCII `toLowerCase`/`toUpperCase`, the `\s` class and `trim`, `/-+/g`
  collapsing, and decimal rendering.
- `Sequences` holds subsequence facts.
- `AuthUser` is the signed-in user.

Pure code becomes functions and lemmas. `estimateReadTime` keeps its two
nested loops as a method proved equal to a specification function. The React
components with state become classes whose methods are the event handlers.
Each handler is one atomic step. The store's answer is a parameter: a boolean,
or the stored comment as an `Option`. What the store was asked to do, and the
value of the busy flag during that call, are returned as an out-parameter.

Two behaviours of the code are worth knowing:

- The closing `trim()` of `generateSlug` strips whitespace only, and none is
  left by then. Leading and trailing hyphens therefore stay
  (`Blog.SlugKeepsEdgeHyphens`): a title padded with blanks gives a slug with
  a hyphen at each end.
- `estimateReadTime` splits text on a single space character. A double space
  adds a word, and a tab or `&nbsp;` separates nothing
  (`Blog.WordCountExamples`).

## Model

| member | source | states |
|---|---|---|
| JsStrings.ToLowerChar | src/lib/blog/blog.ts:7 | an upper-case ASCII letter maps to its lower-case letter (code point + 32); every other character is unchanged |
| JsStrings.ToLower | src/lib/blog/blog.ts:7 | the result has the same length and maps each character on its own |
| JsStrings.ToUpperChar | src/components/OptimizedLogo.tsx:89 | a lower-case ASCII letter maps to its capital; every other character is unchanged |
| JsStrings.ToLowerAppend | src/lib/blog/blog.ts:7 | lowercasing splits over concatenation |
| JsStrings.IsWhitespace | src/lib/blog/blog.ts:9 | the `\s` class: the ECMAScript WhiteSpace and LineTerminator code points; no letter or digit is in it (`WordHasNoWhitespace`) |
| JsStrings.CollapseHyphens | src/lib/blog/blog.ts:10 | no two hyphens are adjacent in the result; it is no longer than the input, uses only the input's characters, and keeps the first and last character |
| JsStrings.CollapseHyphensIdentity | src/lib/blog/blog.ts:10 | a string without a double hyphen is left unchanged |
| JsStrings.CollapseHyphensKeepsAlnum | src/lib/blog/blog.ts:10 | collapsing keeps every letter and digit, in order |
| JsStrings.CollapseHyphensSplit | src/lib/blog/blog.ts:10 | collapsing splits over a concatenation whose boundary is not inside a run of hyphens |
| JsStrings.CollapseHyphensRun | src/lib/blog/blog.ts:10 | a non-empty run of hyphens becomes exactly one hyphen |
| JsStrings.CollapseRunBetweenWords | src/lib/blog/blog.ts:10 | a run of hyphens between two words of letters and digits becomes one hyphen: `a + w + b` gives `a + "-" + b` |
| JsStrings.OneHyphenBetweenWords | src/lib/blog/blog.ts:10 | two words of letters and digits joined by one hyphen have no double hyphen |
| JsStrings.TrimStart | src/lib/blog/blog.ts:11 | the result is a suffix of the input; everything dropped is whitespace; the result does not start with whitespace |
| JsStrings.TrimEnd | src/lib/blog/blog.ts:11 | the result is a prefix of the input; everything dropped is whitespace; the result does not end with whitespace |
| JsStrings.Trim | src/components/Comments.tsx:32 | `trim()` is `trimEnd` after `trimStart`; its meaning is stated by `TrimEmptyIffBlank` and `TrimIdentity` |
| JsStrings.TrimEmptyIffBlank | src/components/Comments.tsx:32 | `trim` gives the empty string exactly when every character is whitespace (both directions) |
| JsStrings.TrimIdentity | src/lib/blog/blog.ts:11 | a string with no whitespace at either end is unchanged by `trim` |
| JsStrings.DecimalString | src/components/Comments.tsx:63 | a count renders as at least one decimal digit, with no leading zero |
| JsStrings.DecimalRoundTrip | src/components/Comments.tsx:63 | reading a rendered count back gives the count |
| Blog.RemoveSpecialChars | src/lib/blog/blog.ts:8 | only `[a-z0-9 -]` remains, as a subsequence of the input; every blank and every hyphen of the input is kept (same counts); the result is no longer than the input; a first or last character from that class is kept |
| Blog.RemoveSpecialCharsIdentity | src/lib/blog/blog.ts:8 | a string drawn from `[a-z0-9 -]` is unchanged |
| Blog.RemoveSpecialCharsKeepsAlnum | src/lib/blog/blog.ts:8 | deleting special characters keeps every letter and digit, in order |
| Blog.RemoveSpecialCharsWithoutSeparators | src/lib/blog/blog.ts:8 | without blanks or hyphens, exactly the letters and digits remain |
| Blog.HyphenateWhitespace | src/lib/blog/blog.ts:9 | no whitespace is left; every character is a hyphen or one of the input's; an edge whitespace character becomes an edge hyphen |
| Blog.HyphenateWhitespaceIdentity | src/lib/blog/blog.ts:9 | a string without whitespace is unchanged |
| Blog.HyphenateWhitespaceKeepsAlnum | src/lib/blog/blog.ts:9 | hyphenating keeps every letter and digit, in order |
| Blog.HyphenateWhitespaceSplit | src/lib/blog/blog.ts:9 | hyphenation splits over a concatenation whose boundary is not inside a run of whitespace |
| Blog.HyphenateWhitespaceRun | src/lib/blog/blog.ts:9 | a non-empty run of whitespace becomes exactly one hyphen |
| Blog.HyphenateRunBetweenWords | src/lib/blog/blog.ts:9 | a whitespace run between two words without whitespace becomes one hyphen: `a + w + b` gives `a + "-" + b` |
| Blog.SlugBeforeTrim | src/lib/blog/blog.ts:6-10 | after the four rewrites the text has only `a`-`z`, `0`-`9` and `-`, no double hyphen and no whitespace |
| Blog.GenerateSlug | src/lib/blog/blog.ts:5-12 | every slug uses only `a`-`z`, `0`-`9` and `-` and has no two adjacent hyphens |
| Blog.SlugTrimIsNoOp | src/lib/blog/blog.ts:9-11 | the final `trim` changes nothing |
| Blog.SlugFixpoint | src/lib/blog/blog.ts:5-12 | a well-formed slug is its own slug |
| Blog.SlugIdempotent | src/lib/blog/blog.ts:5-12 | the slug of a slug is the same slug |
| Blog.SlugKeepsAlnum | src/lib/blog/blog.ts:7-10 | the slug's letters and digits are exactly those of the lowercased title, in order |
| Blog.SlugWithoutSeparators | src/lib/blog/blog.ts:7-9 | a title with no blank and no hyphen gives exactly its lowercased letters and digits: tabs, newlines and punctuation are deleted, not hyphenated |
| Blog.SlugOfJoinedWords | src/lib/blog/blog.ts:8-9 | two lower-case words joined by any character other than a letter, digit, blank or hyphen (such as a tab) give the two words run together |
| Blog.SlugOfSpacedWords | src/lib/blog/blog.ts:5-12 | two lower-case words separated by one or more blanks give the two words joined by exactly one hyphen (`"a   b"` gives `"a-b"`) |
| Blog.SlugKeepsEdgeHyphens | src/lib/blog/blog.ts:9-11 | a title starting (ending) with a blank gives a slug starting (ending) with a hyphen |
| Blog.SplitOnSpace | src/lib/blog/blog.ts:21 | `split(" ")` yields one more piece than there are blanks, and no piece holds a blank |
| Blog.SplitJoinRoundTrip | src/lib/blog/blog.ts:21 | joining the pieces with blanks gives the text back |
| Blog.WordsInJoin | src/lib/blog/blog.ts:21 | two non-empty texts joined by one blank count as many words as the two apart |
| Blog.WordsIn | src/lib/blog/blog.ts:21 | the words of a truthy text, `split(" ").length`: one more than its blanks; `SplitOnSpace` ties it to the piece count, and `WordsInJoin` to concatenation |
| Blog.ItemText | src/lib/blog/blog.ts:27-33 | a string item is its own text; an object item's text is the first truthy of `content`, `text`, `value`, and empty only if none is; any other item has empty text |
| Blog.Truthy | src/lib/blog/blog.ts:20-32 | JavaScript truthiness of an optional string: present and not empty |
| Blog.ItemTextExamples | src/lib/blog/blog.ts:28-33 | the fallback on sample items: content wins, an empty content falls through to text, no field gives empty text |
| Blog.ItemsWords | src/lib/blog/blog.ts:25-38 | the words of a list block, each truthy item text counted with `WordsIn`; `ItemsWordsAppend` and the inner loop of `EstimateReadTime` state it |
| Blog.BlockWords | src/lib/blog/blog.ts:19-39 | a truthy paragraph or header text counts its words, a list with items counts its items, every other block counts nothing; `EstimateReadTime` is proved against it |
| Blog.BlocksWords | src/lib/blog/blog.ts:19-40 | the words of a document, block by block; `BlocksWordsAppend` and the outer loop of `EstimateReadTime` state it |
| Blog.Minutes | src/lib/blog/blog.ts:43 | at least 1, at least `n / 200` rounded up, and the least such number (1 or `200 * (m - 1) < n`) |
| Blog.MinutesMonotone | src/lib/blog/blog.ts:43 | more words never give fewer minutes |
| Blog.MinutesBoundary | src/lib/blog/blog.ts:43 | 0 and 200 words give 1 minute, 201 words give 2 |
| Blog.ReadTime | src/lib/blog/blog.ts:15-44 | the estimate is at least 1, and exactly 1 when the content or its `blocks` is missing |
| Blog.EstimateReadTime | src/lib/blog/blog.ts:15-44 | the nested accumulation loops return exactly `ReadTime(content)` |
| Blog.ItemsWordsAppend | src/lib/blog/blog.ts:25-38 | the word count of a list of items adds over concatenation |
| Blog.BlocksWordsAppend | src/lib/blog/blog.ts:19-40 | the word count of a block list adds over concatenation |
| Blog.BlocksWordsOfThree | src/lib/blog/blog.ts:19-43 | a three-block document reads in `Minutes` of the sum of its blocks' words |
| Blog.ReadTimeMonotoneInBlocks | src/lib/blog/blog.ts:19-43 | appending blocks never lowers the estimate |
| Blog.ReadTimeMonotoneInItems | src/lib/blog/blog.ts:24-43 | appending items to a list block anywhere in the document never lowers the estimate |
| Blog.WordCountExamples | src/lib/blog/blog.ts:20-23 | `"a  b"` counts 3 words; `"a&nbsp;b"` and `"a\tb"` count 1 |
| Blog.SampleParagraphWords | src/lib/blog/blog.ts:20-21 | the paragraph `"a b"` counts 2 words |
| Blog.SampleListWords | src/lib/blog/blog.ts:24-38 | a list of two one-word string items counts 2 words |
| Blog.SampleDocumentReadTime | src/lib/blog/blog.ts:15-44 | a heading, a paragraph and a two-item list read in one minute |
| OptimizedLogo.HyphenateNonAlnum | src/components/OptimizedLogo.tsx:66 | same length; letters and digits stay in place; every other character becomes one hyphen |
| OptimizedLogo.HyphenateNonAlnumIdentity | src/components/OptimizedLogo.tsx:66 | a string drawn from `[a-z0-9-]` is unchanged |
| OptimizedLogo.HyphenateNonAlnumKeepsAlnum | src/components/OptimizedLogo.tsx:65-66 | hyphenating keeps exactly the letters and digits, in order |
| OptimizedLogo.StripEdgeHyphens | src/components/OptimizedLogo.tsx:68 | `"-"` becomes empty; otherwise exactly the end characters that are hyphens go, and the result is `s[1..|s|-1]`, `s[1..]`, `s[..|s|-1]` or `s` itself; no double hyphen appears; without double hyphens, no hyphen is left at either end |
| OptimizedLogo.StripEdgeHyphensKeepsAlnum | src/components/OptimizedLogo.tsx:68 | stripping keeps every letter and digit |
| OptimizedLogo.HyphenateNonAlnumAppend | src/components/OptimizedLogo.tsx:66 | hyphenation splits over concatenation |
| OptimizedLogo.FallbackFileName | src/components/OptimizedLogo.tsx:64-68 | the fallback name uses only `[a-z0-9-]`, has no double hyphen and no hyphen at either end |
| OptimizedLogo.FallbackKeepsAlnum | src/components/OptimizedLogo.tsx:65-68 | the fallback keeps the lowercased name's letters and digits, in order |
| OptimizedLogo.FallbackEmptyIffNoAlnum | src/components/OptimizedLogo.tsx:65-68 | the fallback is empty exactly when the name has no letter or digit (both directions) |
| OptimizedLogo.FallbackIdempotent | src/components/OptimizedLogo.tsx:65-68 | the fallback of a fallback name is that name (via `FallbackFixpoint`) |
| OptimizedLogo.FallbackFixpoint | src/components/OptimizedLogo.tsx:64-68 | a name already of the fallback form (`[a-z0-9-]`, no double hyphen, no hyphen at either end) is its own fallback |
| OptimizedLogo.FallbackOfSeparatedWords | src/components/OptimizedLogo.tsx:64-68 | two lower-case words with any non-empty run of characters that are not letters or digits between them give the two words joined by one hyphen (`"foo & bar"` gives `"foo-bar"`) |
| OptimizedLogo.LowerOfSeparatedWords | src/components/OptimizedLogo.tsx:65 | lowercasing keeps the two words and lowers the run between them |
| OptimizedLogo.HyphenateSeparatedWords | src/components/OptimizedLogo.tsx:65-66 | after lowercasing and hyphenation the words stay and the run between them is all hyphens |
| OptimizedLogo.NoAlnumIsHyphens | src/components/OptimizedLogo.tsx:66-68 | a `[a-z0-9-]` string without letters or digits is all hyphens |
| OptimizedLogo.MappingIsIdentityExceptSudoWrite | src/components/OptimizedLogo.tsx:25-61 | every table entry equals its key, except `SudoWrite`, which maps to `Sudowrite` |
| OptimizedLogo.FileName | src/components/OptimizedLogo.tsx:64 | `logoMapping[name] \|\| fallback`: a non-empty table entry wins, otherwise the fallback name; `MappedLogoPath` and `UnmappedLogoPath` state both cases |
| OptimizedLogo.GetLogoPath | src/components/OptimizedLogo.tsx:23-71 | the path `/api/logos/<file name>.png`; `MappedLogoPath`, `UnmappedLogoPath`, `GithubCopilotKeepsCase` and `EmptyFallbackPath` state what it gives |
| OptimizedLogo.MappedLogoPath | src/components/OptimizedLogo.tsx:63-70 | a name in the table is fetched under its table entry |
| OptimizedLogo.UnmappedLogoPath | src/components/OptimizedLogo.tsx:63-70 | a name outside the table is fetched under its fallback name |
| OptimizedLogo.GithubCopilotKeepsCase | src/components/OptimizedLogo.tsx:34-70 | `GithubCopilot` keeps its capitals in the path, which the fallback would have lowered |
| OptimizedLogo.EmptyFallbackPath | src/components/OptimizedLogo.tsx:64-70 | an unmapped name with no letter or digit is fetched under `/api/logos/.png` |
| OptimizedLogo.Initial | src/components/OptimizedLogo.tsx:89 | the tile letter is the capitalised first character, or empty for an empty name |
| OptimizedLogo.LogoImage.constructor | src/components/OptimizedLogo.tsx:20-21 | a logo starts loading and without error |
| OptimizedLogo.LogoImage.HandleLoad | src/components/OptimizedLogo.tsx:73-75 | loading ends, the error flag is untouched, and without an error the image shows with no placeholder |
| OptimizedLogo.LogoImage.HandleError | src/components/OptimizedLogo.tsx:77-80 | loading ends, the error flag is set, and the letter tile shows |
| OptimizedLogo.LogoImage.View | src/components/OptimizedLogo.tsx:82-113 | the tile shows exactly when there was an error; otherwise the image at the logo path, with a placeholder exactly while loading |
| OptimizedLogo.ErrorIsSticky | src/components/OptimizedLogo.tsx:73-92 | whether the load event comes before or after the error, the tile is what remains |
| CategoryLabels.Toggle | src/components/CategoryLabels.tsx:13-15 | clicking the selected category clears the selection (and only then); clicking any other selects it |
| CategoryLabels.IsSelected | src/components/CategoryLabels.tsx:14 | `selectedCategory === category`, the test behind the toggle, the styles, the sort and the close marker (lines 18, 70 and 89) |
| CategoryLabels.ToggleTwice | src/components/CategoryLabels.tsx:13-15 | two clicks on the same chip from no selection end with no selection |
| CategoryLabels.IndexOf | src/components/CategoryLabels.tsx:77 | the first position of the element, or -1 exactly when it is absent |
| CategoryLabels.IndexOfDistinct | src/components/CategoryLabels.tsx:77 | without repetitions, an element's index is its position |
| CategoryLabels.Compare | src/components/CategoryLabels.tsx:69-78 | the comparator: selected before unselected, otherwise the difference of list positions; `InsertIntoExpected` and `SortSuffix` state the order it produces |
| CategoryLabels.Insert | src/components/CategoryLabels.tsx:69-78 | one insertion step under the comparator adds the element and loses nothing (multiset) |
| CategoryLabels.SortBy | src/components/CategoryLabels.tsx:69-78 | the sort is a permutation of its input (multiset) |
| CategoryLabels.InsertIntoExpected | src/components/CategoryLabels.tsx:69-78 | inserting an element that ranks before the rest keeps the selected-first order |
| CategoryLabels.SortSuffix | src/components/CategoryLabels.tsx:69-78 | sorting any suffix of a list without repetitions gives the selected element first and the rest in list order |
| CategoryLabels.SortByClosedForm | src/components/CategoryLabels.tsx:69-78 | sorting a list without repetitions by its own order gives the selected element first and the rest in list order |
| CategoryLabels.SortedCategories | src/components/CategoryLabels.tsx:69-78 | the copy of the fixed order sorted by the comparator; `SortedCategoriesClosedForm`, `SortedCategoriesIsPermutation`, `SelectedComesFirst`, `UnselectedKeepOrder`, `NoSelectionKeepsOrder` and `UnknownSelectionKeepsOrder` lemmas state it |
| CategoryLabels.OriginalOrderDistinct | src/components/CategoryLabels.tsx:56-66 | no category is listed twice |
| CategoryLabels.SortedCategoriesClosedForm | src/components/CategoryLabels.tsx:56-78 | the sorted chips are the selected category, if listed, followed by the others in the fixed order |
| CategoryLabels.SortedCategoriesIsPermutation | src/components/CategoryLabels.tsx:56-69 | the sorted chips are a permutation of the nine categories |
| CategoryLabels.SelectedComesFirst | src/components/CategoryLabels.tsx:70-74 | a selected listed category is the first chip |
| CategoryLabels.UnselectedKeepOrder | src/components/CategoryLabels.tsx:76-77 | leaving out the selected category, the chips are in the fixed order |
| CategoryLabels.NoSelectionKeepsOrder | src/components/CategoryLabels.tsx:69-78 | with no selection the order is the fixed order |
| CategoryLabels.UnknownSelectionKeepsOrder | src/components/CategoryLabels.tsx:69-78 | selecting a name that is not listed leaves the fixed order |
| CategoryLabels.StyleFor | src/components/CategoryLabels.tsx:23-51 | the lookup hits exactly for the categories in the table, giving the selected or the unselected entry |
| CategoryLabels.ChipClassName | src/components/CategoryLabels.tsx:17-53 | the base classes, a blank, and the colour entry, or `undefined` on a miss; `AutomationHasNoStyle` and `OtherCategoriesHaveStyles` state both cases |
| CategoryLabels.AutomationHasNoStyle | src/components/CategoryLabels.tsx:23-65 | "Automation" is listed but misses in the table, so its class ends in `undefined` |
| CategoryLabels.OtherCategoriesHaveStyles | src/components/CategoryLabels.tsx:23-65 | every other listed category has a colour entry |
| CategoryLabels.StyleTablesShareKeys | src/components/CategoryLabels.tsx:23-48 | the selected and unselected tables cover the same categories |
| CategoryLabels.ChipsOf | src/components/CategoryLabels.tsx:82-89 | one chip per category, in order, marked exactly when it is the selected one |
| CategoryLabels.ChipsClosedForm | src/components/CategoryLabels.tsx:82-89 | the chip bar is the chips of the selected-first order |
| CategoryLabels.Chips | src/components/CategoryLabels.tsx:82-91 | the chip bar over the sorted categories; `ChipsClosedForm` and `OnlySelectedChipIsMarked` state it |
| CategoryLabels.ExpectedSelectedOnlyFirst | src/components/CategoryLabels.tsx:70-89 | in the selected-first order only the first entry can be the selected category |
| CategoryLabels.OnlySelectedChipIsMarked | src/components/CategoryLabels.tsx:89 | with a listed selection, the first chip is the selected one and the only one with the close marker; otherwise no chip has it |
| BlogPosts.FindBySlug | src/data/blog-posts.ts:235-237 | no result exactly when no post has the slug; a result has the slug and is the first post that does |
| BlogPosts.WithFeatured | src/data/blog-posts.ts:239-245 | a post is kept exactly when its flag is the wanted one, and the kept posts keep their order |
| BlogPosts.FeaturedSplit | src/data/blog-posts.ts:239-245 | featured and regular posts together hold every post as often as the list does, and their lengths add up to the list's |
| BlogPosts.FeaturedDisjoint | src/data/blog-posts.ts:239-245 | no post is both featured and regular |
| BlogPosts.WithFeaturedAll | src/data/blog-posts.ts:239-245 | a list whose posts all have the wanted flag is its own filter |
| BlogPosts.GetAllBlogPosts | src/data/blog-posts.ts:247-249 | the whole catalogue, unchanged |
| BlogPosts.GetBlogPostBySlug | src/data/blog-posts.ts:235-237 | the first catalogue post with the slug, if any (`FindBySlug`); `LookupOwnSlug` and `LookupByIdFails` state it on the catalogue |
| BlogPosts.GetFeaturedPosts | src/data/blog-posts.ts:239-241 | the featured posts in order (`WithFeatured`); `FeaturedAndRegularPosts` gives the list |
| BlogPosts.GetRegularPosts | src/data/blog-posts.ts:243-245 | the other posts in order (`WithFeatured`); `FeaturedAndRegularPosts` gives the list |
| BlogPosts.CatalogueSlugsDistinct | src/data/blog-posts.ts:16-233 | the four slugs are pairwise different |
| BlogPosts.FindOwnSlug | src/data/blog-posts.ts:235-237 | with distinct slugs, each post is what its own slug finds |
| BlogPosts.LookupOwnSlug | src/data/blog-posts.ts:16-237 | each catalogue post is found by its slug |
| BlogPosts.LookupByIdFails | src/data/blog-posts.ts:16-237 | looking up the first post's id finds nothing, because its slug differs |
| BlogPosts.FeaturedAndRegularPosts | src/data/blog-posts.ts:16-245 | only the first post is featured; the regular list is the other three, in order |
| CreatePost.JsOr | src/app/blog/create/page.tsx:53-54 | `a \|\| b` is `a` unless `a` is empty, and empty exactly when both are |
| CreatePost.TitleMissing | src/app/blog/create/page.tsx:38 | the title guard: the title trims to nothing, that is, it is all whitespace (`TrimEmptyIffBlank`) |
| CreatePost.DraftRecord | src/app/blog/create/page.tsx:45-55 | the record `handleSave` sends; `DraftRecordFields` states its fields |
| CreatePost.PublishedRecord | src/app/blog/create/page.tsx:76-87 | the record `handlePublish` sends; `PublishDiffersOnlyInStatus` relates it to the draft record |
| CreatePost.DraftRecordFields | src/app/blog/create/page.tsx:45-55 | every field of a draft: the untrimmed title and its slug (a well-formed slug), the excerpt, content and category as given, the author, draft status, no publication time, and the SEO title and description with their fallbacks |
| CreatePost.SeoTitleNeverEmpty | src/app/blog/create/page.tsx:38-54 | past the title guard, the SEO title of either record is never empty |
| CreatePost.PublishDiffersOnlyInStatus | src/app/blog/create/page.tsx:76-87 | the published record is the draft record with published status and the supplied time |
| CreatePost.CreatePostPage.constructor | src/app/blog/create/page.tsx:11-20 | the page starts with an empty form and not saving |
| CreatePost.CreatePostPage.View | src/app/blog/create/page.tsx:22-35 | the page is the access-denied notice exactly when there is no user |
| CreatePost.CreatePostPage.Edit | src/app/blog/create/page.tsx:118-120 | typing replaces the form and leaves the flag |
| CreatePost.CreatePostPage.HandleSave | src/app/blog/create/page.tsx:37-66 | a blank title only alerts: no call, flag untouched; otherwise one call with the draft record while saving, the flag down afterwards, and the success or failure alert |
| CreatePost.CreatePostPage.HandlePublish | src/app/blog/create/page.tsx:68-99 | as for save, with the published record at the supplied time, and a redirect to `/blog` only on success |
| Comments.RemoveById | src/components/Comments.tsx:53 | exactly the comments with other ids remain, in order, and the list shrinks by the number with that id |
| Comments.CountId | src/components/Comments.tsx:53 | the count is zero exactly when no comment has the id |
| Comments.RemoveAbsentId | src/components/Comments.tsx:53 | removing an id no comment has changes nothing |
| Comments.DeleteUndoesSubmit | src/components/Comments.tsx:40-53 | deleting a just-appended comment with a new id restores the list |
| Comments.CanDelete | src/components/Comments.tsx:107-109 | a signed-in user who wrote the comment or is an admin; `CanDeleteCases` states all three cases |
| Comments.CanDeleteCases | src/components/Comments.tsx:107-109 | signed-out visitors see no delete button, admins see all, other users exactly those on their own comments |
| Comments.HeadingText | src/components/Comments.tsx:62-64 | the heading has the form `Comments (` digits `)` |
| Comments.HeadingShowsCount | src/components/Comments.tsx:63 | the number in the heading reads back as the count |
| Comments.Sends | src/components/Comments.tsx:32 | the submit guard: the box does not trim to nothing and a user is signed in |
| Comments.CommentsSection.constructor | src/components/Comments.tsx:24-28 | the section starts with the given comments, an empty box and not submitting |
| Comments.CommentsSection.Type | src/components/Comments.tsx:69-70 | typing replaces the box and changes nothing else |
| Comments.CommentsSection.Heading | src/components/Comments.tsx:62-64 | the heading shows the length of the current list |
| Comments.CommentsSection.SubmitDisabled | src/components/Comments.tsx:78 | the button is off exactly while posting or while the box trims to nothing |
| Comments.CommentsSection.HandleSubmit | src/components/Comments.tsx:30-48 | with a blank box or no user nothing happens; otherwise the trimmed text is sent while submitting, a stored comment is appended with the box cleared, a refusal alerts and keeps list and box, and the flag is down afterwards |
| Comments.CommentsSection.Post | src/components/Comments.tsx:34-47 | the part past the guard: the call with the flag up, then the append or the alert, and the flag down |
| Comments.CommentsSection.HandleDelete | src/components/Comments.tsx:50-58 | a successful delete removes exactly that id's comments; a failed one alerts and changes nothing; box and flag untouched |
| Comments.SubmitThenCount | src/components/Comments.tsx:30-78 | a signed-in user whose button is enabled gets the stored comment appended, and the heading counts one more |

## Left out

- Database and storage calls (`createBlogPost` and the other store wrappers
  in src/lib/blog/blog.ts, `createComment`, `deleteComment`) are not modelled.
  Their outcome enters each handler as a parameter: success or failure, and
  the stored comment.
- Time: `new Date().toISOString()` in `handlePublish` is the `now` parameter.
- Side effects outside the model: `console.log`/`console.error`, the
  `alert` dialogs (returned as the alert text) and `router.push` (returned as
  the redirect target).
- Out of scope here: the image upload route, authentication and session
  plumbing, the Editor.js configuration, and presentation-only markup.
  Styling, avatars and date formatting are not modelled.
- Case mapping covers ASCII only: `A`-`Z` to `a`-`z` and back. JavaScript's
  Unicode mappings (such as KELVIN SIGN lowering to `k`) are not modelled.
- Strings are sequences of Dafny characters (Unicode scalar values). UTF-16
  surrogate halves, which `charAt(0)` can return, are not modelled.
- `logoMapping` is a finite map. Prototype keys such as `"constructor"`,
  which a real object lookup would find, are not modelled.
- Each React handler is one atomic transition. Interleaved awaits, batched
  state updates and stale closures (such as `setComments([...comments,
  comment])` over a captured list) are not modelled.
- The Editor.js document is a closed datatype: header, paragraph, list, and
  every other kind as one case. A list item is a string, an object with
  optional `content`/`text`/`value` strings, or anything else. Non-string
  values in those fields, and non-array `items`, are not modelled. Nor are
  the three inputs on which `estimateReadTime` throws, none of which the
  closed `Block` datatype can express:
  - a truthy header or paragraph `text` that is not a string
    (src/lib/blog/blog.ts:20-23 calls `split` on it);
  - a truthy `blocks` that is not an array (src/lib/blog/blog.ts:19 calls
    `forEach` on it);
  - a `null` or `undefined` entry in `blocks` (src/lib/blog/blog.ts:20 reads
    `block.type` on it).
- `Math.ceil(n / 200)` is integer arithmetic, `(n + 199) / 200`; no floating
  point is involved.
- The static articles do not carry their HTML `content`, which no query reads.
- `user_metadata?.is_admin` is a boolean: whether it is truthy.
