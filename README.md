# A verified model of a company website's header script and content-migration helpers

The repository holds a company website together with the scripts that move
the old site's content into it. It has three core pieces, and this project
models each of them:

* **The header navigation controller** (`src/lib/navigation.js`). It handles
  the mobile toggles, the hamburger button that sets the body class
  `on--navigation`, and the desktop dropdowns that open on hover. Dropdowns
  close when the pointer leaves the header or a click lands outside it.
* **The page scraper** (`webpage_to_markdown.py`). It finds the hero of a
  page from its first `<h1>` and builds one section block under every `<h2>`
  (or every `<h3>` when there is none). It guesses a site component for each
  section, drops sections shorter than 20 estimated words, names the output
  file, and splits the command line into URLs and an optional output file.
* **The pure parts of the page factory** (`content_factory/factory.py`):
  the title validators of `BoxCardItem` (at most five words) and `TabItem`
  (at most three words), and the JSON file name derived from a page slug.

Modules:

* `Wrappers`: `Option` and `Result`.
* `PyStrings`: the Python string operations the code relies on.
  `str.split()` is modelled with Python's own whitespace set. The module
  also has `split(sep)`, `join`, `startswith`, ASCII `lower()` and
  one-character `replace`.
* `ContentFactory`: the validators and the page file name.
* `WebpageToMarkdown`: the scraper.
  * The HTML tree is abstracted to what the walks read: a heading together
    with its following siblings.
  * `GetSectionContent`, `ExtractHero` and `ProcessUrls` are loops, as in
    the source. Each is proved equal to a specification function (`SectionBlock`,
    `HeroOf`, `AllBlocks`).
  * Lemmas state the heuristics of those functions.
* `NavigationModel`: the page state the controller touches, as a value.
  Each listener is a function on that value, and the lemmas state what each
  listener promises.
* `Navigation`: the controller as a class `Page`.
  * Its fields are the parts of the DOM the listeners change.
  * Its methods update those fields step by step, like the JavaScript
    handlers. Each method is proved to reach the state the matching
    `NavigationModel` function describes.
  * `Click`, `MouseOver` and `MouseLeave` deliver an event to the installed
    listeners. A click runs both document click listeners, the toggle
    listener first: `stopPropagation` does not stop other listeners on the
    same node.

Details of the source that the model keeps:

* Three distinct classes: `active` (set by `toggleElement` on a nav item),
  `is--active` (dropdown and nav item, on hover and close) and `is-active`
  (removed only by initialisation).
* Two spellings of the hidden clip: `rect(0, 0, 0, 0)` when closing and
  `rect(0 0 0 0)` at initialisation.
* The hover listener looks up the desktop button's `data-target` as given.
  The toggle listener first puts `#` in front of its target.
* The section walk stops at `h1`, `h2`, `header` and `footer`. The hero walk
  stops at `h2` and `section`.
* The section word count is the text length divided by five.
* In the model, `querySelector('#x')` finds an element only when `x` is a
  CSS identifier. For an `x` such as `1a`, an empty `x`, or `/contact` from
  an `href`, the selector is invalid and the browser throws. It throws at a
  point where the page is left as "nothing found" leaves it: before
  `toggleElement` changes anything, and after the hover listener has closed
  every dropdown. Other non-identifier forms (`#a.b`, `#a b`, a trailing
  space) are valid selectors that the model treats as finding nothing; see
  "## Left out".

The model follows the code as written. For example, initialisation keeps `is--active` and leaves both the
nav items and `aria-expanded` alone. A click outside the header closes the
dropdowns at any viewport width.

## Model

| member | source | states |
|---|---|---|
| PyStrings.WordsOfJoin | content_factory/factory.py:50-52 | splitting words joined by single spaces gives back the same words |
| PyStrings.JoinOfSplit | webpage_to_markdown.py:183 | joining the pieces of `split(sep)` with `sep` rebuilds the string |
| PyStrings.Words | content_factory/factory.py:50 | every element of `split()` is a non-empty word without white space |
| PyStrings.SplitOn | webpage_to_markdown.py:183 | `split(sep)` returns at least one piece |
| PyStrings.FirstPieceIsPrefix | webpage_to_markdown.py:183 | the first piece of `split(sep)` is a prefix of the string |
| PyStrings.Join | content_factory/factory.py:52 | `sep.join(parts)`: the parts with one separator between neighbours; its round trips are WordsOfJoin and JoinOfSplit |
| PyStrings.StartsWith | webpage_to_markdown.py:206 | `s.startswith(prefix)`: the prefix is the first `len(prefix)` characters of `s` |
| PyStrings.ReplaceChar | content_factory/factory.py:303 | same length, and every occurrence of `old` and nothing else is replaced by `new` |
| ContentFactory.TruncateTitle | content_factory/factory.py:49-53 | the result has at most `limit` words and they are the first words of the title; a title within the limit is returned unchanged; a longer one becomes its first `limit` words joined by single spaces |
| ContentFactory.BoxCardCheckTitleLength | content_factory/factory.py:47-53 | at most 5 words; a title of 5 words or fewer is unchanged; a longer one becomes its first 5 words joined by spaces |
| ContentFactory.TabCheckTitleLength | content_factory/factory.py:162-168 | at most 3 words; a title of 3 words or fewer is unchanged; a longer one becomes its first 3 words joined by spaces |
| ContentFactory.TruncateTitleIdempotent | content_factory/factory.py:49-53 | validating an already validated title changes nothing |
| ContentFactory.CheckTitleLengthIdempotent | content_factory/factory.py:162-168 | both schema validators are idempotent |
| ContentFactory.PageFileName | content_factory/factory.py:303 | the file name is the slug with every '/' replaced by '-' and ".json" appended; it contains no '/' |
| ContentFactory.PlainSlugFileName | content_factory/factory.py:303 | a slug without '/' appears verbatim in its file name |
| ContentFactory.SlugsCanCollide | content_factory/factory.py:303 | the distinct slugs "a/b" and "a-b" are written to the same file |
| WebpageToMarkdown.NonEmpty | webpage_to_markdown.py:121 | the list-item filter keeps exactly the non-empty item texts |
| WebpageToMarkdown.NonEmptyCounts | webpage_to_markdown.py:121-122 | every non-empty item is kept as often as it occurs and the empty ones are dropped, so `len(items)` counts the non-empty `<li>` texts |
| WebpageToMarkdown.NonEmptyAppend | webpage_to_markdown.py:121 | the filter keeps document order: filtering a concatenation concatenates the filtered parts |
| WebpageToMarkdown.Gather | webpage_to_markdown.py:101-124 | what one element contributes: its long text, its images, and the items and grid flag of a list with more than two items; a text node contributes nothing |
| WebpageToMarkdown.Walk | webpage_to_markdown.py:93-126 | the specification of the sibling walk: each node's contribution in document order up to the first stop tag; its properties are the Walk… lemmas below |
| WebpageToMarkdown.TextLength | webpage_to_markdown.py:129 | no entry is longer than the total, and no entries give length zero |
| WebpageToMarkdown.Suggest | webpage_to_markdown.py:132-137 | the classifier's priority order; its properties for a section block are SectionSuggestion |
| WebpageToMarkdown.AppendImagesBelow | webpage_to_markdown.py:113-117 | appends one image entry for each `<img>` below the element that has a non-empty `src`, in order |
| WebpageToMarkdown.AppendElementImages | webpage_to_markdown.py:108-117 | the element's own image, if it is an `<img>` with a non-empty `src`, then each image below it, are appended; nothing else changes |
| WebpageToMarkdown.VisitSectionElement | webpage_to_markdown.py:96-124 | one step of the walk adds exactly what the element contributes: long text, its images, the items of a list with more than two of them |
| WebpageToMarkdown.WalkSiblings | webpage_to_markdown.py:93-126 | the sibling loop adds exactly what `Walk` gathers, up to the first stop tag, and leaves heading, URL and word count alone |
| WebpageToMarkdown.GetSectionContent | webpage_to_markdown.py:88-139 | the loop builds exactly the section block of the heading |
| WebpageToMarkdown.WalkStopsAt | webpage_to_markdown.py:95-99 | nothing after the first `h1`/`h2`/`header`/`footer` sibling contributes to a section |
| WebpageToMarkdown.WalkInOrder | webpage_to_markdown.py:95-126 | across a stretch without a stop tag, contributions are gathered in document order |
| WebpageToMarkdown.WalkAround | webpage_to_markdown.py:95-126 | an element after a stretch with no stop tag adds its contribution between the stretch's and the rest's |
| WebpageToMarkdown.GridListAdded | webpage_to_markdown.py:120-124 | a `ul`/`ol` with more than two non-empty items before the first stop tag sets `grid_candidate` and adds its non-empty items, in order, at its place |
| WebpageToMarkdown.LongTextAdded | webpage_to_markdown.py:102-105 | a `p`/`div`/`span` with more than 10 characters of text before the first stop tag adds its text at its place and leaves the block type alone |
| WebpageToMarkdown.ShortListIgnored | webpage_to_markdown.py:120-124 | a list with at most two non-empty items changes neither the content nor the block type |
| WebpageToMarkdown.GatherContentOrigin | webpage_to_markdown.py:102-124 | each entry one element contributes is its over-10-character text or a non-empty item of its grid list |
| WebpageToMarkdown.WalkContentOrigin | webpage_to_markdown.py:102-124 | every content entry is an over-10-character text or a non-empty item of a grid list, taken from a sibling before the first stop tag |
| WebpageToMarkdown.WalkContentNonEmpty | webpage_to_markdown.py:102-124 | no content entry is empty |
| WebpageToMarkdown.GridHasItems | webpage_to_markdown.py:120-124 | a grid candidate holds at least three content entries |
| WebpageToMarkdown.TextLengthZero | webpage_to_markdown.py:129 | with no empty entries, the text length is zero exactly when there are no entries |
| WebpageToMarkdown.SectionSuggestion | webpage_to_markdown.py:128-137 | each suggestion is made exactly under its condition, in priority order; no suggestion exactly when no content was gathered |
| WebpageToMarkdown.SectionWordCount | webpage_to_markdown.py:129-130 | the word count is the text length divided by five, rounded down; a section keeps its heading and URL |
| WebpageToMarkdown.HeroIntro | webpage_to_markdown.py:73-80 | the specification of the hero walk: the first non-empty `p`/`div` text unless an `h2`/`section` comes first; its properties are the HeroIntro… lemmas below |
| WebpageToMarkdown.HeroOf | webpage_to_markdown.py:64-70 | a hero exists exactly when the page has an `<h1>`; it carries the `<h1>` text and the HeroMultiTemplate suggestion |
| WebpageToMarkdown.ExtractHero | webpage_to_markdown.py:64-83 | the loop builds exactly the hero block of the page |
| WebpageToMarkdown.HeroIntroAtMostOne | webpage_to_markdown.py:74 | the hero holds at most one content entry |
| WebpageToMarkdown.HeroIntroStopsAt | webpage_to_markdown.py:78-79 | nothing after an `h2` or `section` sibling reaches the hero |
| WebpageToMarkdown.HeroIntroIsFirst | webpage_to_markdown.py:73-80 | the hero's content is the first non-empty `<p>`/`<div>` when no stop tag precedes it |
| WebpageToMarkdown.HeroIntroNone | webpage_to_markdown.py:73-80 | with no introduction among the siblings the hero has no content |
| WebpageToMarkdown.Headings | webpage_to_markdown.py:161-164 | the `<h2>` headings, or the `<h3>` headings when there is no `<h2>` |
| WebpageToMarkdown.KeepSection | webpage_to_markdown.py:166-169 | one heading more: its section block is appended exactly when its word count reaches MIN_SECTION_WORDS |
| WebpageToMarkdown.KeepSections | webpage_to_markdown.py:166-169 | the heading loop keeps exactly the large-enough section blocks, in order |
| WebpageToMarkdown.ScrapePage | webpage_to_markdown.py:153-169 | a fetched page contributes its hero, if any, then its kept sections |
| WebpageToMarkdown.ProcessUrls | webpage_to_markdown.py:141-194 | the blocks of all fetched pages in URL order, the number of pages fetched, and the output file name |
| WebpageToMarkdown.KeepSnoc | webpage_to_markdown.py:166-169 | the filter works block by block: one more block adds itself when large enough, nothing otherwise |
| WebpageToMarkdown.MapUpToOnlyLarge | webpage_to_markdown.py:166-169 | of the blocks built for the first headings, every kept one reaches MIN_SECTION_WORDS and is the block of one of those headings |
| WebpageToMarkdown.MapUpToLargeKept | webpage_to_markdown.py:166-169 | of the blocks built for the first headings, every one that reaches MIN_SECTION_WORDS is kept |
| WebpageToMarkdown.KeptSectionsExactly | webpage_to_markdown.py:166-169 | a heading's section block is in the page's output exactly when its word count reaches MIN_SECTION_WORDS, and nothing else is |
| WebpageToMarkdown.KeptSectionsLargeEnough | webpage_to_markdown.py:31 | a kept section has a word count of at least 20, hence at least 100 characters of text and a component suggestion |
| WebpageToMarkdown.PageBlocksFiltered | webpage_to_markdown.py:155-169 | every block one page contributes is its hero or a section that reached the word minimum |
| WebpageToMarkdown.HeroLeadsPage | webpage_to_markdown.py:155-169 | a page with an `<h1>` contributes its hero block first, then its kept sections |
| WebpageToMarkdown.AllBlocksStep | webpage_to_markdown.py:147-171 | one more URL appends its page's blocks when it was fetched, nothing otherwise, and counts exactly when fetched |
| WebpageToMarkdown.AllBlocksSnoc | webpage_to_markdown.py:147-171 | the blocks of the last URL follow those of the URLs before it |
| WebpageToMarkdown.AllBlocksFiltered | webpage_to_markdown.py:147-171 | every output block is a hero or a section that reached the word minimum |
| WebpageToMarkdown.HeroAlwaysKept | webpage_to_markdown.py:156-158 | the hero of every fetched page with an `<h1>` is in the output, whatever its size |
| WebpageToMarkdown.EarlierHeroKept | webpage_to_markdown.py:156-158 | the hero of a page before the last stays in the output |
| WebpageToMarkdown.LastHeroKept | webpage_to_markdown.py:156-158 | the hero of the last page, when fetched and found, is in the output |
| WebpageToMarkdown.PathSegment | webpage_to_markdown.py:183 | `url.split('//')[1].split('/')[1]`, or nothing where an index is out of range; PathSegmentOfAddress and BareHostHasNoSegment state its result for whole address shapes |
| WebpageToMarkdown.SlugPiece | webpage_to_markdown.py:183 | lowering one character and replacing non-`[a-z0-9]` by '-' gives only `[a-z0-9]` and '-'; one character, except two for the capital I with dot above |
| WebpageToMarkdown.Slugify | webpage_to_markdown.py:183 | the slug contains only `[a-z0-9]` and '-', is at least as long as the segment, and maps character to character when no capital I with dot above occurs |
| WebpageToMarkdown.SlugifyAscii | webpage_to_markdown.py:183 | on ASCII text letters are lowered, digits kept, everything else becomes '-' |
| WebpageToMarkdown.SingleUrlFileName | webpage_to_markdown.py:181-185 | fails exactly when the URL has no path segment after the host; an empty segment gives "scraped_content.json"; otherwise the slug plus ".json" |
| WebpageToMarkdown.OutputFileName | webpage_to_markdown.py:180-187 | a non-empty given name is used; with one URL the name is the one SingleUrlFileName derives from it, or its failure; otherwise "merged_scraped_content.json" |
| WebpageToMarkdown.PathSegmentOfAddress | webpage_to_markdown.py:183 | for `scheme://host/segment…` the file is named after the first path segment |
| WebpageToMarkdown.BareHostHasNoSegment | webpage_to_markdown.py:183 | a bare `scheme://host` has no path segment, so deriving the name fails |
| WebpageToMarkdown.ParseArgs | webpage_to_markdown.py:196-214 | usage error exactly when there are no arguments; "no URLs" exactly when the only argument does not start with "http"; otherwise the URLs plus the optional output file are the arguments, and the last one is the file exactly when it does not start with "http" |
| NavigationModel.Resolve | src/lib/navigation.js:21 | a selector finds an element exactly when it is `#` followed by that element's id and the id is a CSS identifier |
| NavigationModel.NonIdentifierFindsNothing | src/lib/navigation.js:21 | in the model, `#x` with `x` not a CSS identifier finds nothing, on any page |
| NavigationModel.FirstControlFrom | src/lib/navigation.js:11 | the first control at or after a position whose `data-target` is the value; none exactly when no control from there has it |
| NavigationModel.ControlFor | src/lib/navigation.js:11 | the first control in document order whose `data-target` is the value; none exactly when no control has it |
| NavigationModel.CloseDropdown | src/lib/navigation.js:6-15 | closing one dropdown keeps the page well formed |
| NavigationModel.OpenAmong | src/lib/navigation.js:5 | the listed dropdowns are exactly the open ones among the given ids |
| NavigationModel.CloseEach | src/lib/navigation.js:5-16 | closing each listed dropdown in turn keeps the page well formed and its elements |
| NavigationModel.CloseAll | src/lib/navigation.js:3-17 | closing all dropdowns keeps the page well formed and the same elements |
| NavigationModel.CloseDropdownEffect | src/lib/navigation.js:6-15 | closing one dropdown hides it and drops its `is-open` and `is--active`, sets its control to `aria-expanded="false"`, removes `is--active` from that control's nav item, and changes nothing else |
| NavigationModel.CloseEachStep | src/lib/navigation.js:5-15 | closing one more listed dropdown applies `CloseDropdown` to the page reached so far |
| NavigationModel.CloseEachKeepsBody | src/lib/navigation.js:5-16 | closing dropdowns keeps the body class and the installed listeners |
| NavigationModel.CloseEachPanels | src/lib/navigation.js:5-9 | exactly the closed dropdowns change, each to its closed form |
| NavigationModel.CloseEachControls | src/lib/navigation.js:11-13 | `aria-expanded` changes exactly on the controls found for the closed dropdowns |
| NavigationModel.CloseEachItems | src/lib/navigation.js:14 | `is--active` is removed exactly from those controls' nav items |
| NavigationModel.CloseEachEffect | src/lib/navigation.js:5-16 | the combined effect of closing each listed dropdown |
| NavigationModel.CloseAllEffect | src/lib/navigation.js:3-17 | afterwards no dropdown is open; each formerly open one is closed, its control says "false" and its nav item loses `is--active`; everything else, including every nav item's `active`, is unchanged |
| NavigationModel.CloseAllIdempotent | src/lib/navigation.js:3-17 | closing all dropdowns twice is the same as closing them once |
| NavigationModel.Toggle | src/lib/navigation.js:20-41 | toggling keeps the page well formed and the same elements |
| NavigationModel.ToggleMissingTarget | src/lib/navigation.js:21-25 | a target that is not found changes nothing |
| NavigationModel.ToggleNonIdentifier | src/lib/navigation.js:21 | in the model, a target `#x` with `x` not a CSS identifier changes nothing; for an invalid selector this is the browser's throw, which comes before any change |
| NavigationModel.ToggleExisting | src/lib/navigation.js:27-40 | the new value is the negation of (aria-expanded == "true"); it is written to aria-expanded, the target's `is-open` and the nav item's `active`; nothing else changes |
| NavigationModel.ToggleTwice | src/lib/navigation.js:27-40 | on a target in sync with its control, toggling keeps it in sync and toggling twice restores the page |
| NavigationModel.TargetOf | src/lib/navigation.js:65-66 | the first non-empty of `data-target`, `href`, `aria-controls`, each case stated; none exactly when all three are empty or absent |
| NavigationModel.Normalize | src/lib/navigation.js:68-70 | the result starts with '#', and '#' is added only when missing |
| NavigationModel.NormalizeIdempotent | src/lib/navigation.js:68-70 | normalising twice is normalising once |
| NavigationModel.ToggleClick | src/lib/navigation.js:58-80 | the toggle listener keeps the page well formed |
| NavigationModel.ToggleClickWithoutTarget | src/lib/navigation.js:59-66 | a click outside every toggle, or on a toggle with no target, changes nothing |
| NavigationModel.HamburgerToggle | src/lib/navigation.js:73-76 | a `#navigation` toggle sets `on--navigation` to the negation of its expanded value and flips its `aria-expanded`; no element or nav item changes |
| NavigationModel.ToggleClickDelegates | src/lib/navigation.js:77-79 | any other target is passed to `toggleElement` with the '#' added; the body class is left alone |
| NavigationModel.Hover | src/lib/navigation.js:84-108 | the hover listener keeps the page well formed |
| NavigationModel.Leave | src/lib/navigation.js:110-113 | the leave listener keeps the page well formed |
| NavigationModel.NarrowViewportIgnoresHover | src/lib/navigation.js:85 | below 1000 pixels, hover and leave change nothing |
| NavigationModel.HoverOpensOnlyTarget | src/lib/navigation.js:95-106 | hovering opens and shows exactly the target dropdown; every other dropdown is closed; the button is expanded and the nav item is `is--active` |
| NavigationModel.HoverMissingTargetClosesAll | src/lib/navigation.js:96-99 | a desktop target that is not found still closes every dropdown |
| NavigationModel.HoverNonIdentifierClosesAll | src/lib/navigation.js:96-98 | in the model, a desktop target `#x` with `x` not a CSS identifier closes every dropdown and opens nothing; for an invalid selector this is the browser's throw, which comes after `closeAllDropdowns` |
| NavigationModel.HoverMutualExclusion | src/lib/navigation.js:95-106 | after hovering one item and then another, only the second item's dropdown is open |
| NavigationModel.LeaveClosesAll | src/lib/navigation.js:110-113 | on the desktop, leaving the header leaves no dropdown open |
| NavigationModel.ClickOutside | src/lib/navigation.js:117-122 | the click-outside listener keeps the page well formed |
| NavigationModel.ClickOutsideEffect | src/lib/navigation.js:119-121 | a click inside the header changes nothing here; one outside leaves no dropdown open, at any width |
| NavigationModel.ClickOutsideHeaderAfterToggle | src/lib/navigation.js:58-122 | with both click listeners run in order, a click outside the header leaves no dropdown open, even on a toggle |
| NavigationModel.ResetEach | src/lib/navigation.js:128-133 | resetting dropdowns leaves controls, nav items and the body alone |
| NavigationModel.Initialize | src/lib/navigation.js:43-133 | initialisation keeps the page well formed |
| NavigationModel.ResetEachStep | src/lib/navigation.js:128-133 | resetting one more listed dropdown changes only that dropdown, to its reset form |
| NavigationModel.ResetEachEffect | src/lib/navigation.js:128-133 | exactly the listed dropdowns change, each to its reset form |
| NavigationModel.InitializeEffect | src/lib/navigation.js:49-133 | with no header nothing happens; otherwise listeners are installed and every dropdown loses `is-open` and `is-active` and is hidden; `is--active`, `aria-expanded`, nav items and the body stay unchanged |
| Navigation.Page.constructor | src/lib/navigation.js:43 | a well-formed page before the controller runs |
| Navigation.Page.CloseOne | src/lib/navigation.js:6-15 | one iteration of `closeAllDropdowns` reaches `CloseDropdown` |
| Navigation.Page.CloseAllDropdowns | src/lib/navigation.js:3-17 | the loop over the open dropdowns reaches `CloseAll` |
| Navigation.Page.ToggleElement | src/lib/navigation.js:20-41 | the handler reaches `Toggle` |
| Navigation.Page.OnToggleClick | src/lib/navigation.js:58-80 | the handler reaches `ToggleClick` |
| Navigation.Page.OnMouseOver | src/lib/navigation.js:84-108 | the handler reaches `Hover` |
| Navigation.Page.OnMouseLeave | src/lib/navigation.js:110-113 | the handler reaches `Leave` |
| Navigation.Page.OnClickOutside | src/lib/navigation.js:117-122 | the handler reaches `ClickOutside` |
| Navigation.Page.InitializeNavigation | src/lib/navigation.js:43-133 | the initialisation loop reaches `Initialize` |
| Navigation.Page.Click | src/lib/navigation.js:58-122 | an installed page runs the toggle listener, then the click-outside listener; an uninstalled page is unchanged |
| Navigation.Page.MouseOver | src/lib/navigation.js:84-108 | an installed page runs the hover listener; an uninstalled page is unchanged |
| Navigation.Page.MouseLeave | src/lib/navigation.js:110-113 | an installed page runs the leave listener; an uninstalled page is unchanged |

## Left out

- Fetching pages (`fetch_html`) is left out because it is network I/O. `ProcessUrls` instead receives a cleaned page for each URL, or `None` when the request failed.
- `clean_soup` and BeautifulSoup's tree search are left out because they are library code. A page is given as its first `<h1>`, its `<h2>`s and its `<h3>`s. A heading is given with its following siblings. Each sibling carries its stripped text, its `<img>` descendants and its `<li>` texts.
- `urljoin` is not computed, because it is library code. An image entry records the base URL and the raw `src`.
- The JSON dump, file writing and progress printing are left out because they are I/O. The model keeps the blocks, the processed count and the chosen file name.
- The `links` field of `ContentBlock` is left out because the scraper never fills it.
- The `sys.exit(1)` calls and their messages are modelled only as the two `ArgsError` values.
- The `IndexError` raised when a single bare URL such as `https://example.com` has no path segment is modelled as `Failure(NoPathSegment)` (`BareHostHasNoSegment`).
- Slugify: Python's `lower()` is modelled for ASCII capitals, the Kelvin sign and the capital I with dot above. These are the only characters whose lowercase form contains a character of `[a-z0-9]`. Every other character becomes '-'.
- The language-model pipeline of the page factory is left out because it consists of remote calls: the analyser and builder signatures, the page mapping loop and the JSON writing. Only the two validators and the file name are modelled.
- The browser itself is part of the fixed `Layout`: `closest`, `contains`, event dispatch, `preventDefault`, `stopPropagation`, the `typeof window` guard and console output.
- CSS selectors are modelled only in the `#id` form the controller uses. Any other selector finds nothing. This includes a type selector such as `nav`, a compound selector such as `#a.b` (the element with id `a` when it has class `b`) and an escaped identifier such as `#\31 a`. It also includes `#a b` (a descendant selector) and `#a ` (a trailing space, which finds `a`). These are valid selectors, so where they match, the browser toggles or opens that element at src/lib/navigation.js:21 and :98, while the model leaves the page as when nothing is found.
- Ids are unique: `panels` is a map, so a page with two elements of the same id is not modelled.
- The attribute selector `[data-target="#id"]` at src/lib/navigation.js:11 is matched as plain text equality. An id containing `"`, `\` or a line break, which would change or break that selector, is not modelled.
- A dropdown without an id (`""`) is excluded by `WellFormed`.
- Navigation.Page.InitializeNavigation requires that the listeners are not yet installed. Calling it a second time would add duplicate listeners, and that is not modelled.
