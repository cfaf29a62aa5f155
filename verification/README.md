# UNIQHR client-side state, modelled in Dafny

This project models the state-deriving logic of the UNIQHR marketing site, a
React single-page application for an HR consultancy. The routines are pure
Dafny functions over immutable datatypes, except the counter's frame loop,
which is a method with a loop. The project proves properties about them. The
routines are:

- **HR Connect dashboard** (`HRConnect`). The candidate filter runs a free-text
  search, an exact experience bucket and a location substring, each as its own
  `Array.filter` pass. The module also covers the demo sign-in flag, which is
  persisted in local storage, and the two empty-state messages. The
  `/hr-connect` route is commented out in `App.tsx`, so this build cannot
  reach the dashboard. It is modelled as the component is written.
- **Count-up counter** (`Counter`). The frame-driven sampler behind the home
  page statistics. Progress is clamped, the sample is rounded up for targets
  below 100 and down otherwise, and the loop stops once the progress reaches 1.
- **News ticker** (`Ticker`). The news list is rendered twice. The loop width
  is half the measured row, and the loop lasts one second per 50 pixels. The
  measured row is a block-level flex row, so its `scrollWidth` is the larger
  of its box and its content: the loop point falls on the seam between the
  two copies only when they fill the box.
- **Realtime snapshots** (`Snapshot`, `Home`, `Blog`, `BlogDetails`). Each
  data slot is guarded by `if (data)`. A null payload leaves the slot as it
  was, and a truthy one replaces it. Side effects inside the guard, such as the
  home page ending its loading state, happen only for truthy payloads. The
  blog detail callback is different. It ends loading on every delivery, null
  included, so a null first payload shows "Post not found.". It also stores
  the upper-cased post, not the value delivered.
- **Blog detail normalisation** (`Markup`, `BlogDetails`). A walk over the
  parsed body upper-cases text nodes and leaves the structure alone. Five text
  fields of the post are upper-cased too. The page goes from "Loading..." to
  "Post not found." or to the post.
- **Blog list** (`Blog`). The category filter uses the `'All'` sentinel, and
  the "Read Article" links use an index.
- **Header** (`Header`). The scroll handler, the mobile menu, the auth user
  and the active-link rule.

Shared pieces are defined once:

- `Text` has ASCII case mapping and `includes`. It proves that `includes`
  matches an occurrence-index definition in both directions.
- `Seqs` has `Filter`, plus the lemmas the filters rely on: order-preserving
  subsequence, membership, multiplicity and fusion of two passes.
- `Snapshot` has the `Option` payload and the last-snapshot-wins lemma.

Two behaviours of the code are modelled as written:

- On the blog page, the initial selection is the string `'All'`. The first
  button's value is `"ALL"`. No button can bring the sentinel back, and
  pressing "ALL" keeps only the posts whose category is literally `"ALL"`
  (`Blog.NoButtonIsSentinel`, `Blog.AllButtonFiltersLiterally`).
- The counter's `startTime` starts undefined. Every frame that finds it
  falsy sets it, and that includes a start time of `0` (`Counter.StartAfter`).

The header's `scrollDirection` is computed but never read by the markup. It is
modelled because the handler computes it. In the same way, the blog detail
page converts the post body to upper case and keeps it in its state, but never
renders `post.content`. Only the image, category, title, author, date, read
time and excerpt are shown. The conversion is modelled because the page
computes it.

## Model

| member | source | states |
|---|---|---|
| HRConnect.FilterCandidates | src/pages/HRConnect.tsx:37-61 | The filtered list is never longer than the candidate list and holds only candidates. Which candidates, in what order and how often is stated by `HRConnect.FilterSpec`. |
| HRConnect.FilterIsSinglePass | src/pages/HRConnect.tsx:37-61 | The up-to-three successive filter passes give the same list as one pass by the match rule: every non-empty control must be satisfied. |
| HRConnect.FilterSpec | src/pages/HRConnect.tsx:39-60 | The filtered list is an order-preserving subsequence of the candidates. A candidate is in it iff it is a candidate that the query admits, and every copy of an admitted candidate is kept. |
| HRConnect.EmptyQueryKeepsAll | src/pages/HRConnect.tsx:39-60 | With search, experience and location all empty, the filtered list is the candidate list unchanged. |
| HRConnect.SearchSound | src/pages/HRConnect.tsx:41-47 | With a search term, every kept candidate has the lower-cased term in the lower-cased first name, last name, skills or location. |
| HRConnect.ExperienceSound | src/pages/HRConnect.tsx:50-52 | With an experience bucket, every kept candidate's bucket equals it exactly, with no case folding. |
| HRConnect.LocationSound | src/pages/HRConnect.tsx:54-57 | With a location text, every kept candidate's lower-cased location contains the lower-cased text. |
| HRConnect.FilterComplete | src/pages/HRConnect.tsx:39-60 | Every candidate that satisfies all active controls appears in the filtered list. |
| Text.IncludesIffOccurs | src/pages/HRConnect.tsx:43-46 | `includes` as modelled holds iff the term occurs at some index of the string, so each substring test means what `String.prototype.includes` means. |
| HRConnect.SearchIgnoresCase | src/pages/HRConnect.tsx:43-46 | A candidate with skills "Java Backend" matches the search "java". |
| HRConnect.Login | src/pages/HRConnect.tsx:63-70 | With both email and password non-empty, the user is signed in and the flag "true" is stored. Otherwise the session is unchanged. |
| HRConnect.SignOut | src/pages/HRConnect.tsx:160-163 | Sign Out always signs the user out and removes the stored flag. |
| HRConnect.Mount | src/pages/HRConnect.tsx:79-85 | On mount, the user is signed in iff the stored flag is exactly "true". |
| HRConnect.SessionSurvivesReload | src/pages/HRConnect.tsx:63-85 | After a reload, a sign-in is restored as signed in and a sign-out as signed out. |
| HRConnect.ListingFor | src/pages/HRConnect.tsx:226-236 | Cards are shown iff the filtered list is non-empty, and they are exactly the filtered list. |
| HRConnect.EmptyStatesDistinct | src/pages/HRConnect.tsx:226-234 | "No candidates have submitted profiles yet." is shown iff there are no candidates. "Try adjusting…" is shown iff there are candidates but the query admits none. |
| HRConnect.LoadShowsAll | src/pages/HRConnect.tsx:30-35 | The stored list loaded on mount is what the filter gives for the empty query. When that list is non-empty, all of it is shown. |
| Counter.Elapsed | src/pages/Home.tsx:17-20 | The elapsed time a frame computes is never negative, because the start time is a frame already seen. |
| Counter.StartAfter | src/pages/Home.tsx:17-19 | The start time after n frames. Every frame that finds it falsy (undefined, or a timestamp of 0) sets it, so a start time of 0 is replaced by the next frame. Its consequences are stated by `Counter.ElapsedMonotone` and `Counter.FirstFrameIsZero`. |
| Counter.Percentage | src/pages/Home.tsx:20-21 | The clamped progress lies in [0,1]. It is 1 iff the duration has elapsed, and otherwise equals elapsed / duration. |
| Counter.Sample | src/pages/Home.tsx:23 | The value set for progress p: end·p rounded up for targets below 100 and down for the rest. `Counter.SampleRounding` pins each case by its one-unit bracket. |
| Counter.SampleRounding | src/pages/Home.tsx:23 | For targets below 100 the sample is the ceiling of end·p. For the others it is the floor. |
| Counter.FinalSampleIsEnd | src/pages/Home.tsx:21-23 | Once the duration has elapsed, the sample equals the target exactly. |
| Counter.SampleBounds | src/pages/Home.tsx:18-24 | For a non-negative target, every sample lies between 0 and the target. |
| Counter.SampleMonotone | src/pages/Home.tsx:23 | For a non-negative target, a larger progress never gives a smaller sample. |
| Counter.PercentageMonotone | src/pages/Home.tsx:20-21 | More elapsed time never gives less progress. |
| Counter.ElapsedMonotone | src/pages/Home.tsx:17-20 | With the start time set by the first frame that finds it falsy, elapsed times are non-negative and non-decreasing across frames. |
| Counter.FirstFrameIsZero | src/pages/Home.tsx:19-24 | The first frame measures zero elapsed time and samples 0. |
| Counter.Animate | src/pages/Home.tsx:15-32 | The frame loop emits one sample per frame while the progress is below 1. It stops only at a frame whose progress is exactly 1, and that frame samples the target. Samples start at 0, stay in [0, end] and never decrease. |
| Counter.TargetShownBeforeStop | src/pages/Home.tsx:21-28 | The loop stops on progress, not on the value: with the default 2000 ms, a target of 98 is already shown at 1990 ms, while the progress is still below 1. |
| Ticker.Rendered | src/pages/Home.tsx:88 | The row rendered for a news list. `Ticker.RenderedIsTwoCopies` states that it is the list twice. |
| Ticker.RenderedIsTwoCopies | src/pages/Home.tsx:88 | The rendered row is the news list twice: length 2n, both halves equal to the list, and item i equal to news item i mod n. |
| Ticker.ScrollWidth | src/pages/Home.tsx:64-75 | The measured width is at least the box width and at least the content width, and it is one of the two. |
| Ticker.LoopWidth | src/pages/Home.tsx:66 | The loop distance is half the measured `scrollWidth`. `Ticker.LoopWidthIsOneCopy` states what that distance is. |
| Ticker.LoopDuration | src/pages/Home.tsx:83 | The loop duration in seconds is the width divided by 50. `Ticker.ConstantSpeed` states the speed. |
| Ticker.LoopWidthIsOneCopy | src/pages/Home.tsx:64-75 | The loop distance is the larger of one copy's width and half the box. It equals one copy's width, which puts the loop point on the seam, iff the two copies are at least as wide as the box. |
| Ticker.EmptyTickerSpansBox | src/pages/Home.tsx:64-96 | An empty news list renders no item, yet the empty row measures the box. The loop is half the box wide and lasts one second per 100 pixels of it. |
| Ticker.ConstantSpeed | src/pages/Home.tsx:76-86 | For any positive width, width / duration is 50 pixels per second. |
| Ticker.Measure | src/pages/Home.tsx:64-68 | The width effect keeps the list and leaves the width in step with it: one copy's width, or half the box when the copies are narrower. |
| Ticker.OnFlashNews | src/pages/Home.tsx:53-68 | A null news snapshot changes nothing. A truthy one replaces the list, and the width effect then measures the new row. The properties are stated by `Ticker.OnFlashNewsKeepsSync`. |
| Ticker.OnFlashNewsKeepsSync | src/pages/Home.tsx:53-68 | A news snapshot keeps the measured width in step with the list. A null one changes nothing, and a truthy one replaces the list. |
| Ticker.MountInSync | src/pages/Home.tsx:49-68 | The first render's width of 0 is in step only for a box of zero width. The mount effect measures the empty row and sets the width to half the box. |
| Home.OnServices | src/pages/Home.tsx:114-119 | A truthy services payload replaces the list and ends loading. A null one changes nothing. `Home.ServicesLastWins` states the effect of a run of them. |
| Home.ServicesLastWins | src/pages/Home.tsx:112-121 | After any run of deliveries, the services list is the last truthy payload, or the previous list if there was none. Loading continues iff no payload was truthy and it had not ended before. |
| Home.InitialServicesRun | src/pages/Home.tsx:109-121 | From the initial state, loading ends exactly when a truthy payload has arrived, and the list is the last truthy payload. |
| Snapshot.Apply | src/pages/Blog.tsx:26-31 | The `if (data)` guard: a truthy payload replaces the slot and a null one keeps it. |
| Snapshot.ApplyAll | src/pages/Blog.tsx:24-32 | The deliveries to one `onValue` callback, applied in order. `Snapshot.LastSnapshotWins` relates them to the last truthy payload. |
| Snapshot.LastSnapshotWins | src/pages/Home.tsx:55-61 | Deliveries apply in order. The slot ends with the last truthy payload, or keeps its old value when every payload was null. |
| Snapshot.NullsKeepState | src/pages/Blog.tsx:26-31 | Null payloads never clear the state. |
| Markup.Walk | src/pages/BlogDetails.tsx:28-34 | `walkNodes`: upper-cases non-empty text nodes and descends into the children of every other node. The `Markup.Walk…` lemmas state what it keeps and what it changes. |
| Markup.ConvertBody | src/pages/BlogDetails.tsx:24-38 | `convertHtmlTextToUppercase` on a parsed body. Its properties are stated by `Markup.ConvertBodySpec`. |
| Markup.WalkText | src/pages/BlogDetails.tsx:29-30 | A text node's content becomes its upper case. The emptiness guard makes no difference. |
| Markup.WalkKeepsShape | src/pages/BlogDetails.tsx:28-34 | The walk keeps node kinds, tags, attributes, comments, and the number and order of children. |
| Markup.WalkUppercasesAll | src/pages/BlogDetails.tsx:28-34 | After the walk, no text node anywhere in the tree holds a lower-case letter. |
| Markup.WalkFixesUpper | src/pages/BlogDetails.tsx:28-34 | A tree whose text is already upper case is left unchanged. |
| Markup.WalkIdempotent | src/pages/BlogDetails.tsx:28-34 | Walking twice is the same as walking once. |
| Markup.WalkUppercasesText | src/pages/BlogDetails.tsx:28-34 | The visible text after the walk is the upper case of the visible text before it. |
| Markup.WalkIsUpperCopy | src/pages/BlogDetails.tsx:28-34 | The walk upper-cases every text node in place: each text node of the result is the upper case of the original text node at the same position, and the rest of the tree is kept. |
| Markup.UpperCopyIsWalk | src/pages/BlogDetails.tsx:28-34 | Conversely, any tree that is an upper-case copy of another, node by node, is that tree's walk, so the relation pins the result. |
| Markup.ConvertBodySpec | src/pages/BlogDetails.tsx:24-38 | On a body, every top-level node becomes its upper-case copy, text node by text node. All text is upper case, the visible text is upper-cased, and the conversion is idempotent. |
| Markup.ParagraphExample | src/pages/BlogDetails.tsx:24-38 | `<p>Hello <b class="x">World</b></p>` becomes `<p>HELLO <b class="x">WORLD</b></p>`. |
| Text.UpperIsUpperOf | src/pages/BlogDetails.tsx:49-54 | `toUpperCase` gives an upper case of its input: the same length, no lower-case letter left, and a difference from the input only in the case of letters. |
| Text.UpperOfUnique | src/pages/BlogDetails.tsx:49-54 | Any upper case of a string in that sense is `Upper` of it, so the characterisation pins the result. |
| BlogDetails.Uppercased | src/pages/BlogDetails.tsx:47-55 | The post stored in the page state: the stored data, with five text fields upper-cased and the body converted. Its properties are stated by `BlogDetails.UppercasedSpec`. |
| BlogDetails.UppercasedSpec | src/pages/BlogDetails.tsx:45-56 | id, image and date are copied. Each of title, excerpt, author, readTime and category is an upper case of the stored field, which makes it that field's upper case by `Text.UpperOfUnique`. Each body node is its upper-case copy, text node by text node, and the body's text is upper-cased. |
| BlogDetails.UppercasedIdempotent | src/pages/BlogDetails.tsx:47-55 | Converting a converted post changes nothing. |
| BlogDetails.OnPost | src/pages/BlogDetails.tsx:43-59 | After a callback, loading is over. A truthy payload becomes the converted post, and a null one keeps the previous post. |
| BlogDetails.Render | src/pages/BlogDetails.tsx:63-69 | "Loading..." while loading, then "Post not found." without a post, else the post. `BlogDetails.FirstCallback` and `BlogDetails.NullKeepsPost` state the screens it reaches. |
| BlogDetails.FirstCallback | src/pages/BlogDetails.tsx:57-69 | After the first callback, a null payload shows "Post not found." and a truthy one shows the converted post. |
| BlogDetails.NullKeepsPost | src/pages/BlogDetails.tsx:43-59 | A later null payload does not take a shown post away. |
| BlogDetails.Subscription | src/pages/BlogDetails.tsx:40-42 | A subscription is made iff the route id is present and non-empty, and its path is "blogs/posts/" followed by the id. |
| BlogDetails.SubscriptionNamesPost | src/pages/BlogDetails.tsx:40-42 | The id is recovered from the subscribed path, so two different ids never subscribe to the same post. |
| BlogDetails.NoIdStaysLoading | src/pages/BlogDetails.tsx:40-65 | Without an id nothing is subscribed, and the page stays on "Loading...". |
| Blog.FilteredPosts | src/pages/Blog.tsx:45-47 | The filtered posts are never more than the posts and are all among them. `Blog.SentinelShowsAll` and `Blog.CategoryFilterSpec` state exactly which. |
| Blog.SentinelShowsAll | src/pages/Blog.tsx:45-47 | With the initial 'All' selection, the filtered posts are the posts unchanged. |
| Blog.CategoryFilterSpec | src/pages/Blog.tsx:45-47 | Any other selection keeps, in order and with multiplicity, exactly the posts whose category equals it. |
| Blog.NoButtonIsSentinel | src/pages/Blog.tsx:22-43 | None of the eight category buttons carries the 'All' sentinel. |
| Blog.AllButtonFiltersLiterally | src/pages/Blog.tsx:34-47 | The "ALL" button keeps only posts whose category is literally "ALL", and shows nothing when there are none. |
| Blog.OnPosts | src/pages/Blog.tsx:24-32 | A null posts snapshot leaves the list unchanged. A truthy one replaces it wholesale. |
| Blog.ArticleLinkAsWritten | src/pages/Blog.tsx:108-154 | As written, the link index of card k is k, a position in the filtered list. |
| Blog.LinkCorrectUnfiltered | src/pages/Blog.tsx:154 | With the 'All' selection, the link of card k resolves to that card's own post. |
| Blog.LinkWrongWhenFiltered | src/pages/Blog.tsx:154 | As written, under a category filter, a card's link can resolve to a different post. |
| Blog.ArticleLink | src/pages/Blog.tsx:154 | The corrected link index is a position in the full list, the list the detail page reads. |
| Blog.ArticleLinkOpensCard | src/pages/Blog.tsx:154 | With the corrected link, every card resolves to its own post under any selection. It agrees with the written link when nothing is filtered. |
| Header.OnScroll | src/components/Header.tsx:27-36 | After a scroll to y, the direction is down iff y exceeds both the last offset and 100, scrolled is y > 50, the last offset becomes y, and the menu and user are unchanged. |
| Header.FirstScrollFromTop | src/components/Header.tsx:13-36 | The first scroll event compares with the initial offset 0, so it is "down" iff it is past 100 and "scrolled" iff past 50. The menu stays closed and no user is set. |
| Header.UpNearTopOrBackwards | src/components/Header.tsx:29-33 | For y ≤ 100, or y ≤ the last offset, the direction is up whatever it was before. |
| Header.ScrollAll | src/components/Header.tsx:26-40 | A run of scroll events never touches the menu or the user, and it leaves the last event's offset as the last offset. |
| Header.ScrollForgetsHistory | src/components/Header.tsx:26-40 | After two or more scroll events, the state depends only on the last two offsets, the menu and the user. |
| Header.ToggleMenu | src/components/Header.tsx:124 | The menu button negates isOpen and changes nothing else. |
| Header.CloseMenu | src/components/Header.tsx:143 | A mobile navigation link closes the menu and changes nothing else. |
| Header.ToggleTwice | src/components/Header.tsx:124 | Pressing the menu button twice restores the state. |
| Header.OnAuth | src/components/Header.tsx:19-24 | Every auth notification replaces the user, including a null one. |
| Header.AuthAll | src/components/Header.tsx:19-24 | A run of auth notifications, in order. |
| Header.AuthLastWins | src/components/Header.tsx:19-24 | After a run of notifications, the user is the last one's, a sign-out (null) included, and nothing else changes. |
| Header.SignOutIsNotIgnored | src/components/Header.tsx:19-24 | A trailing null notification signs the user out, where a data snapshot's guard would keep the old value. |
| Header.NavLinks | src/components/Header.tsx:94-118 | Each navigation link is highlighted iff the current path equals its path exactly. |
| Header.NavControls | src/components/Header.tsx:94-121 | The controls of the navigation bar in display order: the links, then the Logout button when a user is signed in. `Header.NavControlsSpec` states where the button is. |
| Header.NavLinksSpec | src/components/Header.tsx:94-118 | The Admin link appears iff a user is signed in, and it comes last among the links. At most one link is highlighted. |
| Header.NavControlsSpec | src/components/Header.tsx:107-121 | The Logout button is shown iff a user is signed in. It is then the last control, right after the Admin link, and appears nowhere else. The controls before it are the navigation links in order. |

## Left out

- Realtime-database plumbing (`ref`, `onValue`) and the auth listener. Each callback is a step function over an `Option` payload, and the stream is not modelled. None of the `onValue` effects returns its unsubscribe function, so teardown is not modelled either.
- HTML parsing (`DOMParser`) and serialisation (`innerHTML`). The walk runs over an already-parsed tree. Template contents and parse recovery of malformed HTML are out of scope.
- Unicode case mapping. `toUpperCase` and `toLowerCase` are modelled on ASCII letters only.
- Counter.Percentage: requires duration > 0 and elapsed ≥ 0. The page only uses the default 2000 ms, and frame timestamps do not run backwards. A zero duration would give NaN or Infinity in the browser.
- Counter.Animate: uses exact rationals where the browser uses doubles, so floating-point rounding of end·p is not modelled. Frame timestamps are an input sequence standing in for `requestAnimationFrame`. The `useInView` trigger (once, with a -50px margin) is not modelled.
- The counter's display formatting (`toLocaleString`, and the '%' or '+' suffix chosen from the label) is display-only and not modelled.
- Ticker: the item widths `w` and the box width `clientWidth` are layout inputs. Rounding of `scrollWidth` to whole pixels is ignored. The ref-attached check always succeeds, because the element is always rendered. The framer-motion translation itself is not modelled.
- Ticker.WidthInSync: holds for the box width of the last measurement. The source measures only on mount and when the list changes, not on a resize, so after a resize the stored width can be stale. The model keeps the box width fixed.
- `Object.values` ordering of the news payload: the payload is given directly as the ordered list of values.
- HR Connect: the JSON parsing of stored candidates, the `mailto:` link construction, the details modal and the form input handling are not modelled. Uniqueness of candidate ids is not enforced by the code, and it is not assumed.
- BlogDetails: a truthy payload is assumed to have every field. If a text field were missing, the code would throw on `toUpperCase`. Date formatting is not modelled.
- Blog: `handleShare` (Web Share API, clipboard and alert) is browser I/O and not modelled.
- Header.OnScroll: each event is compared with the previous event's offset. In the source, the listener reads the `lastScrollY` of the render it was attached in, and it is re-attached only after the re-render's effect runs. An event that arrives before the re-attach compares with a stale offset. That timing is not modelled, and `Header.ScrollAll` assumes every event sees its predecessor's offset.
- Header: `handleLogout` (asynchronous sign-out, navigation and error logging) is not modelled. The desktop and mobile lists use the same active, Admin and Logout rules, and both are modelled by `Header.NavControls`.
- Contact.tsx (network POST and alerts), Map.tsx (map embed), Footer.tsx (static markup), App.tsx (routing) and About.tsx (display only, whose snapshot guards follow the `Snapshot` pattern) are not part of this model.

## Findings

| source | as written | input that shows it | evidently intended | confidence | as-written member | corrected member |
|---|---|---|---|---|---|---|
| src/pages/Blog.tsx:154 | The "Read Article" link is `/blog/<index>`, where the index is the card's position in the filtered list. The detail page reads `blogs/posts/<index>`, which is the post at that position in the full list. | Posts [A (NETWORKING), B (CAREER TIPS)] with "CAREER TIPS" selected: the one card shows B, but its link `/blog/0` opens A. | The link opens the post shown on its card. | medium; not executed | Blog.LinkWrongWhenFiltered | Blog.ArticleLinkOpensCard |
