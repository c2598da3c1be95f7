# Portfolio page: section visibility and navigation

A Dafny model of the decision logic of a single-page portfolio site
(`app/page.tsx`). The page reads a generated configuration record and derives
five presence flags from it. From the flags it builds the list of sections
shown in the side navigation, and it paints each optional section only when
its flag holds. Three small pieces of client state sit beside this:
- the dark-theme flag;
- the active section, written by the viewport observer's callback;
- the entrance-animation marks that the same callback adds.

Modules, one per concern:

- `Config` (`config.dfy`): the configuration record. Fields the generator may
  omit are `Option`s; `None` is a JavaScript `undefined`. The stats counts are
  optional too, because the shipped configuration writes `{}` for both stats
  records.
- `Resolver` (`resolver.dfy`): the flags (`Resolve`) and the navigation list
  (`NavSections`). `Keep(f, Canonical)` is an independent reference
  definition: the page order with the hidden sections filtered out.
- `Render` (`render.dfy`): the six section elements, four of them guarded by a flag, and their slots
  in the page's `sectionsRef` array (`SectionsRef`). Also the walk over that
  array that registers sections with the observer (`Observed`).
- `Observer` (`observer.dfy`): the intersection callback as a left fold over
  one batch of entries (`ProcessBatch`). `LastIntersecting` and
  `IntersectingIds` are reference definitions of what the fold computes.
- `Theme` (`theme.dfy`): the theme flag and its toggle.
- `Highlight` (`highlight.dfy`): which navigation buttons are drawn
  highlighted.
- `Example` (`example.dfy`): the shipped configuration and four
  representative configurations.

Section ids are a datatype `SectionId`. `Name` gives the `id` string the page
writes. `activeSection` and the entry targets stay strings, as in the page,
and `NameInjective` / `NameNotEmpty` connect the two.

## Model

| member | source | states |
|---|---|---|
| `Resolver.Resolve` | app/page.tsx:41-51 | Each list flag holds iff the list is present and non-empty. The GitHub flag holds iff the record and its `totalRepos` are present and `totalRepos > 0`. The LeetCode flag is the same with `totalSolved`. |
| `Resolver.NavSections` | app/page.tsx:53-59 | The list starts with `intro` and ends with `connect`, so its length is 2 to 6. `projects`, `experience`, `education` each occur iff their flag holds. `stats` occurs iff either stats flag holds. |
| `Resolver.NavIsFilteredPageOrder` | app/page.tsx:54-59 | The pushed list equals the fixed page order intro, projects, experience, education, stats, connect with the hidden sections removed. |
| `Resolver.ShownIffNavigable` | app/page.tsx:214-382 | The guard of a section's element holds iff the navigation list names that section. |
| `Resolver.Keep` | app/page.tsx:54-59 | The filtered list is no longer than its input. Every kept element is shown and comes from the input. |
| `Resolver.KeepMembership` | app/page.tsx:54-59 | An element is kept iff it is in the input and shown. |
| `Resolver.KeepPreservesPageOrder` | app/page.tsx:54-59 | Filtering a list whose slots strictly increase keeps the slots strictly increasing. |
| `Resolver.NavSectionsInPageOrder` | app/page.tsx:54-59 | Slots strictly increase along the navigation list, so it has no duplicates. |
| `Resolver.KeepIsSubsequence` | app/page.tsx:54-59 | The filtered list is a subsequence of the list it was filtered from. |
| `Resolver.NavIsSubsequenceOfPageOrder` | app/page.tsx:54-59 | The navigation list is a subsequence of the page order. |
| `Resolver.OccurrencesWithoutDuplicates` | app/page.tsx:54-59 | In a duplicate-free list a value occurs once if present and zero times otherwise. |
| `Resolver.ListSectionsNavigable` | app/page.tsx:41-57 | `projects` / `experience` / `education` is navigable iff the configuration's list is present and non-empty. |
| `Resolver.StatsNavigableOnce` | app/page.tsx:47-58 | `stats` occurs exactly once iff `githubStats.totalRepos > 0` or `leetcodeStats.totalSolved > 0`, with the record and count present. Otherwise it does not occur. |
| `Resolver.AbsentListLikeEmpty` | app/page.tsx:41-46 | An absent projects, experience or education list yields the same flags as an empty one. |
| `Resolver.NonPositiveReposLikeAbsent` | app/page.tsx:47-48 | A GitHub record whose `totalRepos` is missing, zero or negative yields the same flags as no record. |
| `Resolver.NonPositiveSolvedLikeAbsent` | app/page.tsx:49-51 | A LeetCode record whose `totalSolved` is missing, zero or negative yields the same flags as no record. |
| `Resolver.SectionTogglesIgnored` | lib/portfolio.config.ts:87-95 | The generated `sections.show*` switches never change the flags. |
| `Render.SectionsRef` | app/page.tsx:86-519 | Six slots. Slot `k`, when filled, holds the section whose slot is `k`. `intro` and `connect` are always filled. |
| `Render.SlotsFollowShown` | app/page.tsx:86-519 | Slot `k` holds the `k`-th section of the page order iff that section's guard holds (214, 281, 338, 382). Otherwise the slot is empty. Slots 0 and 5 are unguarded. |
| `Render.FilledFrom` | app/page.tsx:29-31 | The indices of the filled slots from `k` on: each is a filled slot at or after `k`, they strictly increase, and no filled slot is missing. |
| `Render.ObservedFrom` | app/page.tsx:29-31 | Walking the slots from `k` and skipping empty ones yields one section per filled slot. The `i`-th section is the content of the `i`-th filled slot. |
| `Render.Observed` | app/page.tsx:29-31 | The observed sections are the filled slots' contents, in slot order, one per filled slot. |
| `Render.ObservedMembership` | app/page.tsx:29-31 | A section is observed iff some slot holds it. |
| `Render.ObservedFromGuardedSlots` | app/page.tsx:29-31 | Walking guarded slots from `k` on yields the ids from `k` on, filtered by `Shown`. |
| `Render.ObservedOfGuardedSlots` | app/page.tsx:29-31 | Walking slots filled by the `Shown` guard yields the page order filtered by `Shown`. |
| `Render.ObservedIsNav` | app/page.tsx:29-59 | The sections registered with the observer are the navigation list, in the same order. |
| `Render.RenderedIffNavigable` | app/page.tsx:214-386 | A section is painted iff it appears in the navigation list. So every navigation button has a target to scroll to. |
| `Render.NavSlotsIncrease` | app/page.tsx:86-519 | Each navigation entry's slot holds that section, and slots strictly increase along the navigation order. |
| `Render.StatsSectionNeverEmpty` | app/page.tsx:382-448 | The stats section is painted iff the GitHub card or the LeetCode card inside it is. |
| `Observer.Step` | app/page.tsx:20-23 | An intersecting entry becomes the active section and is marked animated. Marks are only added, at most the entry's target. A non-intersecting entry changes nothing. |
| `Observer.ProcessBatch` | app/page.tsx:19-24 | The animated set only grows, and only by targets of intersecting entries. The active section is unchanged or the target of an intersecting entry. A batch with no intersecting entry changes nothing. |
| `Observer.LastIntersecting` | app/page.tsx:19-24 | Returns a value iff some entry intersects. The value is the target of an intersecting entry with no intersecting entry after it. |
| `Observer.ProcessBatchSnoc` | app/page.tsx:19-24 | Processing a batch with one more entry at the end is one more step. |
| `Observer.BatchActiveSection` | app/page.tsx:19-24 | After a batch the active section is the last intersecting entry's target, or unchanged when none intersects. |
| `Observer.BatchAnimated` | app/page.tsx:19-24 | After a batch the animated set is the old set plus the targets of all intersecting entries. |
| `Observer.ActiveIsIntersectingTarget` | app/page.tsx:19-24 | When some entry intersects, the active section afterwards is the target of an intersecting entry. |
| `Observer.ReanimationIsNoOp` | app/page.tsx:21 | Re-marking targets that are already animated leaves the set unchanged. |
| `Observer.BatchIdempotent` | app/page.tsx:19-24 | Delivering the same batch twice has the same effect as delivering it once. |
| `Observer.ActiveStaysAmong` | app/page.tsx:19-24 | If every target belongs to a set of ids, the active section stays unset or within that set. |
| `Theme.Toggle` | app/page.tsx:36-38 | A toggle always yields the other theme. |
| `Theme.ToggleTimes` | app/page.tsx:36-38 | After `n` presses the flag is the starting value if `n` is even and its negation otherwise. |
| `Theme.ToggleTwice` | app/page.tsx:36-38 | Toggling twice restores the flag. |
| `Theme.ToggleTimesCompose` | app/page.tsx:36-38 | `m` presses followed by `n` more presses equal `m + n` presses. |
| `Theme.DarkAfterEvenPresses` | app/page.tsx:8 | The page starts dark and is dark exactly after an even number of presses. |
| `Highlight.Highlights` | app/page.tsx:65-77 | One flag per navigation button. A button is highlighted iff its section's id equals the active section. |
| `Highlight.NameInjective` | app/page.tsx:86-519 | Distinct sections carry distinct `id` strings. |
| `Highlight.NameNotEmpty` | app/page.tsx:9 | No section id equals the initial active section `""`. |
| `Highlight.AtMostOneHighlighted` | app/page.tsx:73-77 | No two navigation buttons are highlighted at once. |
| `Highlight.NoneHighlightedInitially` | app/page.tsx:9 | On mount no button is highlighted. |
| `Highlight.ObservedIdIsNavigable` | app/page.tsx:29-77 | The `id` of an observed section names an entry of the navigation list. |
| `Highlight.NavigableIsHighlighted` | app/page.tsx:73-77 | If the active section is the id of some navigation entry, that button is highlighted. |
| `Highlight.HighlightedAfterIntersection` | app/page.tsx:19-24 | After a batch, from any prior state, in which some observed section intersects, some button is highlighted. |
| `Highlight.PlainWithoutIntersection` | app/page.tsx:19-24 | After a first batch in which nothing intersects, no button is highlighted. |
| `Example.ShippedNav` | lib/portfolio.config.ts:34-79 | The shipped configuration navigates `intro`, `projects`, `education`, `connect`. |
| `Example.BareNav` | app/page.tsx:54-59 | With no list entries and no positive count the list is exactly `intro`, `connect`. |
| `Example.FullNav` | app/page.tsx:54-59 | With every optional section qualifying the list is the full page order. |
| `Example.ProjectsAndEducationNav` | app/page.tsx:54-59 | Setup: no experience, two projects, one education entry, no stats records. The list is `intro`, `projects`, `education`, `connect`. |
| `Example.LeetcodeOnlyNav` | app/page.tsx:47-59 | A LeetCode count of 5 with no GitHub record puts `stats` in the list exactly once, immediately before `connect`. |

## Left out

- Markup, CSS class strings and SVG paths: presentation only.
- The observer's geometry (`threshold`, `rootMargin`, app/page.tsx:26). The
  host decides it with real-valued viewport fractions, so `isIntersecting`
  is an input of each entry.
- The observer's lifecycle. Creating it on mount, `observe` and `disconnect`
  (app/page.tsx:17-33) are browser calls. Only the order in which filled
  slots are registered is modelled (`Render.Observed`).
- Applying the theme to the document root (`classList.toggle`,
  app/page.tsx:12-14) and smooth scrolling on a button press
  (app/page.tsx:68-72): DOM side effects.
- Clock reads (`new Date().getFullYear()`, app/page.tsx:97, 238, 595) and
  number formatting (`toLocaleString`, app/page.tsx:473).
- Counts are unbounded integers. JavaScript's floating-point numbers, `NaN`
  and non-numeric values in the count fields are not modelled. A `null`
  field is modelled like an absent one, since both are falsy.
- React's scheduling is assumed, not modelled: state writes made inside one
  observer callback are applied in order, so the last write wins. Each theme
  button press sees the value from the previous press.
- `Example.Shipped` shortens the free-text fields of the shipped
  configuration (bio, project descriptions) and drops fields the page does
  not read (`avatarUrl`, `achievements`, `grade`, `highlights`, …). None of
  them affects which sections exist.
- `templateMetadata` is not in `Config.PortfolioConfig`. The page reads it
  only for the availability line in the intro
  (`templateMetadata?.availabilityStatus`, app/page.tsx:115-120), and no
  flag or section depends on it.
- `next.config.ts` holds build settings only and is not part of this model.
