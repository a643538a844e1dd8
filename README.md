# Portfolio site logic, modelled in Dafny

This project models the deterministic logic of a Next.js portfolio site and proves properties of it. The site is mostly markup. What it computes is:

- **Content catalogs.** `projects` and `experiences` are constant arrays. The site looks them up by slug, lists the featured projects ordered by `order`, and resolves a list of related slugs to projects (`ProjectCatalog`, `ExperienceCatalog`).
- **The projects page.** One `active` filter is state. The visible grid is the catalog filtered by category and then sorted by `order`. Each filter button shows a count (`ProjectsPage`).
- **The hero typewriter.** A timer-driven machine types a role one character at a time, pauses, deletes it, and moves on to the next role (`Typewriter`).
- **The navigation bar.** A link is active by a prefix rule on the current path, with a special case for `/`. The mobile menu toggles and closes on route change. The bar turns "scrolled" past 24 pixels (`Navbar`).
- **The sitemap.** Static, project and experience entries, with their URLs, change frequency and priority rule (`Sitemap`). Priorities are integers in tenths.
- **The count-up animation and metric text.** A cubic ease-out runs from 0 to a target, with progress clamped to 1. A frame loop stops at progress 1. The card's display text is chosen from the animated count (`CountUp`, `MetricDisplay`).

Two helper modules model the JavaScript pieces these rely on:

- `JsArray`: `find`, `filter`, and `sort` with a numeric comparator. `includes` is Dafny's `in` on sequences.
- `JsText`: rendering an integer as decimal text.

The catalogs are immutable values and every query is a function, so no query can alter `projects` or `experiences`. `sort` applies only to a fresh filtered copy in the source, and that copy is a new value here.

Where the source holds mutable state (React state for the filter, the typewriter, the navbar and the counter), the model has a class: `ProjectsPage.ProjectsView`, `Typewriter.TypewriterRole`, `Navbar.NavbarState`, `CountUp.Counter`.

- `TypewriterRole.Tick` and `Run` are proved against the pure step function `Typewriter.Step` and its delays.
- `Counter.Frame` and `Animate` are proved against the pure sample function `CountUp.Sample`.
- `ProjectsView.Click` and the `NavbarState` events are one-line updates, and their contracts state the new field values directly.

Each project `category` is an array in the code, so the model keeps it as a sequence rather than a set. Membership (`includes`) is the only operation applied to it, so the two readings agree.

## Model

| member | source | states |
|---|---|---|
| `JsArray.FindIndex` | src/content/projects.ts:543 | the index `find` stops at satisfies the predicate and no earlier element does; there is none exactly when no element satisfies it |
| `JsArray.Find` | src/content/experience.ts:312 | `find` is undefined exactly when no element satisfies the predicate; otherwise it returns the first element of the input that satisfies it: every earlier element fails the predicate |
| `JsArray.FindUnique` | src/content/projects.ts:543 | `find` returns the first element that satisfies the predicate, so when exactly element `i` matches, the result is that element |
| `JsArray.Filter` | src/app/projects/page.tsx:27 | `filter` returns no more elements than its input, and every one it returns satisfies the predicate |
| `JsArray.FilterMembers` | src/content/projects.ts:547 | `filter` returns only elements of the input, and it returns every input element that passes the predicate |
| `JsArray.FilterKeepsOrder` | src/content/projects.ts:551 | `filter` keeps the surviving elements in their original relative order (the result is a subsequence) |
| `JsArray.FilterConcat` | src/content/projects.ts:551 | `filter` distributes over concatenation |
| `JsArray.FilterDistinct` | src/content/projects.ts:551 | filtering a sequence without repeats gives a sequence without repeats |
| `JsArray.FilterLength` | src/app/projects/page.tsx:76 | the length of a filtered sequence is the number of positions whose element passes |
| `JsArray.SortBy` | src/content/projects.ts:547 | `sort((a, b) => key(a) - key(b))` returns a permutation of its input, ascending by key |
| `JsArray.SortedPermutationUnique` | src/app/projects/page.tsx:29 | two permutations of one another that are both sorted by a key that separates all elements are equal, so the sorted result does not depend on the engine's sort algorithm |
| `JsText.IntToString` | src/components/home/MetricTiles.tsx:103 | `String(n)` is all digits for `n >= 0` and a minus sign followed by digits for `n < 0`, never with a leading zero; 0 is the single character `0` |
| `JsText.IntToStringRoundTrip` | src/components/home/MetricTiles.tsx:103 | the decimal text of an integer reads back as that integer |
| `ProjectCatalog.GetProjectBySlug` | src/content/projects.ts:542-544 | the result is a catalog project carrying the slug; it is undefined exactly when no project carries the slug |
| `ProjectCatalog.GetProjectBySlugUnique` | src/content/projects.ts:542-544 | when slugs are distinct, looking up any project's slug returns that project |
| `ProjectCatalog.GetProjectBySlugMissing` | src/content/projects.ts:542-544 | an unknown slug yields undefined |
| `ProjectCatalog.CatalogSlugsDistinct` | src/content/projects.ts:57-540 | no two catalog projects share a slug, and no project appears twice |
| `ProjectCatalog.CatalogOrdersDistinct` | src/content/projects.ts:57-540 | no two catalog projects share an `order` |
| `ProjectCatalog.RelatedSlugsResolve` | src/content/projects.ts:57-540 | every slug in every project's `related` list resolves under the slug lookup |
| `ProjectCatalog.GetFeaturedProjects` | src/content/projects.ts:546-548 | the result holds only featured catalog projects and every featured project, ascending by `order`. It is a permutation of the filtered list, so a catalog without repeats gives each featured project exactly once |
| `ProjectCatalog.FeaturedFilter` | src/content/projects.ts:547 | of the shown data, filtering on `featured` keeps the first three projects |
| `ProjectCatalog.FeaturedProjectsValue` | src/content/projects.ts:546-548 | for the shown data the list is greenlens, grubsync, stonklytics, and neuro-symbolic-ai is excluded |
| `ProjectCatalog.GetRelatedProjects` | src/content/projects.ts:550-552 | the result holds only catalog projects whose slug is listed, and every catalog project whose slug is listed |
| `ProjectCatalog.GetRelatedProjectsIgnoresArgumentOrder` | src/content/projects.ts:550-552 | the result depends only on which slugs are listed, not on their order or repeats, and never repeats a project |
| `ProjectCatalog.GetRelatedProjectsInCatalogOrder` | src/content/projects.ts:550-552 | the related projects come in catalog order |
| `ProjectCatalog.GetRelatedProjectsExample` | src/content/projects.ts:550-552 | an unknown slug is dropped, a repeated slug does not repeat its project, and catalog order wins over argument order |
| `ExperienceCatalog.GetExperienceBySlug` | src/content/experience.ts:311-313 | the result is an experience carrying the slug; it is undefined exactly when none carries it |
| `ExperienceCatalog.GetExperienceBySlugUnique` | src/content/experience.ts:311-313 | when slugs are distinct, looking up any experience's slug returns that experience |
| `ExperienceCatalog.CatalogWellFormed` | src/content/experience.ts:29-309 | experience slugs are distinct and the records are listed by strictly ascending `order` |
| `ExperienceCatalog.RelatedSlugsNameProjects` | src/content/experience.ts:29-309 | every experience `related` slug resolves to a project and names no experience |
| `ProjectsPage.FilterLabel` | src/app/projects/page.tsx:12-19 | only the `'all'` button reads "All Projects" |
| `ProjectsPage.FilterLabelsDistinct` | src/app/projects/page.tsx:12-19 | no two filter buttons carry the same text |
| `ProjectsPage.HasCategory` | src/app/projects/page.tsx:27 | a project passes `category.includes(c)` exactly when some position of its category list holds `c` |
| `ProjectsPage.FilterKeysComplete` | src/app/projects/page.tsx:10-19 | the six filter buttons are the six filter values, each exactly once |
| `ProjectsPage.Filtered` | src/app/projects/page.tsx:24-27 | `'all'` keeps the whole catalog; a category keeps exactly the catalog projects tagged with it |
| `ProjectsPage.Sorted` | src/app/projects/page.tsx:29 | the grid is a permutation of the filtered list, ascending by `order` |
| `ProjectsPage.VisibleIsSortedSelection` | src/app/projects/page.tsx:24-29 | for a catalog without repeats, the grid shows each selected project exactly once and nothing else: every card shown is in the catalog and passes the filter |
| `ProjectsPage.FilterCount` | src/app/projects/page.tsx:74-77 | the `'all'` button has no count; any other button counts the projects tagged with its category, whatever filter is active |
| `ProjectsPage.CountMatchesGrid` | src/app/projects/page.tsx:74-77 | a button's count is the number of cards the grid shows once that button is clicked |
| `ProjectsPage.FilterCountsShown` | src/app/projects/page.tsx:76 | for the shown data the counts are AI/ML 4, Full Stack 2, Research 1, Edge AI 1, Security 0 |
| `ProjectsPage.CategoryCount` | src/app/projects/page.tsx:76 | over four projects, the count for a category adds one for each project tagged with it |
| `ProjectsPage.ProjectsView.constructor` | src/app/projects/page.tsx:22 | the active filter starts as `'all'` |
| `ProjectsPage.ProjectsView.Click` | src/app/projects/page.tsx:66 | clicking a button makes its filter active; clicking the active one changes nothing |
| `Typewriter.Initial` | src/components/home/Hero.tsx:17-20 | the first render satisfies the invariant with nothing shown, and its first step types the first character of the first role |
| `Typewriter.Step` | src/components/home/Hero.tsx:22-49 | the step keeps the index in range and the text a prefix of the current role. Typing appends exactly the next character. A fully typed role moves to pause with the text unchanged. Pause moves to deleting. Deleting removes exactly the last character. An empty text moves to the next role, wrapping, in the typing phase |
| `Typewriter.Delay` | src/components/home/Hero.tsx:25-47 | only the move to the next role happens with no timer. The 60, 1800, 400 and 35 ms delays of the other cases are stated by `TypeUp`, `ShowAndPause` and `DeleteDown` |
| `Typewriter.TypeUp` | src/components/home/Hero.tsx:25-28 | typing `k` further characters takes `k` steps of 60 ms and shows the next `k` characters of the role |
| `Typewriter.ShowAndPause` | src/components/home/Hero.tsx:29-37 | a fully typed role moves to the pause phase after 1800 ms with the text unchanged, and from there to deleting after 400 ms; the two steps take 2200 ms in all |
| `Typewriter.DeleteDown` | src/components/home/Hero.tsx:40-43 | deleting `j` shown characters takes `j` steps of 35 ms and leaves nothing shown |
| `Typewriter.NextRole` | src/components/home/Hero.tsx:44-47 | with nothing left to delete, the next role (wrapping) starts typing at once |
| `Typewriter.Cycle` | src/components/home/Hero.tsx:22-49 | from role `i` with nothing shown, `2·|role| + 3` steps lead to role `(i + 1) mod |roles|` typing with nothing shown, after `95·|role| + 2200` ms |
| `Typewriter.RolesWrap` | src/components/home/Hero.tsx:9-20 | after the last role's cycle the first role starts again from the initial state |
| `Typewriter.TypewriterRole.constructor` | src/components/home/Hero.tsx:17-20 | the component starts on role 0 with nothing shown, typing |
| `Typewriter.TypewriterRole.Tick` | src/components/home/Hero.tsx:22-49 | one effect run applies `Step` to the component's state and returns the delay of its timer |
| `Typewriter.TypewriterRole.Run` | src/components/home/Hero.tsx:22-49 | `n` callbacks in a row reach `Steps(n)` of the initial state and take `TotalDelay(n)` ms |
| `Navbar.IsActive` | src/components/nav/Navbar.tsx:34-37 | an active link's `href` always starts the path; for any link but home, starting the path is enough; home is active exactly on `/`. `Navbar.StartsWith` models `pathname.startsWith(href)` as a prefix test |
| `Navbar.IsActiveMeaning` | src/components/nav/Navbar.tsx:34-37 | the home link is active exactly on `/`; any other link is active exactly on paths that extend its `href` |
| `Navbar.ActiveOnOwnPage` | src/components/nav/Navbar.tsx:34-37 | every link is active on its own page |
| `Navbar.AtMostOneActive` | src/components/nav/Navbar.tsx:34-37 | in a table whose non-home links differ in their second character, no path activates two links |
| `Navbar.NavLinksWellFormed` | src/components/nav/Navbar.tsx:10-17 | the site's six links form such a table |
| `Navbar.ProjectPageHighlightsProjects` | src/components/nav/Navbar.tsx:10-37 | on `/projects/greenlens` the Projects link, and only it, is active |
| `Navbar.NavbarState.constructor` | src/components/nav/Navbar.tsx:20-22 | the bar starts not scrolled, with the menu closed |
| `Navbar.NavbarState.ToggleMenu` | src/components/nav/Navbar.tsx:108 | the menu button flips `mobileOpen` and nothing else, so two presses restore it |
| `Navbar.NavbarState.OnScroll` | src/components/nav/Navbar.tsx:24-28 | after a scroll event, `scrolled` holds exactly when the offset exceeds 24 |
| `Navbar.NavbarState.Navigate` | src/components/nav/Navbar.tsx:30-32 | a change of path closes the menu; staying on the path leaves it as it was |
| `Sitemap.StaticEntry` | src/app/sitemap.ts:9-14 | a static entry's URL is the base followed by the route, it changes monthly, and its priority is 1 for home and 0.8 otherwise |
| `Sitemap.ProjectEntry` | src/app/sitemap.ts:17-22 | a project's URL is the base followed by `/projects/<slug>`, it changes monthly, and its priority is 0.9 exactly when the project is featured, else 0.7 |
| `Sitemap.ExperienceEntry` | src/app/sitemap.ts:24-29 | an experience's URL is the base followed by `/experience/<slug>`, it changes monthly, at priority 0.8 |
| `Sitemap.Build` | src/app/sitemap.ts:7-32 | the sitemap has one entry per static route, project and experience |
| `Sitemap.SiteSitemap` | src/app/sitemap.ts:7-32 | the served sitemap has `6 + |projects| + |experiences|` entries |
| `Sitemap.BuildLayout` | src/app/sitemap.ts:8-31 | entries are laid out in this order: static routes, then projects, then experiences, the last two in catalog order. URLs are the base plus the route, `/projects/<slug>` or `/experience/<slug>`. Every entry changes monthly. Priorities are 1 for home, 0.8 for other static routes and experiences, and 0.9 or 0.7 for a featured or other project |
| `Sitemap.StaticEntryAt` | src/app/sitemap.ts:8-15 | entry `k` is the entry of static route `k` |
| `Sitemap.ProjectEntryAt` | src/app/sitemap.ts:17-22 | entry `6 + k` is the entry of project `k` |
| `Sitemap.ExperienceEntryAt` | src/app/sitemap.ts:24-29 | entry `6 + |projects| + k` is the entry of experience `k` |
| `Sitemap.PathsDistinct` | src/app/sitemap.ts:8-25 | with distinct slugs in each catalog, two positions never share a path |
| `Sitemap.UrlsDistinct` | src/app/sitemap.ts:7-32 | with distinct slugs in each catalog, no URL appears twice |
| `Sitemap.SiteSitemapDistinct` | src/app/sitemap.ts:7-32 | the served sitemap has 12 entries and no URL twice |
| `Sitemap.SiteSitemapShown` | src/app/sitemap.ts:8-22 | home comes first at priority 1; greenlens (featured) is at 0.9 and neuro-symbolic-ai (not featured) at 0.7 |
| `CountUp.Progress` | src/components/themed/MetricCounter.tsx:24 | progress is at most 1, non-negative for non-negative elapsed time, and exactly 1 once the duration has elapsed |
| `CountUp.ProgressMonotone` | src/components/themed/MetricCounter.tsx:24 | a later frame has at least the progress of an earlier one |
| `CountUp.Eased` | src/components/themed/MetricCounter.tsx:26 | the ease-out maps `[0, 1]` into `[0, 1]`, 0 to 0 and 1 to 1 |
| `CountUp.EasedMonotone` | src/components/themed/MetricCounter.tsx:26 | the ease-out is non-decreasing for every progress up to 1, negative progress included |
| `CountUp.Round` | src/components/themed/MetricCounter.tsx:27 | `Math.round` returns the integer within one half of its argument, halves rounded up |
| `CountUp.Sample` | src/components/themed/MetricCounter.tsx:23-27 | from the frame with progress 1 on, the count is the target; a frame at time 0 shows 0, and a zero target shows 0 on every frame even without the zero guard |
| `CountUp.Samples` | src/components/home/MetricTiles.tsx:55-58 | one count per frame; every frame at or past the duration shows the target and every frame at time 0 shows 0 |
| `CountUp.SampleBounds` | src/components/home/MetricTiles.tsx:55-58 | for a non-negative target and elapsed time, every shown count lies in `[0, target]` |
| `CountUp.SampleMonotone` | src/components/home/MetricTiles.tsx:55-58 | for a non-negative target, a later frame never shows a smaller count, whatever the sign of the elapsed times |
| `CountUp.SamplesRise` | src/components/home/MetricTiles.tsx:54-61 | frames at non-negative, non-decreasing times show a non-decreasing run of counts within `[0, target]` |
| `CountUp.Counter.constructor` | src/components/themed/MetricCounter.tsx:14-15 | the count starts at 0, not started, with no frame requested |
| `CountUp.Counter.Start` | src/components/themed/MetricCounter.tsx:17-31 | entering the view requests the first frame, except under the guard with a zero target; the count stays 0 until a frame runs |
| `CountUp.Counter.Frame` | src/components/themed/MetricCounter.tsx:22-29 | a frame sets the count to the sample and requests another frame exactly when progress is below 1, so the last frame leaves the target |
| `CountUp.Counter.Animate` | src/components/home/MetricTiles.tsx:54-61 | frames run until the first one with progress 1, which leaves the count at the target. The counts shown are the samples at the given times |
| `MetricDisplay.CounterTarget` | src/components/themed/MetricCounter.tsx:43 | the counter animates to `numericValue` whenever it is present (0 included), and to 0 when it is absent |
| `MetricDisplay.DisplayValue` | src/components/themed/MetricCounter.tsx:45-47 | a missing or zero `numericValue` shows the metric's `value` string. Otherwise the text is prefix, count, then suffix. `MetricDisplay.Animated` models the JavaScript truthiness of `numericValue`: present and not 0 |
| `MetricDisplay.DisplayValueShowsCount` | src/components/themed/MetricCounter.tsx:45-47 | an animated metric's text starts with the prefix and ends with the suffix; between them the plain decimal text reads back as the count |
| `MetricDisplay.DisplayValueAtEnd` | src/components/themed/MetricCounter.tsx:24-47 | after the last frame the card's plain decimal text reads back as the metric's own `numericValue` |
| `MetricDisplay.TileText` | src/components/home/MetricTiles.tsx:103 | the tile text is the prefix (or nothing), the count and the suffix, in that order and length |
| `MetricDisplay.TileTextShowsCount` | src/components/home/MetricTiles.tsx:103 | between the tile's prefix and suffix, the text reads back as the count |

## Left out

- Timers, animation frames and the clock are left out: `setTimeout`, `requestAnimationFrame`, `performance.now` and `new Date()` (the sitemap's `lastModified`). Each timer callback is an explicit `Tick` or `Frame` call, and elapsed time is a parameter.
- Effect cleanup (`clearTimeout` on unmount or re-render) and any concurrency between callbacks are not modelled.
- React's batching is not modelled. The typewriter's switch to the next role happens inside the effect itself and is modelled as a step with delay 0.
- The unused `isDeleting` state of the typewriter is not modelled.
- The `window` scroll-listener registration is I/O. Only the `scrollY > 24` update is modelled, with the offset as a parameter.
- `usePathname` and `useInView` are inputs. The path arrives through `Navigate` and entering the view through `Start`.
- Numbers are exact reals and integers, not IEEE doubles. `Math.pow`, `Math.round` and the division are exact, and NaN or infinite values cannot arise.
- `CountUp.Progress`: requires a positive duration, as every call site passes 2000 or 1800. A zero duration (division by zero in JavaScript) is not modelled.
- `CountUp.SampleBounds`: holds for non-negative elapsed time only. A frame timestamp earlier than the start time is not given a bound.
- `MetricDisplay.DisplayValue`: uses the plain decimal text of the count, not `toLocaleString`. The localized text depends on the browser's locale and inserts grouping separators from 1000 upward. The experience metrics 370000 and 850000 (src/content/experience.ts:47 and :54) reach the card through `MetricsSection` (src/app/experience/[slug]/page.tsx:104), so the site shows for example `370,000+`, and separated counts while the animation runs past 999.
- `MetricDisplay.DisplayValueShowsCount`: reads back the plain decimal text of the model, not the localized text the site shows for counts of 1000 or more.
- `MetricDisplay.DisplayValueAtEnd`: the same holds; the read-back is of the plain decimal text.
- `MetricDisplay.ProjectMetric`: `numericValue` is modelled as an integer, as it is in every catalog record. The label and icon are display-only.
- The home-page tiles' `metrics` data is not modelled: values 370, 40 and 35, with labels, descriptions and colours. The tile text is modelled for any prefix, count and suffix.
- The prose, metrics, links, diagrams and themes of the catalog records are data, not behaviour. So are the theme tokens, the Tailwind and Next.js configuration, and the framer-motion variants.
- Purely presentational components are not modelled (home previews, detail pages, themed cards, footer, layout). Neither is the contact page's clipboard copy, which is an asynchronous browser call.
- `JsArray.SortBy`: an insertion sort stands in for the engine's `Array.prototype.sort`. Stability is not stated. The catalog's `order` values are distinct, and `JsArray.SortedPermutationUnique` shows that any correct sort then gives the same result.
- `Navbar.NavLink`: the source's `label` field is called `title`, because `label` is a Dafny keyword.
