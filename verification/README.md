# CVLenz profile logic in Dafny

CVLenz turns résumé text into a "dynamic profile". A hosted generative
model does the synthesis, and three React views render the result: a
dashboard, a connection graph and a public portfolio. This project models
the small layer of the application's own logic, as pure functions over
immutable datatypes:

- **Profile data contract** (`profile.dfy`, module `Profile`). One datatype
  per record of `types.ts`: `Experience`, `Skill`, `TrajectoryPoint` (only
  `milestone` is optional), `Connection` with its four-valued
  `ConnectionType`, and `UserProfile` with all six sections. `ViewState` is
  an enum with exactly `Landing`, `Uploading`, `Dashboard` and `Portfolio`.
  The 0..100 range of the scores (the comment on `Skill.level` in
  `types.ts` and the momentum wording of the synthesis prompt) is the
  `ValidProfile` predicate. The program never enforces it, so the model
  does not assume it.
- **View controller and PDF text** (`app.dfy`, module `App`). The state is
  the view, the optional profile, the text buffer and the two busy flags
  `loading` and `parsing`. Every user action is an event. A click on a
  control that is not rendered in the current state does nothing. Synthesis
  and file reading each have a start event and a settle event, so
  navigation can happen while a request is pending. Opening the portfolio
  for a profile whose skills cannot be grouped crashes the application,
  and a crashed application ignores every later event. The PDF page loop
  is modelled over the item strings of each page.
- **Dashboard** (`dashboard.dfy`). Current, peak and delta momentum; the
  growth badge text; the four-colour timeline palette; the year icon; the
  star on the first two milestones; the single selected skill.
- **Connection graph** (`network.dfy`). The case-insensitive search filter;
  the node and link lists given to the layout library; the click rule; the
  empty-state overlay with its reset; the hover emphasis rule.
- **Portfolio** (`portfolio.dfy`). Skills grouped by category in order of
  first appearance; the three overlapping work-sample buckets; impact
  bullets; the two-line name; the bounded skill-tag lists.
- **Shared primitives** (`text.dfy`, `seqs.dfy`, `wrappers.dfy`).
  - ASCII `toLowerCase`, `includes` and `trim`.
  - `split`/`join` on one character.
  - Integer printing and a base-ten `parseInt`.
  - `Array.prototype.filter` and `slice` (non-negative arguments).
  - `Option`.

A few behaviours of the code are worth stating plainly, because they are
easy to misread:

- A three-page PDF with one item per page, "Alpha", "Beta" and "Gamma",
  gives `"Alpha\nBeta\nGamma\n"`. A page's items are joined by a single
  space, and every page, the last one included, ends with `"\n"`
  (`App.ThreePageDocument`).
- The portfolio view does not render the navigation bar, so the logo is
  not reachable there and Back is the only way out (`App.PortfolioOnlyBack`).
- A chart click inside the plot area always selects the skill of the row
  under the pointer, even when it is already selected. Only the two close controls clear the selection
  (`Dashboard.SelectSkill`).
- Hover emphasis tests `n.id === userName`. A connection whose name equals
  the user's name therefore also stays fully opaque while another node is
  hovered (`Network.HoverEmphasis`).
- The growth badge always writes `+` in front of the delta, so a negative
  delta shows as `+-5%` (`Dashboard.GrowthBadge`).
- Every experience card shows the same first four skills of the profile,
  not skills tied to that experience (`Portfolio.ExperienceTags`).
- Grouping skills reduces into a plain object `{}`. A category named after
  an inherited `Object.prototype` property, such as `constructor` or
  `toString`, finds that inherited value instead of `undefined`, so no
  array is created and `push` throws (`Portfolio.SkillsByCategory`). The
  reduce runs while the portfolio page renders, and no component above it
  catches the error, so React unmounts the whole application. The screen
  goes blank, Back never appears, and no later event has any effect
  (`App.PortfolioRoundTrip`, `App.CrashIsFinal`).

## Model

| member | source | states |
|---|---|---|
| `App.ExtractTextFromPdf` | App.tsx:35-46 | the page loop returns exactly the reference text `ExtractText`: each page's items joined by one space, then `"\n"`, pages in order |
| `App.ExtractText` | App.tsx:38-45 | zero pages give the empty string; otherwise the text ends with a line feed |
| `App.ExtractTextIsJoin` | App.tsx:38-45 | the extracted text equals the page texts joined by `"\n"` with one more `"\n"` after the last page |
| `App.ExtractTextLineFeeds` | App.tsx:43 | the text holds at least one line feed per page |
| `App.ExtractTextSplitsIntoPages` | App.tsx:42-43 | if no item holds a line feed, splitting the text at line feeds gives back every page's text, then one empty tail |
| `App.ThreePageDocument` | App.tsx:39-44 | three one-item pages "Alpha", "Beta", "Gamma" give `"Alpha\nBeta\nGamma\n"` |
| `App.GenerateEnabled` | App.tsx:214 | Generate is enabled iff not loading, not parsing, and the buffer is not all whitespace |
| `App.HandleSynthesize` | App.tsx:20-22 | whitespace-only input leaves the state unchanged; otherwise only `loading` goes up |
| `App.SettleSynthesis` | App.tsx:23-32 | settling clears `loading` and keeps the buffer; success installs the profile and opens the dashboard; failure keeps view and profile |
| `App.SynthesisOutcomes` | App.tsx:23-32 | in any state keeping the invariant with a synthesis pending, a successful synthesis installs the profile and opens the dashboard; a failure changes only `loading`, leaving view, profile and input alone |
| `App.SettleFileRead` | App.tsx:52-71 | a PDF read replaces the buffer with the assembled text; a non-empty text file replaces it; a failed read or empty text leaves it unchanged; view, profile and `loading` are untouched |
| `App.Step` | App.tsx:74-239 | the profile changes only by a successful synthesis and is never cleared; only navigation clicks and a synthesis result change the view; only edits and file reads change the buffer; a crashed application ignores every event, and only Full Portfolio on a dashboard whose profile cannot be grouped crashes it |
| `App.InitialInvariant` | App.tsx:14-18 | the initial state is the landing view with no profile, and it satisfies the invariant |
| `App.StepInvariant` | App.tsx:74-77 | every event keeps the invariant: dashboard and portfolio views have a profile, a pending synthesis happens only on landing or upload, and the portfolio view holds a profile it can render exactly when the application has not crashed |
| `App.RunInvariant` | App.tsx:235-240 | after any event sequence from an invariant state, a dashboard or portfolio view has a profile present |
| `App.ReachableInvariant` | App.tsx:14-15 | every state reachable from the initial state satisfies the invariant |
| `App.RunKeepsProfile` | App.tsx:25 | once a profile is held, no event sequence clears it |
| `App.BlankInputIgnored` | App.tsx:21 | clicking Generate with whitespace-only input changes nothing |
| `App.NavigationOnlyChangesView` | App.tsx:84-96 | logo, Launch Builder, Get Started, Full Portfolio and Back change only the view, except that Full Portfolio on a profile that cannot be grouped also crashes the application |
| `App.PortfolioOnlyBack` | App.tsx:74-77 | in a reachable portfolio state, the only event that changes the view is Back, and it leads to the dashboard |
| `App.PortfolioRoundTrip` | App.tsx:236-239 | when the portfolio renders, Full Portfolio followed by Back returns exactly the same dashboard state, profile included; when it cannot, the application has crashed on the portfolio view and Back does nothing |
| `App.CrashIsFinal` | components/Portfolio.tsx:21-25 | once rendering has thrown, no sequence of events changes the state |
| `App.ReachableCrash` | components/Portfolio.tsx:21-25 | among well-formed synthesis results, a reachable crashed state is on the portfolio view, holding a profile whose skills cannot be grouped |
| `App.RendersIffGrouped` | components/Portfolio.tsx:21-25 | the portfolio page renders exactly when grouping its skills succeeds |
| `Dashboard.PeakMomentum` | components/Dashboard.tsx:27 | for a non-empty trajectory, the peak is at least every momentum and equals one of them |
| `Dashboard.ComputeStats` | components/Dashboard.tsx:25-31 | current is the last momentum; delta is current minus the first momentum; peak bounds every momentum, including current and start, and is attained |
| `Dashboard.EmptyTrajectoryStats` | components/Dashboard.tsx:26-29 | an empty trajectory gives current = start = delta = 0 |
| `Dashboard.ValidStatsInRange` | components/Dashboard.tsx:25-31 | for a valid profile, current and peak lie in 0..100 and delta in -100..100 |
| `Dashboard.GrowthBadge` | components/Dashboard.tsx:155 | the badge is "+", then the delta as printed (a "-" exactly when negative, then digits without leading zeros, which read back as the delta), then "%"; a negative delta shows as "+-" |
| `Dashboard.GrowthFortyTwo` | components/Dashboard.tsx:155 | first momentum 40 and last momentum 82 give the badge "+42%" |
| `Dashboard.ColorByIndex` | components/Dashboard.tsx:33-41 | cards at positions 0, 4, 8, ... are emerald, 1, 5, ... purple, 2, 6, ... cyan and 3, 7, ... indigo |
| `Dashboard.ColorCycle` | components/Dashboard.tsx:33-41 | the card colour repeats every four positions, and neighbouring cards never share a colour |
| `Dashboard.IconByYear` | components/Dashboard.tsx:43-50 | TrendingUp iff the parsed year is above 2023; Rocket iff it is 2023; GraduationCap iff below 2022; Briefcase iff unparsable or 2022 |
| `Dashboard.IconOfPlainYear` | components/Dashboard.tsx:44-49 | for a label that is a printed year, the icon follows the year ranges |
| `Dashboard.IconOfYearRange` | components/Dashboard.tsx:44-49 | a printed year followed by text that does not go on with a digit, such as "2019 - 2021", gets the icon of that year, under the model's decimal `parseInt` (the year 0 followed by `x` and a hex digit reads as hexadecimal in JavaScript; see Left out) |
| `Dashboard.IconOfTextLabel` | components/Dashboard.tsx:44-45 | a label that is empty or starts with a character other than whitespace, a sign or a digit gets the briefcase |
| `Dashboard.IconOfPresent` | components/Dashboard.tsx:44-45 | the label "Present" gets the briefcase |
| `Dashboard.Timeline` | components/Dashboard.tsx:163-186 | one entry per trajectory point, in order; entry i has the colour of position i, the icon of its date label, and a star exactly when i < 2 |
| `Dashboard.TimelineStars` | components/Dashboard.tsx:186 | a timeline of n points shows exactly min(2, n) stars |
| `Dashboard.SelectSkill` | components/Dashboard.tsx:222 | a click on a category row (on its bar or beside it) selects that row's skill, a click outside the plot area keeps the selection, and either close control clears it |
| `Dashboard.SelectionIsASkill` | components/Dashboard.tsx:23 | the selection is always empty or one of the profile's skills |
| `Dashboard.ReselectIdempotent` | components/Dashboard.tsx:222 | clicking the same bar twice gives the same selection as clicking it once |
| `Network.FilterConnections` | components/NetworkGraph.tsx:19-24 | the result is an order-preserving subsequence of the connections; a connection that matches the query occurs as often as in the input, and one that does not match never occurs |
| `Network.EmptyQueryKeepsAll` | components/NetworkGraph.tsx:20-23 | the empty query keeps every connection, in order |
| `Network.CaseInsensitive` | components/NetworkGraph.tsx:21-22 | queries that differ only in letter case give the same result |
| `Network.NameMatchKept` | components/NetworkGraph.tsx:21 | a query occurring in a connection's lowercased name keeps that connection |
| `Network.BuildNodes` | components/NetworkGraph.tsx:32-43 | the owner's node comes first, then one node per filtered connection in order, each carrying its connection |
| `Network.BuildLinks` | components/NetworkGraph.tsx:45-50 | there is one link per filtered connection, from the user's name to the connection's name, weighted by strength |
| `Network.LinksJoinNodes` | components/NetworkGraph.tsx:32-50 | both ends of every link are node ids of the same graph |
| `Network.ClickNode` | components/NetworkGraph.tsx:156-160 | a click on a peer node that carries a connection selects that connection; the owner's node or a node without a connection leaves the selection as it was |
| `Network.ClickGraphNode` | components/NetworkGraph.tsx:156-160 | clicking the owner's node never changes the selection; clicking a connection's node selects that connection |
| `Network.EmptyStateAndReset` | components/NetworkGraph.tsx:334-346 | the overlay means the query is non-empty and matches nothing; the reset query "" hides the overlay and restores the full list |
| `Network.HoverEmphasis` | components/NetworkGraph.tsx:127-128 | the hovered node and the owner stay opaque; another peer stays opaque only if its name equals the user's |
| `Network.HoverLinks` | components/NetworkGraph.tsx:129 | a link is highlighted iff one of its ends is the hovered node: hovering the owner highlights every link; hovering a peer highlights its own link, and any other link only if its connection has the peer's name or the peer has the owner's name |
| `Portfolio.SkillsByCategory` | components/Portfolio.tsx:21-25 | the reduce fails exactly when some skill's category names an inherited `Object.prototype` property; otherwise it yields the category partition of the skills: non-empty groups, in order of first appearance |
| `Portfolio.GroupByCategoryPartition` | components/Portfolio.tsx:21-25 | the groups have distinct categories and every skill's category has a group; each group holds exactly its category's skills in original order and is never empty; the groups come in the order their categories first appear; the group sizes sum to the skill count |
| `Portfolio.PartitionStep` | components/Portfolio.tsx:22-24 | one step of the reduce keeps the partition property |
| `Portfolio.StepOrder` | components/Portfolio.tsx:22-24 | one push keeps the groups in first-appearance order: a new group's category first appears at the pushed skill, after every older group's |
| `Portfolio.PartitionSnoc` | components/Portfolio.tsx:21-25 | if the groups of all skills but the last are their partition, the groups after the last skill are the partition of all of them |
| `Portfolio.AddSkillEffect` | components/Portfolio.tsx:22-23 | one push adds the skill to its own category's group and to no other group, and grows the total by one |
| `Portfolio.WorkSampleBucket` | components/Portfolio.tsx:161 | bucket i is trajectory[2i .. min(2i+3, n)), or empty past the end, so it holds at most 3 points |
| `Portfolio.WorkSamples` | components/Portfolio.tsx:30 | there are exactly three buckets, one per fixed heading |
| `Portfolio.BucketsOverlap` | components/Portfolio.tsx:161 | a full bucket's last point is the first point of the next bucket |
| `Portfolio.BucketsCover` | components/Portfolio.tsx:154-161 | points up to index 6 appear in some bucket; the point at position j of bucket i is trajectory[2i + j], with 2i + j <= 6, so later points never appear |
| `Portfolio.ImpactBullets` | components/Portfolio.tsx:132-135 | every bullet is non-empty, has no '.', and has no surrounding whitespace; there are no more bullets than pieces |
| `Portfolio.NotBlankTrims` | components/Portfolio.tsx:132 | a piece passes the filter exactly when its trimmed text is non-empty, i.e. truthy |
| `Portfolio.ImpactBulletsOfPieces` | components/Portfolio.tsx:132-135 | pieces without '.' joined by '.' give the non-blank pieces, trimmed and in order: a blank piece between two stops yields no bullet |
| `Portfolio.ImpactBulletsOfClauses` | components/Portfolio.tsx:132-135 | non-blank pieces without '.' joined by '.' come back as the bullets, each trimmed |
| `Portfolio.ImpactBulletsOfClausesClosingStop` | components/Portfolio.tsx:132-135 | the same holds when the text ends with a closing '.': the empty tail is dropped |
| `Portfolio.ImpactBulletsOfProse` | components/Portfolio.tsx:132-135 | "Led team. Shipped it." gives the bullets "Led team" and "Shipped it": the space after the first stop is trimmed and the empty tail dropped |
| `Portfolio.ImpactBulletsRoundTrip` | components/Portfolio.tsx:132-135 | already-trimmed sentences joined by '.', with or without a closing '.', come back unchanged |
| `Portfolio.SplitName` | components/Portfolio.tsx:61-62 | first has no space; with a space, first + " " + rest is the name; without one, first is the name and rest is "" |
| `Portfolio.ExperienceTags` | components/Portfolio.tsx:121 | the tags are the first min(4, n) skills |
| `Portfolio.ProjectTags` | components/Portfolio.tsx:173 | the tags are skills[pIdx .. min(pIdx+5, n)), so at most 5, or none past the end |
| `Text.Includes` | components/NetworkGraph.tsx:21-22 | `includes` holds iff the query occurs at some offset |
| `Text.ToLower` | components/NetworkGraph.tsx:21-22 | the result has the input's length, and each character is the ASCII lowercase of the input's character at the same position |
| `Text.Trim` | App.tsx:21 | trim is empty iff the input is all whitespace; otherwise it neither starts nor ends with whitespace; it is the input with only surrounding whitespace removed |
| `Text.Split` | components/Portfolio.tsx:132 | there is at least one piece, no piece holds the separator, and joining the pieces with it restores the input |
| `Text.SplitJoin` | components/Portfolio.tsx:62 | splitting undoes joining when no piece holds the separator |
| `Text.JoinShape` | App.tsx:42 | a join starts with the first piece, ends with the last, and its length is the pieces' lengths plus one separator per gap |
| `Text.ParseInt` | components/Dashboard.tsx:44 | `parseInt` is NaN exactly when no digit follows the leading whitespace and optional sign |
| `Text.ParseIntToDecimal` | components/Dashboard.tsx:44 | `parseInt` reads the printed form of any integer back as that integer |
| `Text.ParseIntPrefix` | components/Dashboard.tsx:44 | the model's decimal `parseInt` reads a printed integer followed by text that does not start with a digit as that integer; the `0x` prefix is outside it (see Left out), so 0 followed by `x` and a hex digit is the exception in JavaScript |
| `Seqs.Filter` | components/NetworkGraph.tsx:20 | the result is a subsequence of the input; an element that passes occurs as often as in the input, and one that fails never occurs |
| `Seqs.Slice` | components/Portfolio.tsx:121 | the length is the clamped range, and element k is s[start + k] |

## Left out

- The synthesis client (`services/geminiService.ts`) is not part of this model. It is one call to an external generative API, then `JSON.parse(response.text || "{}")` with an unchecked cast to the profile type. Synthesis is an opaque event payload: `Synthesized(profile)` or `SynthesisFailed`. `Synthesized(profile)` assumes a complete, well-typed profile. The `"{}"` fallback and the unchecked cast can install an empty or partial object. The dashboard then throws while rendering (reading `trajectory.length` of `undefined`, Dashboard.tsx:26), and React unmounts the application on the dashboard view. That crash is not modelled, so `App.ReachableCrash` holds only among well-formed synthesis results.
- Loading the PDF document and its pages is left out, because that is the external PDF library's work. Only the page-join rule over the returned item strings is modelled.
- The plain-text branch of the upload is simplified. Its `FileReader` callback delivers the text after `isParsing` has already been cleared. The model delivers the text together with the flag reset, because event-loop timing is out of scope.
- Overlapping uploads are not modelled: `parsing` is a single flag, so at most one read is in flight.
- Closing the file picker without choosing a file produces no event.
- Failure notices are not modelled. Both failure paths write to `console.error` and show a blocking `alert` (App.tsx:28-29, 67-68). In the model a failure only leaves the state as described; logging and dialogs are outside it.
- The D3 force simulation, drag handlers, tick positions, tooltip HTML and all SVG styling are left out. They are floating-point physics and markup inside an external library.
- Recharts, framer-motion, Tailwind classes, icon components, marketing copy and contact details are left out. They are presentation only. Colours and icons are enums standing for the rendered classes and components.
- Closing the connection detail overlay (`setSelectedConnection(null)`) is not modelled separately.
- Local UI state that resets when a view unmounts is not modelled: the selected skill, the selected connection and the search query.
- JavaScript numbers are modelled as `int`. `Math.max` of an empty array (`-Infinity`) and the `|| 0` fallback for `NaN` are not modelled.
- Dashboard.PeakMomentum: requires a non-empty trajectory, because the source's empty case yields `-Infinity`.
- Dashboard.ComputeStats: requires a non-empty trajectory for the same reason. The empty case of current, start and delta is stated separately.
- Text.ToLower: only ASCII letters are lowered; Unicode case mapping is not modelled.
- Text.Trim: only ASCII whitespace is removed, not the Unicode space characters that `trim` also strips.
- Text.ParseInt: does not model the `0x` hexadecimal prefix that `parseInt` accepts without a radix, nor non-ASCII leading whitespace.
- Portfolio.GroupByCategoryPartition: holds of the reduce only when no category names an inherited `Object.prototype` property; `Portfolio.SkillsByCategory` models that failure as `None`. The proved group order is first appearance, which is the order `Object.entries` lists string keys. It would list integer-like category names first, in numeric order; that ordering is not modelled.
