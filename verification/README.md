# The Strivers' Network blog: a Dafny model of its core logic

This project models the decision logic of The Strivers' Network website and
blog, a Next.js site built on the Payload CMS, and proves properties of it in
Dafny. It covers:

- **Admin analytics.** `src/lib/ganalytics.ts` turns Google Analytics 4 reports into
  dashboard data. `src/lib/analytics-types.ts` holds the number, duration,
  percentage and change formatters. The dashboard components are the card
  (`AnalyticsCard`), the table (`AnalyticsTable`) and the loading/error/data
  screen (`AnalyticsView`).
- **Posts.** The reading-time field hook works over Lexical rich-text JSON. The
  `populateAuthors` after-read hook runs with the user lookup as a parameter.
- **Comments.** The comment and reply forms: their "is there any text"
  checks, their submit transitions and the JSON they post. The nesting and
  visibility of `CommentItem`. The `revalidateComment` and
  `revalidateCommentDelete` hooks, with the post lookup as a parameter.
- **Access rules.** `admin`, `user`, `authorCreate`, `authorUpdate`, the `author`
  default export, `authenticatedOrApproved`, and the `jobs.access.run`
  predicate of `payload.config.ts`.
- **Search page.** The filter bar's defaults and `updateParams`, and the search
  box's two effects. The query list follows the `URLSearchParams` class of the
  WHATWG URL Standard:
  - `get`, `set`, `delete`: section 6.2;
  - the `application/x-www-form-urlencoded` serializer and parser: section 5;
  - UTF-8 underneath (RFC 3629).

  With these, the search box's "do not navigate twice" behaviour is proved
  and not assumed.
- **`mergeOpenGraph`.**

## How things are represented

- **JSON.** `Json` is a datatype covering JSON values, with object property
  lookup and JavaScript truthiness. An absent property reads as `None`
  (`undefined`).
- **Numbers** are `real`:
  - `Math.round(x)` is `floor(x + 1/2)`;
  - `Math.floor` is `Floor`;
  - `parseInt` of a metric becomes truncation toward zero.
- **Runtime behaviour passed in as parameters.** A few things depend on the
  JavaScript runtime or on the CMS, so they are parameters and not modelled:
  - the tie direction of `toFixed(1)` (`halfUp`);
  - `Number.prototype.toString` of a non-integer (`fraction`);
  - `checkRole` (`hasRole`);
  - `payload.findByID` (a function returning `Option`);
  - the Analytics report runner;
  - `getServerSideURL()`.
- **React state.** Component state is a datatype, and user actions and
  network outcomes are events. Each handler becomes a pure transition
  function.
- **Expressions that can throw.** The comment checks may throw on some JSON.
  Their result is `Eval = Throws | Val(bool)`, and `.some()` is `SomeOf`,
  which stops at the first `true` or throw.

Properties proved include:

- the round trips:
  - UTF-8 decode of encode;
  - `Parse(Serialize(ps)) == ps`;
  - date reshaping;
  - the formatted duration, percentage and change read back as numbers;
- that the `set`/`delete` updates are idempotent and leave other keys alone;
- that the search effect reaches a fixpoint after one navigation;
- the exact meaning of both comment checks on editor-shaped JSON (some
  reachable node has non-blank text), and that the comment check is
  strictly stronger than the reply check;
- that the reading time counts exactly the words of the text leaves;
- that `populateAuthors` keeps exactly the resolving entries, in order;
- the access rules' where-queries, and which documents they permit;
- that the comment form never shows success and an error together, and that
  its `resetKey` counts the successful posts;
- that the analytics dashboard's error message, once shown, stays, unless
  a thrown `Error` with an empty message replaces it by a falsy one.

## Model

| member | source | states |
|---|---|---|
| AnalyticsFormat.Tenths | src/lib/analytics-types.ts:51-54 | the tenths count that `toFixed(1)` prints is within half a tenth of the value, with exact ties broken by the runtime's tie rule |
| AnalyticsFormat.TenthsTextRoundTrip | src/lib/analytics-types.ts:51-54 | the one-decimal rendering reads back as the same count of tenths |
| AnalyticsFormat.ToFixed1 | src/lib/analytics-types.ts:51-54 | the one-decimal text reads back as exactly the count of tenths `Tenths` chooses (nearest to ten times the value, ties by the runtime's rule), hence within half a tenth |
| AnalyticsFormat.ParseTenthsCharacterised | src/lib/analytics-types.ts:51-54 | a text reads back as k tenths exactly when it is the `toFixed(1)` rendering of k: no leading zeros, one decimal |
| AnalyticsFormat.FormatNumber | src/lib/analytics-types.ts:49-57 | the suffix is "M" exactly from one million, "K" exactly from 1000 below a million; smaller integers print as plain decimals; the scaled digits are within a rounding step of num/10^6 or num/10^3 |
| AnalyticsFormat.SmallCountsExact | src/lib/analytics-types.ts:56 | an integer below 1000 is printed so that it reads back as itself, whatever the tie rule |
| AnalyticsFormat.Mod60 | src/lib/analytics-types.ts:64 | `seconds % 60` for a non-negative value lies in [0, 60) and recombines with the whole minutes to the input |
| AnalyticsFormat.DurationPartsMeaning | src/lib/analytics-types.ts:63-65 | from 60 seconds on there is at least one minute and the rounded seconds lie in 0..60; for integral inputs minutes*60 + seconds is the input and the seconds stay below 60 |
| AnalyticsFormat.DurationParts | src/lib/analytics-types.ts:63-65 | from 60 seconds on there is at least one minute and the rounded leftover lies in 0..60 |
| AnalyticsFormat.FormatDuration | src/lib/analytics-types.ts:59-66 | the text shows minutes exactly from 60 seconds on; under a minute it reads back as the rounded seconds alone, from a minute on as the whole minutes and the rounded leftover seconds as separate fields, the seconds field omitted when the leftover rounds to 0 |
| AnalyticsFormat.MinutesText | src/lib/analytics-types.ts:63-65 | the text always has an "m"; it reads back as minutes M and seconds N when N > 0, and as minutes M alone when N is 0 |
| AnalyticsFormat.ParseDurationCharacterised | src/lib/analytics-types.ts:59-66 | a text reads back as given fields exactly when it is their rendering "Ns", "Mm" or "Mm Ns" with `String(n)` numbers, so the read-back pins the text |
| AnalyticsFormat.DurationShowsSixtySeconds | src/lib/analytics-types.ts:63-65 | 119.6 seconds is shown as "1m 60s" |
| AnalyticsFormat.DurationRoundTrip | src/lib/analytics-types.ts:59-66 | the fields read back from the duration text add up to a whole number of seconds within half a second of the input, and exactly the input when it is integral |
| AnalyticsFormat.FormatPercentage | src/lib/analytics-types.ts:68-70 | the text ends in "%" and what precedes it reads back as `Math.round(value)`; since reading back accepts only `String(n)` renderings, the text is pinned (no "-0", no leading zeros) |
| JsText.ParseIntCharacterised | src/lib/analytics-types.ts:68-70 | a text reads back as the integer k exactly when it is `String(k)`: an optional "-", no leading zeros, never "-0" |
| AnalyticsFormat.FormatChange | src/lib/analytics-types.ts:72-80 | null and 0 give "0%" and not positive; otherwise positive exactly for a rise; a "+" leads exactly when positive; the text reads back as the rounded change |
| AnalyticsFormat.SignedPercentRoundTrip | src/lib/analytics-types.ts:78 | an optionally "+"-prefixed integer followed by "%" reads back as that integer |
| AnalyticsFormat.ParseSignedPercentText | src/lib/analytics-types.ts:78 | conversely, a text that reads back as k is `String(k)` followed by "%", with or without a leading "+" |
| AnalyticsFormat.ChangeRoundingExamples | src/lib/analytics-types.ts:77-79 | 0.25 renders "+0%" and -2.5 renders "-2%" |
| GAnalytics.GetDateRange | src/lib/ganalytics.ts:38-60 | every current range ends "today" and starts 0, 7, 30 or 365 days back for day, 7d, 30d and 12mo, any other period counting as 7d |
| GAnalytics.GetPreviousDateRange | src/lib/ganalytics.ts:63-76 | no comparison range touches today; it runs from 1 to 1, 14 to 8, 60 to 31 or 730 to 366 days back for day, 7d (and any other period), 30d and 12mo |
| GAnalytics.UnknownPeriodIsSevenDays | src/lib/ganalytics.ts:55-57 | any period other than day, 7d, 30d and 12mo gets the 7d ranges, both current and previous |
| GAnalytics.DaysAgoOffset | src/lib/ganalytics.ts:47-72 | an "NdaysAgo" token stands for N days back |
| GAnalytics.TokenOffsets | src/lib/ganalytics.ts:38-76 | the day offsets of every token the two range functions use |
| GAnalytics.PreviousRangeAdjoinsCurrent | src/lib/ganalytics.ts:38-76 | for every period the previous range ends the day before the current one starts: no overlap and no gap |
| GAnalytics.PreviousRangeLength | src/lib/ganalytics.ts:38-76 | the comparison range is one day shorter than the current one for 7d, 30d and 12mo, and both are one day for "day" |
| GAnalytics.CalculateChange | src/lib/ganalytics.ts:193-196 | from a zero baseline the change is 100 for growth and null otherwise; from a non-zero baseline it is the percentage that, applied to the baseline, gives the current value, so equal values give 0 and with a positive baseline its sign is the sign of the difference |
| GAnalytics.DimensionOr | src/lib/ganalytics.ts:219 | a present, non-empty dimension value is returned as is; the fallback is used exactly when the dimension is missing, empty or the fallback itself |
| GAnalytics.Metric | src/lib/ganalytics.ts:182-190 | a missing metric reads as 0, a present one as its value |
| GAnalytics.TruncToInt | src/lib/ganalytics.ts:182 | `parseInt` of a decimal rendering truncates toward zero |
| GAnalytics.IntMetric | src/lib/ganalytics.ts:182-183 | a metric read with `parseInt`: 0 when missing, otherwise the value truncated toward zero |
| GAnalytics.ReadTotals | src/lib/ganalytics.ts:179-190 | visitors and page views are metrics 0 and 1 read with `parseInt`, the bounce rate is metric 2 scaled by 100, the duration is metric 3 kept as is, and a row without metrics gives all zeros |
| GAnalytics.Stats | src/lib/ganalytics.ts:192-215 | each of the four cards shows its current value; its change is 100 for growth from a zero baseline, null from zero to zero, and otherwise the percentage that, applied to the previous value, gives the current one |
| GAnalytics.ChangeUnique | src/lib/ganalytics.ts:193-196 | the percentage that maps a non-zero previous value to the current one is unique, and is `((current - previous) / previous) * 100` |
| GAnalytics.ComparesUnique | src/lib/ganalytics.ts:193-215 | a card that compares the two values is exactly the current value with `calculateChange` of the two |
| GAnalytics.StatsUnique | src/lib/ganalytics.ts:198-215 | the stats comparing the two periods are uniquely determined, so they are exactly what the shaping builds |
| GAnalytics.RemoveHyphensAppend | src/lib/ganalytics.ts:221 | removing hyphens distributes over concatenation |
| GAnalytics.ReshapeDate | src/lib/ganalytics.ts:218-221 | an eight-character YYYYMMDD becomes YYYY-MM-DD; a missing date becomes "--"; the length is the kept prefix plus two |
| GAnalytics.ReshapeDateRoundTrip | src/lib/ganalytics.ts:218-221 | removing the hyphens again gives back the first eight characters of the date |
| GAnalytics.ShapeTimePoint | src/lib/ganalytics.ts:218-226 | an eight-character date becomes YYYY-MM-DD and gives back the date when the hyphens are removed; a missing or empty date becomes "--"; visitors is metric 0 truncated toward zero, or 0 when missing |
| GAnalytics.ShapePage | src/lib/ganalytics.ts:229-235 | a page row has its path ("" if missing), visitors and page views read with `parseInt`, bounce rate times 100, the raw duration, and zeros without metrics |
| GAnalytics.ShapeSource | src/lib/ganalytics.ts:238-243 | a source row falls back to "(direct)" for a missing or empty source, reads visitors with `parseInt`, uses metrics 1 and 2 for bounce rate and duration, and zeros without metrics |
| GAnalytics.TotalUsers | src/lib/ganalytics.ts:246 | the conversion denominator is never zero and equals the visitors when there are any |
| GAnalytics.ShapeEvent | src/lib/ganalytics.ts:247-252 | conversion rate times total users is 100 times the event's visitors |
| GAnalytics.RealtimeVisitors | src/lib/ganalytics.ts:255-257 | a failed or empty realtime report counts 0 visitors; otherwise the count is metric 0 of the first row read with `parseInt` |
| GAnalytics.Shape | src/lib/ganalytics.ts:178-266 | every timeseries, page, source and event row is shaped in order, one entry per report row, the events use the current visitors as denominator, the stats compare the first rows of the two periods, and the realtime count comes from the realtime report |
| GAnalytics.GetGAData | src/lib/ganalytics.ts:79-271 | without all three credentials nothing is requested and the result is null; otherwise the period's current and previous ranges are requested and the result is the shaped reports, or null when they fail |
| AnalyticsCard.PositiveIsGood | src/components/AnalyticsCard/index.tsx:13 | the flag defaults to true |
| AnalyticsCard.NormaliseChange | src/components/AnalyticsCard/index.tsx:15 | `change || null`: a missing, null or zero change becomes null, any other is kept |
| AnalyticsCard.Card | src/components/AnalyticsCard/index.tsx:12-37 | the title is kept; the value is formatted when a formatter is given and shown raw otherwise; the change line appears exactly when `change` is not undefined, with the change text and a colour that flips when lower is better |
| AnalyticsCard.GreenMeansGoodDirection | src/components/AnalyticsCard/index.tsx:15-26 | a non-zero change is green exactly when it moves in the good direction |
| AnalyticsCard.ZeroChangeLooksLikeNull | src/components/AnalyticsCard/index.tsx:15 | a zero change renders exactly like a null one: "0% from previous period" |
| AnalyticsCard.NoChangeIsGreenWhenLowerIsBetter | src/components/AnalyticsCard/index.tsx:15-26 | with positiveIsGood false, no change at all is painted green |
| AnalyticsTable.CellString | src/components/AnalyticsTable/index.tsx:41 | `String(value ?? '')`: null and undefined give "", text is kept, and an integer reads back as itself |
| AnalyticsTable.Cell | src/components/AnalyticsTable/index.tsx:38-41 | a column's formatter, if any, gets the cell value; otherwise the value is stringified, and a missing key gives "" |
| AnalyticsTable.RowClassNumbers | src/components/AnalyticsTable/index.tsx:36 | row classes are "row-" followed by the one-based row number |
| AnalyticsTable.Grid | src/components/AnalyticsTable/index.tsx:16-53 | the header lists the column labels in order, and there is one body row per record with one cell per column, each the cell of that column and record |
| AnalyticsView.Step | src/components/AnalyticsView/index.client.tsx:68-87 | choosing a period only changes the period; a finished fetch always clears loading; a non-ok response sets "Failed to fetch analytics data"; a thrown error sets its message or "An error occurred"; received data replaces the data and leaves the error |
| AnalyticsView.RequestPath | src/components/AnalyticsView/index.client.tsx:74 | the period follows the fixed request prefix unencoded |
| AnalyticsView.RequestPathInjective | src/components/AnalyticsView/index.client.tsx:74 | different periods request different paths |
| AnalyticsView.CaptionSuffix | src/components/AnalyticsView/index.client.tsx:157 | the realtime caption ends in " visitors online now" exactly when plural |
| AnalyticsView.RealtimeIndicator | src/components/AnalyticsView/index.client.tsx:147-158 | the dot is green and pulses exactly when someone is online; the caption is the visitor count as `String(n)` prints it, followed by " visitor online now" for exactly one visitor and " visitors online now" otherwise |
| AnalyticsView.StatCard | src/components/AnalyticsView/index.client.tsx:160-192 | a headline card shows the value through its formatter and the change against the previous period, green exactly when the change goes the good way |
| AnalyticsView.Cards | src/components/AnalyticsView/index.client.tsx:160-192 | the four cards are visitors, page views, bounce rate and average visit duration, each showing its stat's value through its formatter and its change against the previous period, and only for the bounce rate is a fall shown green |
| AnalyticsView.ChartFor | src/components/AnalyticsView/index.client.tsx:197-254 | the chart is drawn exactly when there are timeseries points, and otherwise the "No data available for this period" message shows |
| AnalyticsView.MapRecords | src/components/AnalyticsView/index.client.tsx:267 | one table record per data row, in order |
| AnalyticsView.PagesTable | src/components/AnalyticsView/index.client.tsx:259-268 | "Top Pages" with headers Page, Visitors, Pageviews, Bounce Rate; row k shows page k's path, its visitors and page views through formatNumber and its bounce rate as a percentage |
| AnalyticsView.SourcesTable | src/components/AnalyticsView/index.client.tsx:269-278 | "Top Sources" with headers Source, Visitors, Bounce Rate, Visit Duration; row k shows source k's name, its visitors through formatNumber, its bounce rate as a percentage and its visit duration through formatDuration |
| AnalyticsView.EventsTable | src/components/AnalyticsView/index.client.tsx:279-290 | the goals table is present exactly when there are events; then it has headers Event, Unique Visitors, Total Events, Conversion Rate and row k shows event k's goal, its two counts through formatNumber and its conversion rate as a percentage |
| AnalyticsView.DashboardFor | src/components/AnalyticsView/index.client.tsx:110-291 | the dashboard shows the selected period, the realtime indicator of the realtime count, the four stat cards of the data's stats, the chart of its timeseries (present exactly when non-empty), the pages and sources tables of its rows, and the goals table exactly for non-empty events |
| AnalyticsView.View | src/components/AnalyticsView/index.client.tsx:89-119 | loading shows the loading screen; otherwise an error or missing data shows the error screen; the dashboard shows exactly when not loading, without error, with data, and it is the dashboard of the selected period's data |
| AnalyticsView.InitialScreen | src/components/AnalyticsView/index.client.tsx:65-74 | the dashboard starts loading and requests the 7d period |
| AnalyticsView.ErrorPersists | src/components/AnalyticsView/index.client.tsx:70-108 | once an error is shown, no sequence of events without a thrown `Error` whose message is empty shows the dashboard again, because no handler clears the error |
| AnalyticsView.EmptyMessageHidesError | src/components/AnalyticsView/index.client.tsx:82-97 | a thrown `Error` with an empty message sets a falsy error, and a later successful fetch then shows the dashboard |
| AnalyticsView.SuccessShowsDashboard | src/components/AnalyticsView/index.client.tsx:78-108 | data received without an earlier error shows the dashboard |
| ReadingTime.KindOf | src/collections/Posts/hooks/populateReadingTime.ts:6-27 | the branch a node takes, in the order the code tests: a text leaf, an array of children, an object root, nothing; non-objects take none |
| ReadingTime.ExtractText | src/collections/Posts/hooks/populateReadingTime.ts:6-14 | a non-object yields "" and a text node yields its own text |
| ReadingTime.Words | src/collections/Posts/hooks/populateReadingTime.ts:36 | every word is a non-empty run of characters none of which is whitespace |
| ReadingTime.WordsSeparated | src/collections/Posts/hooks/populateReadingTime.ts:36 | the words, with whitespace runs before, between (non-empty) and after them, make up the text exactly: no non-whitespace character is dropped and no word can be extended |
| ReadingTime.WordsUnique | src/collections/Posts/hooks/populateReadingTime.ts:36 | any sequence of words that makes up the text that way is the word list |
| ReadingTime.WordsCharacterised | src/collections/Posts/hooks/populateReadingTime.ts:36 | a sequence is the word list of a text exactly when it separates the text into words and whitespace |
| ReadingTime.WordsOfJoin | src/collections/Posts/hooks/populateReadingTime.ts:18 | the words of two texts joined by a space are the words of the first followed by those of the second |
| ReadingTime.ExtractedWords | src/collections/Posts/hooks/populateReadingTime.ts:6-36 | the words of the extracted text are exactly the words of the text leaves, in document order |
| ReadingTime.MinutesFor | src/collections/Posts/hooks/populateReadingTime.ts:34-39 | at least one minute; exactly one for up to 200 words; otherwise the least m with words at most 200m |
| ReadingTime.MinutesMonotone | src/collections/Posts/hooks/populateReadingTime.ts:37-38 | more words never mean fewer minutes |
| ReadingTime.MinutesExamples | src/collections/Posts/hooks/populateReadingTime.ts:35-38 | 0 and 200 words take 1 minute, 201 words take 2 |
| ReadingTime.CalculateReadingTime | src/collections/Posts/hooks/populateReadingTime.ts:34-39 | one minute exactly when the text has at most 200 words, never less; above that, the least number of minutes whose 200 words each cover the word count |
| ReadingTime.PopulateReadingTime | src/collections/Posts/hooks/populateReadingTime.ts:45-50 | missing or falsy content gives 1; otherwise the minutes for the number of words in the content's text leaves |
| ContentChecks.SomeOf | src/components/Comments/ReplyForm.tsx:55 | `.some()` with a callback that may throw is false exactly when every call is false |
| ContentChecks.SomeOfFirstDecides | src/components/Comments/ReplyForm.tsx:55 | the first call that is not false decides `.some()` |
| ContentChecks.SomeOfWithoutThrows | src/components/Comments/ReplyForm.tsx:55 | without throws, `.some()` is true exactly when some call is true |
| ContentChecks.ReplyCheckTotal | src/components/Comments/ReplyForm.tsx:50-58 | on editor-shaped JSON the reply check never throws |
| ContentChecks.ReplyTrueHasWitness | src/components/Comments/ReplyForm.tsx:50-58 | when the reply check is true, some node reachable through `children` has non-blank text |
| ContentChecks.WitnessMakesReplyTrue | src/components/Comments/ReplyForm.tsx:50-58 | any reachable node with non-blank text makes the reply check true |
| ContentChecks.ReplyCheckMeaning | src/components/Comments/ReplyForm.tsx:50-58 | on editor-shaped JSON the reply check is true exactly when some reachable node has non-blank text |
| ContentChecks.ReplyCheckOfDoc | src/components/Comments/ReplyForm.tsx:60 | on an editor-shaped document the reply form's `hasContent` never throws and is true exactly when some top-level child passes |
| ContentChecks.ReplyHasContent | src/components/Comments/ReplyForm.tsx:60 | a document without a `root.children` array throws; otherwise the check is false exactly when every top-level child's check is false |
| ContentChecks.CommentTextNodeMeaning | src/components/Comments/CommentForm.tsx:42 | on a shaped node the text test is exactly "has non-blank text" |
| ContentChecks.CommentCheckMeaning | src/components/Comments/CommentForm.tsx:39-46 | on an editor-shaped document the comment check never throws and is true exactly when some top-level paragraph has a direct child with non-blank text |
| ContentChecks.CommentHasContent | src/components/Comments/CommentForm.tsx:39-46 | a document without a `root.children` array throws; otherwise the check is false exactly when every top-level child's check is false |
| ContentChecks.CommentCheckImpliesReplyCheck | src/components/Comments/CommentForm.tsx:39-46 | on editor-shaped documents, whatever the comment form accepts, the reply form accepts too |
| ContentChecks.HeadingOnlyComment | src/components/Comments/CommentForm.tsx:40 | text only under a heading is refused by the comment form and accepted by the reply form |
| ContentChecks.NullChildSplitsTheChecks | src/components/Comments/ReplyForm.tsx:51 | a document with a null child after a non-blank paragraph passes the comment check, while the reply check throws on it |
| CommentPost.FailureText | src/components/Comments/CommentForm.tsx:70-83 | a rejected post shows the server's first error message or the fallback; a thrown error shows its message, or the last-resort text |
| CommentPost.RejectionIsNeverSilent | src/components/Comments/CommentForm.tsx:70-73 | a rejection always shows a non-empty message |
| CommentForm.Submit | src/components/Comments/CommentForm.tsx:23-88 | no editor or no content: "Please write a comment" and nothing is posted; a throwing check leaves the form submitting; otherwise the comment is posted and on success name, email and editor reset, the editor remounts and success shows, while on failure the error shows and fields are kept; submitting always ends |
| CommentForm.CommentBodyFields | src/components/Comments/CommentForm.tsx:60-67 | the posted JSON carries the post id as a string, the editor JSON, no parent, and the author's name and email |
| CommentForm.Step | src/components/Comments/CommentForm.tsx:11-88 | typing into the name or email field, or changing the editor, sets exactly that field and nothing else; submitting is `Submit` |
| CommentForm.StepKeepsConsistent | src/components/Comments/CommentForm.tsx:26-82 | the success banner and an error message are never shown together, one step at a time |
| CommentForm.RunKeepsConsistent | src/components/Comments/CommentForm.tsx:26-82 | the same over any sequence of events |
| CommentForm.ResetKeyCountsSuccesses | src/components/Comments/CommentForm.tsx:78 | `resetKey` grows by exactly the number of successful posts |
| ReplyForm.Submit | src/components/Comments/ReplyForm.tsx:35-97 | the same transitions for a reply: "Please write a reply" without content, `onSuccess` called exactly after an accepted post, the error shown otherwise |
| ReplyForm.ReplyBodyFields | src/components/Comments/ReplyForm.tsx:74-82 | the posted JSON carries the post and parent ids as numbers, the editor JSON and the author |
| ReplyForm.ReplyPostsWhatCommentPosts | src/components/Comments/ReplyForm.tsx:60-83 | on editor-shaped documents, content the comment form accepts is posted by the reply form as well |
| CommentItem.ParentName | src/components/Comments/CommentItem.tsx:75 | the parent's name, or "Anonymous" when it is missing or empty |
| CommentItem.Caption | src/components/Comments/CommentItem.tsx:94 | "1 reply" exactly for one reply, otherwise the count and "replies" |
| CommentItem.Render | src/components/Comments/CommentItem.tsx:39-111 | the reply button is offered exactly on top-level comments, the form only when opened there and addressed to the comment's author, and the replies block exactly when there are replies, listing all of them while expanded |
| CommentItem.OneLevelOfNesting | src/components/Comments/CommentItem.tsx:96-107 | replies are rendered as replies, without reply button or form, and with no replies of their own |
| CommentItem.Step | src/components/Comments/CommentItem.tsx:59-90 | the reply button toggles the form and leaves the replies; the replies toggle flips only the replies; cancel and a posted reply close the form |
| CommentItem.TogglesAreInvolutions | src/components/Comments/CommentItem.tsx:59-90 | pressing a toggle twice restores the state |
| CommentItem.RepliesNeverOfferAReply | src/components/Comments/CommentItem.tsx:55-70 | whatever happens, a reply never shows a reply button or form |
| CommentItem.InitialView | src/components/Comments/CommentItem.tsx:25-26 | at first the reply form is closed and the replies are expanded |
| Access.Admin | src/access/admin.ts:4-11 | nobody logged in is denied; a user is allowed exactly with the admin role; never a query |
| Access.UserRule | src/access/user.ts:4-12 | nobody logged in is denied; admins and authors see all users; others only the record with their own id |
| Access.AuthorCreate | src/access/author.ts:7-15 | allowed exactly for a logged-in admin or author; never a query |
| Access.AuthorUpdate | src/access/author.ts:21-39 | admins may update any post; a non-admin author only posts whose authors contain their id; others are denied |
| Access.Author | src/access/author.ts:42 | the default export is the create rule |
| Access.AuthenticatedOrApproved | src/access/authenticatedOrApproved.ts:3-12 | logged-in users see everything; visitors get the approved-only query |
| Access.UserSeesOwnRecord | src/access/user.ts:9 | without a role a user may read exactly their own user record |
| Access.AuthorUpdatesOwnPosts | src/access/author.ts:30-35 | a non-admin author may update exactly the posts listing them |
| Access.ApprovedForVisitors | src/access/authenticatedOrApproved.ts:3-12 | a document is visible exactly to logged-in users or when approved |
| Access.RulesAgree | src/access/author.ts:7-39 | whoever passes `admin` may update every post; `user` grants all exactly to those `authorCreate` admits; nobody logged out may update |
| Access.UpdateNeedsCreate | src/access/author.ts:7-39 | when `checkRole` means "has one of the roles", anyone who may update some post may create posts, and the creators are exactly the admins and authors |
| JobsAccess.ExpectedHeader | src/payload.config.ts:110 | the expected header is "Bearer " and the secret, or "Bearer undefined" when it is unset |
| JobsAccess.Run | src/payload.config.ts:102-111 | logged-in users may run jobs; otherwise exactly the requests carrying the expected header |
| JobsAccess.UnsetSecretAcceptsLiteral | src/payload.config.ts:110 | with the secret unset, the literal "Bearer undefined" runs jobs without login |
| JobsAccess.HeaderDeterminesSecret | src/payload.config.ts:110 | with a secret set, only that secret is accepted |
| Utf8.EncodeChar | src/search/SearchFilters.tsx:42 | a character takes 1 to 4 bytes, one exactly for ASCII, and multi-byte sequences are a lead byte and continuation bytes |
| Utf8.DecodeFirstOfEncode | src/search/SearchFilters.tsx:36 | decoding the start of an encoded character gives that character and its length |
| Utf8.DecodeEncode | src/search/SearchFilters.tsx:36-42 | decoding an encoding gives back the string |
| Utf8.EncodeInjective | src/search/SearchFilters.tsx:36-42 | different strings have different encodings |
| Utf8.EncodeAscii | src/search/SearchFilters.tsx:42 | an ASCII string encodes as its character codes |
| FormUrlEncoded.FirstIndex | src/search/SearchFilters.tsx:36 | the position of the first occurrence, or none exactly when absent |
| FormUrlEncoded.HexRoundTrip | src/search/SearchFilters.tsx:36-42 | a hexadecimal digit reads back as its value |
| FormUrlEncoded.EncodeByte | src/search/SearchFilters.tsx:42 | each byte becomes 1 to 3 ASCII bytes, never "&", "=" or "?" |
| FormUrlEncoded.Serialize | src/search/SearchFilters.tsx:42 | `toString()` is ASCII, contains no "?", and is empty exactly for the empty list |
| FormUrlEncoded.PlusToSpace | src/search/SearchFilters.tsx:36 | "+" bytes become spaces and every other byte is kept |
| FormUrlEncoded.PercentDecodeEncode | src/search/SearchFilters.tsx:36-42 | percent-decoding the encoding of bytes gives them back |
| FormUrlEncoded.DecodeComponentOfSerialized | src/search/SearchFilters.tsx:36-42 | a serialized name or value decodes to itself |
| FormUrlEncoded.ParsePairOfSerialized | src/search/SearchFilters.tsx:36-42 | a serialized pair parses to itself |
| FormUrlEncoded.ParseBytesOfSerialized | src/search/SearchFilters.tsx:36-42 | the serialized bytes of a list parse back to the list |
| FormUrlEncoded.ParseSerialize | src/search/SearchFilters.tsx:36 | `new URLSearchParams(params.toString())` is the same list, with or without a leading "?" |
| FormUrlEncoded.SerializeInjective | src/search/Component.tsx:28 | two lists serialize equally exactly when they are equal |
| SearchParams.HasMeaning | src/search/SearchFilters.tsx:37-41 | a list has a key exactly when some pair carries that name |
| SearchParams.Get | src/search/SearchFilters.tsx:28-32 | `get` is null exactly when the key is absent, and otherwise the value of the first pair with that name |
| SearchParams.Delete | src/search/SearchFilters.tsx:40 | `delete` leaves no pair of that name, removes exactly the pairs of that name, and changes nothing when there is none |
| SearchParams.FirstNamed | src/search/SearchFilters.tsx:38 | the position of the first pair with the name: it carries that name and no earlier one does |
| SearchParams.DeleteKeepsOthers | src/search/SearchFilters.tsx:40 | deleting one key leaves the lookups of every other key unchanged |
| SearchParams.SetMeaning | src/search/SearchFilters.tsx:38 | after `set(k, v)` there is exactly one pair named k, `get(k)` is v, and the other pairs are those of the input in order |
| SearchParams.Set | src/search/SearchFilters.tsx:38 | a missing key is appended at the end; otherwise the new pair takes the place of the first pair with that key, after the same pairs as before |
| SearchParams.SetIdempotent | src/search/SearchFilters.tsx:38 | setting the same value twice is setting it once |
| SearchParams.SetKeepsOthers | src/search/SearchFilters.tsx:38 | setting one key leaves the lookups of every other key unchanged |
| SearchFilters.ValueOr | src/search/SearchFilters.tsx:28-32 | `get(k) \|\| fallback`: the value when present and non-empty, otherwise the fallback |
| SearchFilters.Current | src/search/SearchFilters.tsx:28-32 | category and dates default to "", sort field to "publishedAt", order to "desc", and the sort settings are never empty |
| SearchFilters.CategorySelectValue | src/search/SearchFilters.tsx:75 | the category select shows "all" exactly when no category (or "all") is set, and the category otherwise |
| SearchFilters.Updated | src/search/SearchFilters.tsx:36-41 | a value other than "" and "all" leaves exactly one pair for the key with that value; "" and "all" remove the key; other pairs are kept in order |
| SearchFilters.UpdateParams | src/search/SearchFilters.tsx:34-45 | the navigation target is "/search?" followed by a query that parses back to the updated list |
| SearchFilters.BareTarget | src/search/SearchFilters.tsx:42 | the target is the bare "/search?" exactly when no key is left |
| SearchFilters.UpdateKeepsOthers | src/search/SearchFilters.tsx:36-41 | other keys keep their values |
| SearchFilters.UpdateIdempotent | src/search/SearchFilters.tsx:36-42 | applying the same update to the page it navigates to gives the same list and the same target |
| SearchFilters.CategoryChoiceShown | src/search/SearchFilters.tsx:47-75 | after choosing a category, the select on the new page shows it, or "all" when cleared |
| SearchFilters.SortChoiceShown | src/search/SearchFilters.tsx:28-61 | after choosing a sort field, the new page sorts by it and the other filters are unchanged |
| Search.WithQuery | src/search/Component.tsx:17-22 | non-empty text leaves exactly one q pair with that text, empty text removes q, other pairs are kept in order |
| Search.QuerySuffix | src/search/Component.tsx:25 | the suffix is empty for an empty query and "?" plus the query otherwise |
| Search.QueryEffect | src/search/Component.tsx:16-31 | the effect navigates exactly when the q update changes the list, to "/search" plus a query that parses back to the new list and never ends in "?" |
| Search.QueryEffectSettles | src/search/Component.tsx:16-31 | after navigating, running the effect again with the same text on the new page does not navigate |
| Search.SyncValue | src/search/Component.tsx:33-38 | the `value` state (what the debounce watches) takes q when q is present and non-empty; an absent or empty q never clears it |
| Search.SyncAgreesWithQuery | src/search/Component.tsx:16-38 | text that was debounced and navigated to comes back unchanged through the sync effect |
| OpenGraph.DefaultImages | src/utilities/mergeOpenGraph.ts:8-12 | the default image list is truthy |
| OpenGraph.Defaults | src/utilities/mergeOpenGraph.ts:4-15 | the defaults set type, description, images, siteName and title, with the banner as images |
| OpenGraph.Merge | src/utilities/mergeOpenGraph.ts:17-23 | no page metadata gives exactly the defaults; every key the page sets wins except images; keys it does not set come from the defaults; images are the page's when truthy and the banner otherwise, so they are always truthy |
| OpenGraph.MergeIdempotent | src/utilities/mergeOpenGraph.ts:17-23 | merging an already merged record changes nothing |
| OpenGraph.EmptyImagesKept | src/utilities/mergeOpenGraph.ts:21 | an empty image list from the page is kept |
| OpenGraph.FalsyImagesFallBack | src/utilities/mergeOpenGraph.ts:21 | an images key set to a falsy value, including undefined, still gets the banner |
| PopulateAuthors.AuthorId | src/collections/Posts/hooks/populateAuthors.ts:19-25 | falsy entries and arrays are skipped; an object names its id, skipped when falsy; a string, number or boolean entry is the id itself |
| PopulateAuthors.Resolve | src/collections/Posts/hooks/populateAuthors.ts:17-39 | a skipped entry resolves to nothing; an object with a truthy id, or a truthy scalar, resolves to what the lookup finds for that id |
| PopulateAuthors.Resolved | src/collections/Posts/hooks/populateAuthors.ts:43-50 | never more resolved users than entries |
| PopulateAuthors.Populate | src/collections/Posts/hooks/populateAuthors.ts:8-64 | a missing, non-array or empty authors field leaves the post unchanged; otherwise populatedAuthors becomes the {id, name} of the resolved users in order (the empty list when none resolve) and authors is untouched |
| PopulateAuthors.ResolvedMeaning | src/collections/Posts/hooks/populateAuthors.ts:17-50 | the resolved users come from increasing input positions, and every entry that resolves is among them |
| PopulateAuthors.NoneResolve | src/collections/Posts/hooks/populateAuthors.ts:58-61 | when no entry resolves the list is empty |
| PopulateAuthors.SkippedEntries | src/collections/Posts/hooks/populateAuthors.ts:19-25 | null, 0, "", arrays and objects without a truthy id are never looked up |
| RevalidateComment.SlugOf | src/collections/Comments/hooks/revalidateComment.ts:22-24 | a slug is used exactly when it is a non-empty string, and then it is the post's slug |
| RevalidateComment.PostSlug | src/collections/Comments/hooks/revalidateComment.ts:15-25 | a numeric post is looked up for its slug, an object post uses its own, anything else has no slug |
| RevalidateComment.PostPath | src/collections/Comments/hooks/revalidateComment.ts:28 | the path is "/posts/" followed by the slug |
| RevalidateComment.PostPathRoundTrip | src/collections/Comments/hooks/revalidateComment.ts:28 | the slug can be read back from the path |
| RevalidateComment.Decide | src/collections/Comments/hooks/revalidateComment.ts:11-31 | nothing is revalidated when revalidation is disabled; otherwise a path exactly when the comment's post has a slug, and then that post's path |
| RevalidateComment.AfterChange | src/collections/Comments/hooks/revalidateComment.ts:7-34 | the change hook returns the comment, and revalidates a "/posts/" path only when enabled |
| RevalidateComment.AfterDelete | src/collections/Comments/hooks/revalidateComment.ts:36-63 | the delete hook returns the comment, tolerates a missing one, and revalidates only when enabled |
| RevalidateComment.HooksAgree | src/collections/Comments/hooks/revalidateComment.ts:11-31 | both hooks revalidate the same page for the same comment |
| RevalidateComment.NumericPostExample | src/collections/Comments/hooks/revalidateComment.ts:15-30 | a comment on post 7 with slug "hello" revalidates "/posts/hello", and nothing when revalidation is disabled |

## Left out

- I/O and runtime effects are not modelled, only the decisions around them:
  - the Google Analytics client and `Promise.all`;
  - `fetch`, `router.push` and `revalidatePath`;
  - logging and `window.location.reload`;
  - environment-variable reading, including the `\n` replacement in the private key.
- Analytics reports are modelled as already parsed: each metric is an optional number. Parsing decimal text with `parseInt` and `parseFloat` is not modelled.
- Floating point is not modelled. Numbers are exact reals, so IEEE rounding, NaN and infinities are absent.
- AnalyticsFormat.FormatNumber: the tie direction of `toFixed(1)` and the text of a non-integer `toString` are parameters. The contract states the digits only to within one rounding step.
- The date formatters are not modelled, because they depend on the runtime's locale and time zone. They are `formatAxisDate` and `formatTooltipDate` in the dashboard, and `formatDate` in `CommentItem`.
- `useDebounce` timing is not modelled. The search effect receives the debounced value directly.
- React effect scheduling is not modelled. Each effect is modelled as one run on the current parameters. The search-page proofs treat the page navigated to as one whose parameters are the pushed URL's query.
- Rendering markup and styling are not modelled, only the decisions about what is shown.
- Utf8.DecodeFirst: a malformed byte sequence decodes to one U+FFFD per byte. The URL Standard's UTF-8 decoder instead groups some malformed sequences into a single replacement character. Only encodings of valid strings are ever decoded in the proofs, so this does not affect them.
- Lone surrogates are not modelled. They would be encoded as U+FFFD; characters here are Dafny `char`s.
- CommentPost.FailureText: a server error message that is not a string is not modelled. The error body's `errors[0].message` is an optional string.
- CommentForm.Step: the browser's constraint validation (required name and email, `type="email"`, CommentForm.tsx lines 100 and 110) runs before onSubmit. `SubmitPressed` stands for a submit that passed it; the model does not state that the name and email are then non-empty or that the email is well-formed, since that check belongs to the browser.
- ReplyForm.Submit: likewise, the reply form's required name and email fields (ReplyForm.tsx lines 111 and 121) are checked by the browser before `Submit`, and the model does not restate that check.
- Search.SyncValue: the search `<Input>` has no `value` prop, so it is uncontrolled; the model follows the `value` state that feeds the debounce, not the characters the box shows.
- RevalidateComment.SlugOf: a slug that is truthy but not a string is treated as missing. The source would print it in the path; the CMS field is text.
- RevalidateComment.PostSlug: a `findByID` call that throws is not modelled. The lookup returns `None` for a missing post. In the source, a throw would abort the change hook.
- Json.Get: objects are field lists with distinct keys. `JSON.parse` keeps the last of duplicated keys; the model takes the first.
- PopulateAuthors.Resolve: a lookup that throws is folded into `None`, which is exactly how the hook's `catch` treats it.
- Access: `checkRole` is a parameter and is not modelled. The lemma that needs its meaning states it as a precondition.
- `getServerSideURL()` is a parameter and is not modelled.
- OpenGraph.Merge: metadata is a map, so the order of keys in the resulting object is not modelled.
- Comment submission crash: `editorJSON.root.children.some(...)` in both forms runs outside the `try`. When it throws, the handler stops with `isSubmitting` still true. The model keeps this as the `crashed` outcome, not as an error message.
- The comments section wrapper (`Comments/index.tsx`) and the rich-text editor component (`CommentEditor.tsx`) are not modelled. They only pass data through and host the Lexical editor.
- Concurrency is not modelled: overlapping fetches and double submits. Each handler runs to completion before the next event.
