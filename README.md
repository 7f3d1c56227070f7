# A Dafny model of the web-speed-hackathon-2025 client and server core

This project models the parts of the streaming site that make decisions, and proves their properties. The site is a React client with a Fastify server-side renderer; each part below is one Dafny module.

- **Store hydration** (`StoreMerge`, `store_merge.dfy`). The client store recursively merges the server's hydration data into the initial state. The model covers every error path of the property reads.
- **Image URLs** (`ImageUrl`, `OptimizedImage`). `optimizeImageUrl` drops the query string and rewrites a trailing `.jpeg` to `.webp`. The `OptimizedImage` component chooses the `.webp` source, the loading and priority attributes and the `sizes` string, and falls back to the original image on an error.
- **Carousel width** (`CarouselWidth`). The recommended-carousel hook computes the item width from the container width: a minimum of 276 px and a 12 px gap.
- **Recommended modules** (`Recommended`, `RecommendedService`). `useRecommended` looks up a reference's modules. The batched fetcher deduplicates reference ids, fetches them, and answers each caller in batches of at most 100.
- **Program page** (`ProgramPage`). This covers the date label, the next program, and the refresh and rollover timers. The timers either re-render, navigate to the next program or mark the program archived. It also covers which of the three views is shown.
- **Timetable entry** (`TimetableProgram`). This covers the on-air and archived colouring, the minute label, the detail-dialog selection and the thumbnail's visibility rule.
- **Hoverable** (`Hoverable`). This covers the pointer-in-rectangle test, the class names, and the merged ref that writes the element into every callback and object ref.
- **Time columns** (`TimeColumn`). This is the Drizzle column type that stores `HH:MM:SS`. Reading places the time on today's local date, with the end column's midnight on tomorrow. Writing keeps the Asia/Tokyo time of day.
- **Server-side render** (`Ssr`). This covers the listing of image files, the preload/prefetch link tags, the cache headers for static images and the favicon route.
- **Build configuration** (`VendorChunks`). This covers the webpack vendor chunk name computed from a module's `node_modules` path, and the manifest plugin's `generate` fold.

The modules `Wrappers` (Option and Result) and `Text` are shared by the others. `Text` holds the JavaScript string operations the source uses, modelled on `seq<char>`.

Where the source changes state in place, the model is a class whose methods are tied to a pure step function:

- the store's `setState`;
- the image element's `src`;
- the hook's `itemWidth` state;
- the page's timers and navigations;
- the ref boxes;
- the manifest object;
- the `Date` whose day `setDate` moves.

The properties are proved about those step functions.

## Model

| member | source | states |
|---|---|---|
| StoreMerge.Merge | workspaces/client/src/app/createStore.ts:20-44 | Models `deepMerge` as a value. A source that is not a truthy object returns the target. A source key whose merge reads a property of undefined or null gives the TypeError. Otherwise the result is the merged copy. DeepMerge is proved equal to it, and MergeKeys, MergeAtKey and MergeIdempotent state its properties. |
| StoreMerge.Get | workspaces/client/src/app/createStore.ts:29 | Reading a key throws exactly when the target is undefined or null. A key an object lacks reads as undefined. |
| StoreMerge.MergedProps | workspaces/client/src/app/createStore.ts:25-41 | The merged object's keys are the target's own keys together with the source's own keys. |
| StoreMerge.DeepMerge | workspaces/client/src/app/createStore.ts:20-44 | The recursive, in-order merge returns exactly what the merge specification returns, including the TypeError cases. |
| StoreMerge.MergeKey | workspaces/client/src/app/createStore.ts:29-39 | One key of the loop throws exactly when the merge specification says that key fails. Otherwise it yields the value the merged copy holds at that key. |
| StoreMerge.MergeNonObjectSource | workspaces/client/src/app/createStore.ts:21-23 | A source that is not a non-null object leaves the target as it is. |
| StoreMerge.MergeKeys | workspaces/client/src/app/createStore.ts:25-41 | A successful merge of an object source is an object whose keys are the union of both sides' own keys. |
| StoreMerge.MergeAtKey | workspaces/client/src/app/createStore.ts:25-39 | A key only the target has is kept. A plain source value overwrites. A nested object source is merged recursively into the target's value. |
| StoreMerge.MergeIntoNullishFails | workspaces/client/src/app/createStore.ts:29 | Merging a non-empty object into undefined or null fails. |
| StoreMerge.MergeNestedUnderMissingKeyFails | workspaces/client/src/app/createStore.ts:29-36 | A non-empty nested source object under a key the target lacks makes the merge fail: it reads a property of undefined. |
| StoreMerge.MergeEmptyNestedUnderMissingKey | workspaces/client/src/app/createStore.ts:25-36 | An empty nested object under a missing key merges to itself without error. |
| StoreMerge.MergeIdempotent | workspaces/client/src/app/createStore.ts:20-44 | Merging the same hydration data a second time changes nothing. |
| StoreMerge.Store.constructor | workspaces/client/src/app/createStore.ts:47-65 | The store starts with the given initial state. |
| StoreMerge.Store.HydrateWith | workspaces/client/src/app/createStore.ts:67 | The new state is the merge of the old state with the hydration data. A failing merge leaves the state unchanged. |
| StoreMerge.CreateStore | workspaces/client/src/app/createStore.ts:46-70 | A store is created exactly when merging the hydration data into the initial state succeeds, and it then holds the merge. |
| ImageUrl.OptimizeImageUrl | workspaces/client/src/utils/image.ts:6-12 | Models `optimizeImageUrl`: the part before the first `?`, with a trailing `.jpeg` rewritten to `.webp`. OptimizeStripsQuery, OptimizeJpeg, OptimizeKeepsOtherEndings and OptimizeIdempotent state its properties. |
| ImageUrl.OptimizeStripsQuery | workspaces/client/src/utils/image.ts:8-11 | The result has no '?'. It has the length of the URL part before the first '?', and that '?' follows it in the URL. |
| ImageUrl.OptimizeJpeg | workspaces/client/src/utils/image.ts:11 | A path ending in '.jpeg' ends in '.webp' afterwards, with everything before the extension unchanged. |
| ImageUrl.OptimizeKeepsOtherEndings | workspaces/client/src/utils/image.ts:11 | Any other ending, '.jpg' or '.JPEG' included, is kept as it is. |
| ImageUrl.OptimizeExample | workspaces/client/src/utils/image.ts:6-12 | `a.jpeg?w=1` becomes `a.webp`. |
| ImageUrl.OptimizeIdempotent | workspaces/client/src/utils/image.ts:8-11 | Optimising an optimised URL gives the same URL. |
| OptimizedImage.WebpSrc | workspaces/client/src/features/image/components/OptimizedImage.tsx:23-25 | Models the `webpSrc` choice. WebpSrcCases states it case by case. |
| OptimizedImage.Render | workspaces/client/src/features/image/components/OptimizedImage.tsx:14-37 | The rendered `img` takes the webp source and passes `alt`, `className`, `height` and `width` through unchanged. FetchPriorityFollowsLoading, PriorityForcesEager and SizesFromWidth state the other attributes. |
| OptimizedImage.WebpSrcCases | workspaces/client/src/features/image/components/OptimizedImage.tsx:23-25 | A gif keeps its source. A `.jpeg` or `.jpg` suffix becomes `.webp`. Anything else is unchanged. A changed source always ends in `.webp`. |
| OptimizedImage.GifIsNeverJpeg | workspaces/client/src/features/image/components/OptimizedImage.tsx:23-25 | A gif source ends in neither '.jpg' nor '.jpeg', so the gif test never blocks a rewrite. |
| OptimizedImage.PriorityForcesEager | workspaces/client/src/features/image/components/OptimizedImage.tsx:31-34 | A priority image decodes synchronously and loads eagerly with high fetch priority. |
| OptimizedImage.FetchPriorityFollowsLoading | workspaces/client/src/features/image/components/OptimizedImage.tsx:17-34 | Fetch priority is high exactly when loading is eager, and decoding is sync exactly for priority images. Without priority, loading defaults to lazy and otherwise follows the prop. |
| OptimizedImage.SizesFromWidth | workspaces/client/src/features/image/components/OptimizedImage.tsx:35 | `sizes` is the width in px for a non-zero width, and `100vw` otherwise. |
| OptimizedImage.ImageElement.constructor | workspaces/client/src/features/image/components/OptimizedImage.tsx:25-36 | The element starts on the resolved webp source with no fallback taken. |
| OptimizedImage.ImageElement.OnErrorAsWritten | workspaces/client/src/features/image/components/OptimizedImage.tsx:38-45 | On error, a non-gif whose resolved `src` differs from the unresolved original is switched back to the original. Because the listener stays attached, this can happen again. |
| OptimizedImage.ImageElement.OnError | workspaces/client/src/features/image/components/OptimizedImage.tsx:38-45 | The corrected handler compares resolved URLs and falls back once at most. |
| OptimizedImage.RelativeSourceFallsBackTwice | workspaces/client/src/features/image/components/OptimizedImage.tsx:38-45 | As written, a relative source whose webp and original both fail falls back twice. |
| OptimizedImage.ErrorsFallBackAtMostOnce | workspaces/client/src/features/image/components/OptimizedImage.tsx:38-45 | With the corrected handler, any number of errors causes at most one fallback. There is exactly one when an error occurred on a non-gif whose webp differs from the original. |
| CarouselWidth.NewWidth | workspaces/client/src/features/recommended/hooks/useCarouselItemWidth.ts:18-20 | Models the width computation, including the infinity or NaN when no column fits. ColumnsFit and NarrowContainerHasNoColumn state its properties. |
| CarouselWidth.ColumnsFit | workspaces/client/src/features/recommended/hooks/useCarouselItemWidth.ts:18-20 | For a container at least 276 px wide there is at least one column. The columns and gaps fit, one more column would not, and the item width is at least 276. |
| CarouselWidth.NarrowContainerHasNoColumn | workspaces/client/src/features/recommended/hooks/useCarouselItemWidth.ts:18-20 | A narrower container gives zero columns and a non-finite width: NaN exactly when the inner width is -12, otherwise Infinity. |
| CarouselWidth.CarouselItemWidth.constructor | workspaces/client/src/features/recommended/hooks/useCarouselItemWidth.ts:9 | The width state starts at 276. |
| CarouselWidth.CarouselItemWidth.UpdateWidthAsWritten | workspaces/client/src/features/recommended/hooks/useCarouselItemWidth.ts:11-26 | Without a container the width is set to 276. Otherwise a new width is written only when it differs from the 276 the callback captured. |
| CarouselWidth.CarouselItemWidth.UpdateWidth | workspaces/client/src/features/recommended/hooks/useCarouselItemWidth.ts:11-26 | The corrected update always leaves the width state equal to the computed width. It writes only when that differs from the current state. |
| CarouselWidth.ShrinkBackIsSkipped | workspaces/client/src/features/recommended/hooks/useCarouselItemWidth.ts:23-25 | As written, after a resize to 300 px a resize back to 276 px leaves the state at 300. |
| CarouselWidth.ShrinkBackIsApplied | workspaces/client/src/features/recommended/hooks/useCarouselItemWidth.ts:23-25 | With the corrected comparison the same resizes end at 276. |
| Recommended.UseRecommended | workspaces/client/src/features/recommended/hooks/useRecommended.ts:30-43 | Models `useRecommended`: the empty list for an unknown reference, else the loaded modules of its ids in order. UnknownReferenceIsEmpty and UseRecommendedMembers state its properties. |
| Recommended.LookUp | workspaces/client/src/features/recommended/hooks/useRecommended.ts:40-41 | Models `moduleIds.map((moduleId) => recommendedModules[moduleId])`. LookUpFollowsIdOrder and AllPresentKeepsPositions state its properties. |
| Recommended.PresentOnly | workspaces/client/src/features/recommended/hooks/useRecommended.ts:42 | The `!= null` filter never lengthens the list. PresentOnlyMembers, PresentOnlyAppend and PresentOnlyAllPresent state what it keeps. |
| Recommended.PresentOnlyAppend | workspaces/client/src/features/recommended/hooks/useRecommended.ts:42 | Dropping the missing modules distributes over concatenation. |
| Recommended.PresentOnlyMembers | workspaces/client/src/features/recommended/hooks/useRecommended.ts:42 | A module survives the filter exactly when it was present. |
| Recommended.PresentOnlyAllPresent | workspaces/client/src/features/recommended/hooks/useRecommended.ts:42 | When every module is present, the filter keeps them all in place. |
| Recommended.UnknownReferenceIsEmpty | workspaces/client/src/features/recommended/hooks/useRecommended.ts:34-37 | A reference with no module ids yields the empty list. |
| Recommended.UseRecommendedMembers | workspaces/client/src/features/recommended/hooks/useRecommended.ts:30-43 | The result has no more entries than ids. A module is in it exactly when one of the reference's ids names it. |
| Recommended.LookUpFollowsIdOrder | workspaces/client/src/features/recommended/hooks/useRecommended.ts:40-42 | The modules come out in the order of the ids: looking up two id lists one after the other concatenates the results. |
| Recommended.AllPresentKeepsPositions | workspaces/client/src/features/recommended/hooks/useRecommended.ts:40-42 | When all ids are loaded, the i-th result is the module of the i-th id. |
| RecommendedService.Fetcher | workspaces/client/src/features/recommended/services/recommendedService.ts:21-40 | The ids fetched are the batch's ids deduplicated in first-occurrence order, and there is one item per query. FetcherAnswersEachQuery states which item each query gets. |
| RecommendedService.ResolverAsWritten | workspaces/client/src/features/recommended/services/recommendedService.ts:41-43 | Models the resolver as written, which returns `items[0]`. ServeBatchAsWrittenGivesFirst and SecondCallerGetsFirstData state its effect. |
| RecommendedService.Dedupe | workspaces/client/src/features/recommended/services/recommendedService.ts:23 | The unique ids are exactly the queried ids. |
| RecommendedService.DedupeDistinctInOrder | workspaces/client/src/features/recommended/services/recommendedService.ts:23 | The unique ids have no repeats and keep first-occurrence order, as a Set does. |
| RecommendedService.ResultMap | workspaces/client/src/features/recommended/services/recommendedService.ts:34-36 | Models `new Map(...)` over the fetched results. FetcherAnswersEachQuery states what each query reads from it. |
| RecommendedService.FetcherAnswersEachQuery | workspaces/client/src/features/recommended/services/recommendedService.ts:21-40 | Each fetched id is fetched once. The i-th fetched item is the data for the i-th query's id. |
| RecommendedService.ServeBatchAsWritten | workspaces/client/src/features/recommended/services/recommendedService.ts:41-43 | The resolver as written answers every query of a batch. |
| RecommendedService.ServeBatchAsWrittenGivesFirst | workspaces/client/src/features/recommended/services/recommendedService.ts:34-43 | As written, every caller in a batch receives the first query's data. |
| RecommendedService.SecondCallerGetsFirstData | workspaces/client/src/features/recommended/services/recommendedService.ts:41-43 | For the batch `a`, `b` where the data differ, the caller for `b` receives `a`'s data. |
| RecommendedService.LabelledFetcher | workspaces/client/src/features/recommended/services/recommendedService.ts:29-39 | The corrected fetcher labels one item per query with that query's id. |
| RecommendedService.Resolver | workspaces/client/src/features/recommended/services/recommendedService.ts:41-43 | The corrected resolver returns data labelled with the caller's own id. |
| RecommendedService.ServeBatchAnswersOwnId | workspaces/client/src/features/recommended/services/recommendedService.ts:20-43 | With the corrected resolver every caller in a batch receives the data for its own id. |
| RecommendedService.Batches | workspaces/client/src/features/recommended/services/recommendedService.ts:44-47 | Each batch of the window is non-empty and holds at most 100 queries. BatchesPartitionQueue shows that together they are the queue. |
| RecommendedService.BatchesPartitionQueue | workspaces/client/src/features/recommended/services/recommendedService.ts:44-47 | The scheduler's batches, each non-empty and at most 100 long, concatenate back to the queue in order. |
| RecommendedService.WindowUsesBatches | workspaces/client/src/features/recommended/services/recommendedService.ts:44-47 | n queries in one window are sent in ceil(n / 100) batches. |
| RecommendedService.ServeWindowAsWritten | workspaces/client/src/features/recommended/services/recommendedService.ts:41-59 | One answer per call of the window, with the resolver as written. ServeWindowAsWrittenGivesBatchHead states which answer. |
| RecommendedService.ServeWindow | workspaces/client/src/features/recommended/services/recommendedService.ts:20-59 | One answer per call of the window, with the corrected resolver. ServeWindowAnswersOwnId states which answer. |
| RecommendedService.WindowServesBatches | workspaces/client/src/features/recommended/services/recommendedService.ts:20-59 | Serving a window, as written or corrected, is serving each of the scheduler's batches of its queries in turn. |
| RecommendedService.ServeWindowAsWrittenGivesBatchHead | workspaces/client/src/features/recommended/services/recommendedService.ts:41-60 | As written, the i-th caller in a window receives the data of the first id of its batch of 100. |
| RecommendedService.ServeWindowAnswersOwnId | workspaces/client/src/features/recommended/services/recommendedService.ts:20-60 | With the corrected resolver every caller in a window receives its own id's data. |
| ProgramPage.FormatDate | workspaces/client/src/pages/program/components/ProgramPage.tsx:36-39 | Models the `M月D日 H:MM` template. FormatDateInjective and FormatDateMinutes state its properties. |
| ProgramPage.CivilDate | workspaces/client/src/pages/program/components/ProgramPage.tsx:36-38 | The Gregorian date of a day number counts back to that same day number. The month is 0-based, as `getMonth` gives it, and the day lies within the month's length. |
| ProgramPage.LocalTimeOf | workspaces/client/src/pages/program/components/ProgramPage.tsx:36-38 | The fields `new Date(startAt)` gives in a zone at a fixed offset from UTC. They form a valid local time. The date exists in its month and counts back to the local day of the instant. The hour and minute give the local time of day to the minute. |
| ProgramPage.ScheduledLabelExample | workspaces/client/src/pages/program/components/ProgramPage.tsx:36-39 | A program starting at the epoch is announced in Tokyo (UTC+9) as `1月1日 9:00`. |
| ProgramPage.FormatDateInjective | workspaces/client/src/pages/program/components/ProgramPage.tsx:36-39 | Distinct local start times give distinct `M月D日 H:MM` labels. |
| ProgramPage.FormatDateMinutes | workspaces/client/src/pages/program/components/ProgramPage.tsx:36-39 | The label ends in ':' and two digits that read back as the minutes. |
| ProgramPage.NextProgram | workspaces/client/src/pages/program/components/ProgramPage.tsx:51-55 | Models the `nextProgram` lookup on the program's channel. NextProgramIsFirstFollower states its properties. |
| ProgramPage.FindStartingAt | workspaces/client/src/pages/program/components/ProgramPage.tsx:51-55 | Nothing is found exactly when no program starts at the given end. Otherwise the result is the first program that does. |
| ProgramPage.NextProgramIsFirstFollower | workspaces/client/src/pages/program/components/ProgramPage.tsx:51-55 | The next program is on the same channel and starts when this one ends. There is none exactly when no program of the channel does so. |
| ProgramPage.Mount | workspaces/client/src/pages/program/components/ProgramPage.tsx:63-81 | Models the first render and effect. MountState states the resulting flags and timer. |
| ProgramPage.Step | workspaces/client/src/pages/program/components/ProgramPage.tsx:67-107 | Models one timer firing. StepKeepsValid, ArchivedIsFinal, RefreshTickNeverNavigates, RolloverBeforeEndChangesNothing and RolloverAtEnd state its properties. |
| ProgramPage.MountState | workspaces/client/src/pages/program/components/ProgramPage.tsx:63-81 | On mount, the archived flag means the end has passed and the started flag means the start has passed. An archived page runs no timer, a page not yet started runs the refresh timer, and a started page runs the rollover timer. |
| ProgramPage.StepKeepsValid | workspaces/client/src/pages/program/components/ProgramPage.tsx:67-107 | Every tick keeps these facts: a timer runs only on a live page, the refresh timer only before the start, at most one navigation, and no timer after navigating. |
| ProgramPage.ArchivedIsFinal | workspaces/client/src/pages/program/components/ProgramPage.tsx:68-70 | An archived page never changes again. |
| ProgramPage.RefreshTickNeverNavigates | workspaces/client/src/pages/program/components/ProgramPage.tsx:73-81 | A refresh tick re-renders without navigating. It hands over to the rollover timer exactly when the start has passed. |
| ProgramPage.RolloverBeforeEndChangesNothing | workspaces/client/src/pages/program/components/ProgramPage.tsx:84-90 | Before the end, a rollover tick changes nothing. |
| ProgramPage.RolloverAtEnd | workspaces/client/src/pages/program/components/ProgramPage.tsx:92-101 | At the end the timer stops. With a next program the page navigates to it once, with scroll reset prevented and replace. Without one it becomes archived. |
| ProgramPage.Show | workspaces/client/src/pages/program/components/ProgramPage.tsx:117-155 | Models which view the video area shows. ShowPrecedence states its properties. |
| ProgramPage.ShowPrecedence | workspaces/client/src/pages/program/components/ProgramPage.tsx:117-155 | Archived beats playing, and playing beats scheduled. The scheduled view is shown exactly before the start, and its message holds `formatDate(program.startAt)`: the label of the program's own start instant in the page's time zone. |
| ProgramPage.ProgramPageView.constructor | workspaces/client/src/pages/program/components/ProgramPage.tsx:63-65 | A mounted page is in the mount state for its program and clock. |
| ProgramPage.ProgramPageView.RunEffect | workspaces/client/src/pages/program/components/ProgramPage.tsx:67-107 | Running the effect sets up the timer its flags call for. |
| ProgramPage.ProgramPageView.Rerender | workspaces/client/src/pages/program/components/ProgramPage.tsx:61-65 | A re-render recomputes the flags from the clock. |
| ProgramPage.ProgramPageView.Tick | workspaces/client/src/pages/program/components/ProgramPage.tsx:73-102 | A timer firing moves the page by one step of the page's state machine. |
| TimetableProgram.IsOnAir | workspaces/client/src/pages/timetable/components/Program.tsx:31 | Models `isOnAir`. OnAirAndArchivedExclusive relates it to `isArchived`. |
| TimetableProgram.IsArchived | workspaces/client/src/pages/timetable/components/Program.tsx:32 | Models `isArchived`. OnAirAndArchivedExclusive relates it to `isOnAir`. |
| TimetableProgram.AppearanceAt | workspaces/client/src/pages/timetable/components/Program.tsx:55-70 | Models the three status ternaries of the cell. AppearanceByStatus states the appearance for each status, and ButtonClassNameFollowsStatus the class list built from it. |
| TimetableProgram.ButtonClassNameFollowsStatus | workspaces/client/src/pages/timetable/components/Program.tsx:57 | The button's class list starts with the cell height and ends in `opacity-50` exactly when the program is archived, and in `opacity-100` otherwise. |
| TimetableProgram.OnAirAndArchivedExclusive | workspaces/client/src/pages/timetable/components/Program.tsx:31-32 | A program is never both on air and archived. A well-ordered program is neither exactly before its start. |
| TimetableProgram.AppearanceByStatus | workspaces/client/src/pages/timetable/components/Program.tsx:55-75 | The colours, hover brightness and opacity for the upcoming, on-air and archived cases. |
| TimetableProgram.LocalMinutes | workspaces/client/src/pages/timetable/components/Program.tsx:67 | Models `new Date(startAt).getMinutes()` in a fixed-offset zone. LocalMinutesAgree states that it is the minute of the same local time the program page reads. |
| TimetableProgram.LocalMinutesAgree | workspaces/client/src/pages/timetable/components/Program.tsx:67 | The cell's start minute equals the `minutes` field of `ProgramPage.LocalTimeOf` for the same instant and offset. |
| TimetableProgram.MinuteLabel | workspaces/client/src/pages/timetable/components/Program.tsx:67 | Models the padded start-minute label. MinuteLabelIsTwoDigits and MinuteLabelIgnoresHours state its properties. |
| TimetableProgram.MinuteLabelIsTwoDigits | workspaces/client/src/pages/timetable/components/Program.tsx:67 | The minute label is two digits that read back as the local minute. |
| TimetableProgram.MinuteLabelIgnoresHours | workspaces/client/src/pages/timetable/components/Program.tsx:67 | Shifting the start by whole hours keeps the minute label. |
| TimetableProgram.Selection.constructor | workspaces/client/src/pages/timetable/components/Program.tsx:20 | No program is selected at first. |
| TimetableProgram.Selection.Click | workspaces/client/src/pages/timetable/components/Program.tsx:22-24 | Clicking selects that program. |
| TimetableProgram.ClickOpensOnlyThatDialog | workspaces/client/src/pages/timetable/components/Program.tsx:21-24 | After a click, exactly the clicked program's dialog is open. |
| TimetableProgram.NoDialogBeforeSelection | workspaces/client/src/pages/timetable/components/Program.tsx:21 | With nothing selected, no dialog is open. |
| TimetableProgram.Thumbnail.constructor | workspaces/client/src/pages/timetable/components/Program.tsx:36-47 | The thumbnail starts hidden and is observed only when both elements are mounted. |
| TimetableProgram.Thumbnail.OnResize | workspaces/client/src/pages/timetable/components/Program.tsx:40-45 | While observed, a resize makes the thumbnail `opacity-100` exactly when the title is under 100 px tall. An unobserved thumbnail stays `opacity-0`, and the invariant that only the observer shows it is kept. |
| TimetableProgram.Thumbnail.OpacityClass | workspaces/client/src/pages/timetable/components/Program.tsx:75 | Models the opacity ternary of the thumbnail wrapper. Thumbnail.OnResize states which class follows each resize. |
| Hoverable.Hovered | workspaces/client/src/features/layout/components/Hoverable.tsx:34-41 | Models `hovered`. UnmountedIsNotHovered, EdgesCount and OutsideIsNotHovered state its properties. |
| Hoverable.UnmountedIsNotHovered | workspaces/client/src/features/layout/components/Hoverable.tsx:34-36 | Without an element nothing is hovered. |
| Hoverable.EdgesCount | workspaces/client/src/features/layout/components/Hoverable.tsx:36-41 | The rectangle's corners and centre count as hovered: the bounds are inclusive. |
| Hoverable.OutsideIsNotHovered | workspaces/client/src/features/layout/components/Hoverable.tsx:36-41 | A pointer outside the rectangle on any side is not hovered. |
| Hoverable.HoverableClassName | workspaces/client/src/features/layout/components/Hoverable.tsx:43-48 | Models the `classNames` call. HoverableClassNameParts states its properties. |
| Hoverable.HoverableClassNameParts | workspaces/client/src/features/layout/components/Hoverable.tsx:43-48 | The class is the child's class (when non-empty), then `cursor-pointer`, then the hovered or default class (when non-empty), joined by spaces. |
| Hoverable.FilterRefs | workspaces/client/src/features/layout/components/Hoverable.tsx:31 | The filter never lengthens the list of refs. FilterRefsKeepsNonNull states what it keeps. |
| Hoverable.FilterRefsKeepsNonNull | workspaces/client/src/features/layout/components/Hoverable.tsx:31 | The filter keeps exactly the non-null refs, in order. It changes nothing when there are none. |
| Hoverable.MergedRef | workspaces/client/src/features/layout/components/Hoverable.tsx:15-25 | The merged ref calls every callback ref in order and sets every object ref's `current` to the value passed: the element on mount, null on unmount. |
| Hoverable.FilterRefsIsTransparent | workspaces/client/src/features/layout/components/Hoverable.tsx:15-31 | Filtering out null refs first calls the same callbacks and writes the same boxes. |
| Hoverable.CloneWith | workspaces/client/src/features/layout/components/Hoverable.tsx:43-50 | The clone carries the computed class and the merged ref, with the child's other props unchanged. |
| TimeColumn.ParseFields | workspaces/schema/src/database/schema.ts:7 | Models the split and `Number` conversion. ParseTimeString, MissingPartFails and EmptyPartsAreMidnight state its properties. |
| TimeColumn.StartDecode | workspaces/schema/src/database/schema.ts:6-19 | Models the start column's `fromDriver`. RoundTripInTokyo and EndIsStartExceptMidnight state its properties. |
| TimeColumn.EndDecode | workspaces/schema/src/database/schema.ts:57-76 | Specifies the end column's `fromDriver`. EndFromDriver is proved equal to it, and EndIsStartExceptMidnight relates it to the start column. |
| TimeColumn.LocalDate.constructor | workspaces/schema/src/database/schema.ts:9-17 | The date holds today's local day at the given time. |
| TimeColumn.LocalDate.NextDay | workspaces/schema/src/database/schema.ts:72 | Moving to the next date adds exactly one day. |
| TimeColumn.EndFromDriver | workspaces/schema/src/database/schema.ts:57-76 | The end decoder yields the instant of the time on today's date, or tomorrow's for midnight. It fails for malformed strings. |
| TimeColumn.EndIsStartExceptMidnight | workspaces/schema/src/database/schema.ts:33-76 | The end decoder fails exactly when the start decoder does. It agrees with it except at midnight, where it is exactly one day later. |
| TimeColumn.ParseTimeString | workspaces/schema/src/database/schema.ts:7 | A well-formed `HH:MM:SS` splits and reads back as its fields. |
| TimeColumn.MissingPartFails | workspaces/schema/src/database/schema.ts:7-18 | Fewer than three parts give an invalid date, and both decoders fail with a RangeError. |
| TimeColumn.EmptyPartsAreMidnight | workspaces/schema/src/database/schema.ts:58-73 | `::` reads as midnight (empty parts are zero), and the end moves to tomorrow. |
| TimeColumn.TokyoSecondOfDay | workspaces/schema/src/database/schema.ts:21-30 | The Tokyo time of day lies within one day. |
| TimeColumn.FormatTime | workspaces/schema/src/database/schema.ts:21-30 | The encoder writes eight characters with colons at positions 2 and 5. |
| TimeColumn.EncodeIgnoresDate | workspaces/schema/src/database/schema.ts:21-45 | Both columns encode instants whole days apart identically, and they encode the same way as each other. |
| TimeColumn.EncodeKeepsTimeOfDay | workspaces/schema/src/database/schema.ts:21-30 | The encoded string reads back as the Tokyo hours, minutes and seconds. |
| TimeColumn.RoundTripInTokyo | workspaces/schema/src/database/schema.ts:6-46 | In a process running at Tokyo's offset, decoding a stored well-formed time and encoding it again gives the stored string, for both columns. |
| Ssr.GetFilePaths | workspaces/server/src/ssr.tsx:16-26 | Models `getFilePaths`: one path per listed file, in listing order. ImagePathsUnderPublic states the prefixes and order of the paths. |
| Ssr.ImagePaths | workspaces/server/src/ssr.tsx:78-83 | Models the concatenated listing of the three image directories. ImagePathsUnderPublic states its order and prefixes. |
| Ssr.ListedEntries | workspaces/server/src/ssr.tsx:17-20 | Listing never adds entries. |
| Ssr.ListedEntriesExactly | workspaces/server/src/ssr.tsx:17-20 | Exactly the plain files whose names do not start with '.' are listed. |
| Ssr.ImagePathsUnderPublic | workspaces/server/src/ssr.tsx:78-83 | The image list holds the images, then the animations, then the logos. Each path lies under `/public/images/`, `/public/animations/` or `/public/logos/` respectively. |
| Ssr.RegexAgreesWithHeaderRule | workspaces/server/src/ssr.tsx:95 | The anchored image pattern matches exactly the paths whose suffix the cache-header rule accepts. |
| Ssr.KeptImagePaths | workspaces/server/src/ssr.tsx:95 | Only listed paths that match the image pattern are kept. |
| Ssr.KeptExactlyImages | workspaces/server/src/ssr.tsx:95 | A path is kept exactly when it is listed and has an image extension. |
| Ssr.LinkTag | workspaces/server/src/ssr.tsx:96-103 | Models the link tag for one image. PreloadExactlyThumbnails states which kind it is. |
| Ssr.PreloadExactlyThumbnails | workspaces/server/src/ssr.tsx:96-103 | A path gets a high-priority preload link exactly when it contains `thumbnail`; every other path gets a prefetch link. |
| Ssr.LinkTagsHtml | workspaces/server/src/ssr.tsx:94-104 | Models the joined link tags. OneTagPerLine states that they split back into one tag per image. |
| Ssr.OneTagPerLine | workspaces/server/src/ssr.tsx:94-104 | The joined HTML splits on newlines back into one link tag per kept image. |
| Ssr.CacheHeaderNames | workspaces/server/src/ssr.tsx:40-45 | The five header names stay distinct once lower-cased, and the cache-header keys are stored lower-case. |
| Ssr.Response.SetHeader | workspaces/server/src/ssr.tsx:40-45 | `setHeader` stores the value under the lower-cased name, replacing any header of that name in any spelling. Afterwards `getHeader` with that name returns it. |
| Ssr.WithCacheHeaders | workspaces/server/src/ssr.tsx:35-47 | An image path gets the five cache headers, and `getHeader` with any spelling of those names returns the new value. Any other path leaves the headers unchanged. Headers with other names are kept, and stored names stay lower-case. |
| Ssr.ImageResponseReplacesCacheControl | workspaces/server/src/ssr.tsx:35-45 | An image response replaces a `cache-control` header set earlier under another spelling, and keeps one entry for that name. |
| Ssr.SetInOrder | workspaces/server/src/ssr.tsx:40-45 | The five `setHeader` calls write distinct names, so in sequence they lay the cache headers over the existing ones. |
| Ssr.Response.SetHeaders | workspaces/server/src/ssr.tsx:35-47 | The response's headers become the cache-header update of the old headers for that path. |
| Ssr.Route | workspaces/server/src/ssr.tsx:53-57 | The 404 handler serves exactly `/favicon.ico`. |
| VendorChunks.CaptureEnd | workspaces/client/webpack.config.mjs:97 | The lazy capture stops at the first separator or the end of the string, and never crosses a line terminator. |
| VendorChunks.MatchAt | workspaces/client/webpack.config.mjs:97 | The pattern matches at a position exactly when a separator, `node_modules` and a separator start there and the lazy capture can end. The capture is the text up to the next separator or the end, so it holds no separator and no line terminator. |
| VendorChunks.RemoveFirst | workspaces/client/webpack.config.mjs:98 | Replacing '@' removes exactly the first '@', keeping everything before and after it. A string without '@' is unchanged. |
| VendorChunks.ChunkName | workspaces/client/webpack.config.mjs:95-100 | Models `defaultVendors.name`. ChunkNameIsVendor, NoNodeModulesIsVendorVendor, FirstSegmentNamesChunk, EmptySegmentIsVendorDot and ScopedPackageUsesScope state its properties. |
| VendorChunks.ChunkNameIsVendor | workspaces/client/webpack.config.mjs:95-100 | Every chunk name starts with `vendor`. A module without a context is `vendor`. |
| VendorChunks.SearchNeedsNodeModules | workspaces/client/webpack.config.mjs:97 | The pattern matches only paths that contain `node_modules`. |
| VendorChunks.NoNodeModulesIsVendorVendor | workspaces/client/webpack.config.mjs:97-99 | A context outside `node_modules` is named `vendor.vendor`. |
| VendorChunks.FirstSegmentNamesChunk | workspaces/client/webpack.config.mjs:97-99 | The chunk is named after the first path segment after the first `node_modules`, with its first '@' removed. |
| VendorChunks.EmptySegmentIsVendorDot | workspaces/client/webpack.config.mjs:98-99 | A context ending in `node_modules/` is named `vendor.`: the empty capture is not caught by `??`. |
| VendorChunks.ScopedPackageUsesScope | workspaces/client/webpack.config.mjs:97-99 | A scoped package `@scope/name` is named `vendor.scope`. |
| VendorChunks.LastPathFor | workspaces/client/webpack.config.mjs:151-156 | The path recorded for a name comes from a complete file entry with that name. None means no such entry. |
| VendorChunks.Fold | workspaces/client/webpack.config.mjs:151-156 | Models the `reduce` over the files. FoldLookup, LaterFileWins and IncompleteFileSkipped state its properties. |
| VendorChunks.FoldLookup | workspaces/client/webpack.config.mjs:151-156 | The manifest maps a name to its last complete file's path, or keeps the seed's entry when no file has that name. |
| VendorChunks.LaterFileWins | workspaces/client/webpack.config.mjs:153 | A later file with the same name overwrites the earlier path. |
| VendorChunks.IncompleteFileSkipped | workspaces/client/webpack.config.mjs:152 | An entry without both name and path, or not an object, leaves the manifest unchanged. |
| VendorChunks.Manifest.Set | workspaces/client/webpack.config.mjs:153 | Setting a name updates exactly that entry. |
| VendorChunks.Generate | workspaces/client/webpack.config.mjs:150-158 | The seed object is reused and mutated when given, and a fresh manifest is made otherwise. The entries become the fold of the files over the seed's entries. |

## Left out

- Numbers are integers. NaN and Infinity appear only where the source can produce them (the carousel width); other floating-point rounding is not modelled.
- StoreMerge: a property name that spells an array index is taken to be written as an index key (`Index(0)`, never `Name("0")`). The model does not enforce this.
- StoreMerge: inherited (prototype) properties, array holes, property enumeration order and getters are not modelled. An object is a map from keys to values.
- StoreMerge.Store.HydrateWith: zustand's `setState` shallow-merges the new state into the old one. Because a successful merge already holds every key of the old state (MergeKeys), this is modelled as replacement.
- The `prefetch` loader and the page's remaining React markup are not modelled; JSX layout is left out throughout.
- RecommendedService: batshit's 1000 ms window is modelled as one window that receives the whole queue. Timers, `Promise.all` rejection and `$fetch` failures are not modelled, and the fetch is a function parameter.
- OptimizedImage: the browser's URL resolution is a function parameter. Network loading and load order are not modelled.
- CarouselWidth: ResizeObserver callbacks and React's state batching are modelled as calls in sequence; `parseInt` of the paddings is taken as already done (the paddings are integers).
- ProgramPage: `setTimeout` scheduling is modelled as discrete ticks, with the clock as a parameter. The timetable used for the next program is held fixed while the page is shown.
- ProgramPage.Show: the browser's time zone is a fixed offset from UTC, passed as a parameter, with no daylight-saving changes. `program.startAt` is represented by its instant.
- TimetableProgram: the hover pointer position (`usePointer`) is a parameter.
- Hoverable: pointer subscription is left out. The pointer and the rectangle are real numbers.
- TimeColumn: only a fixed UTC offset is modelled, with no daylight-saving changes. A `Date`'s year, month and day are a day number.
- TimeColumn: `Number()` is modelled on digit strings and "" only; whitespace, signs, decimals, exponents and hex give None. The `toISOString` range limit is not modelled, and an ISO string is represented by its instant.
- TimeColumn.FormatTime: `toLocaleTimeString` is taken to print midnight as `00`. Some Intl versions print `24`.
- Ssr: Fastify, `fs`, `renderToString` and `htmlescape` are left out, along with fastify-static's own `cacheControl`, `immutable` and `maxAge` headers. Headers are keyed by their lower-cased names, as Node stores them. The spelling Node sends on the wire is not modelled. `path.join` normalisation of `..` segments is not modelled: names come from a directory listing.
- VendorChunks: only the `name` function of the split-chunks configuration and the manifest's `generate` are modelled. The rest of the webpack configuration is static data.

## Findings

| source | as written | input that shows it | evidently intended | confidence | as-written member | corrected member |
|---|---|---|---|---|---|---|
| workspaces/client/src/features/recommended/services/recommendedService.ts:41-43 | the resolver returns `items[0]` for every query of a batch | two callers in one batch, for `a` then `b`, where the data for `a` and `b` differ: the caller for `b` receives `a`'s data | each caller receives the data for its own reference id | high (not executed) | RecommendedService.SecondCallerGetsFirstData | RecommendedService.ServeBatchAnswersOwnId |
| workspaces/client/src/features/recommended/hooks/useCarouselItemWidth.ts:23-25 | the resize callback compares with the `itemWidth` it captured at mount (276), so a new width equal to 276 is never written | container inner width 300, then 276: the state stays at 300 | the width state follows the container | high (not executed) | CarouselWidth.ShrinkBackIsSkipped | CarouselWidth.ShrinkBackIsApplied |
| workspaces/client/src/features/image/components/OptimizedImage.tsx:38-45 | the error handler compares the resolved `img.src` with the unresolved original and stays attached | a relative source whose webp and original both fail to load: the handler falls back twice | fall back to the original at most once | medium (not executed) | OptimizedImage.RelativeSourceFallsBackTwice | OptimizedImage.ErrorsFallBackAtMostOnce |
