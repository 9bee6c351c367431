# Sabbath School reader: user-data sync and reading screen, in Dafny

This project models the core of the Sabbath School Android app's reader.

- **The user-data synchroniser** (`UserDataRepositoryImpl`). There are three local table families:
  - highlights and comments, keyed by `readIndex`;
  - PDF annotations, keyed per page by `"$lessonIndex-$pdfId-$pageIndex"`.

  Highlights and comments are reconciled against the server's copy by strict last-writer-wins on a millisecond timestamp:
  - a strictly newer remote record is pulled;
  - a strictly newer local record is pushed;
  - an absent timestamp counts as older than any present one;
  - equal timestamps do nothing.

  Annotations are only pulled, page by page: a remote page is written when no cached row exists for it or when it is strictly newer than the cached row. A cached page that is newer is never uploaded.

  Saves stamp the device time, write locally and hand one upload to the network layer. The read path maps a missing row to an empty default.
- **The lesson-info data source** (`LessonInfoDataSource`):
  - a cache that answers "loading" for a missing lesson row and otherwise the row's model;
  - an update that rewrites one row's days and PDFs;
  - a network source that splits a lesson index `lang-quarterly-lesson` into three path parts with Kotlin's `substringBefore`/`substringAfter`/`substringBeforeLast`/`substringAfterLast` and maps the response to a resource.
- **The reading web view** (`SSReadingView` and its JavaScript bridge):
  - the comment merge run when the page reports an edited comment: every comment of the input element, compared ignoring case, takes the new text, or a new comment is appended;
  - the commands the view sends to the page;
  - the `textAreaFocused` and `contextMenuShown` flags.
- **The readings screen model** (`ReadingsViewModel`):
  - the initial user content and the rule that combines the comments and highlights streams, falling back to the initial value on failure;
  - the audio, video and PDF availability flags set at start-up.

Modules follow the source files:
- `Models` (`models.dfy`) holds the shared value records and the `Resource` wrapper.
- `Decimal` (`decimal.dfy`) holds Kotlin's decimal rendering of an `Int`, which annotation row keys embed.
- `UserData` (`user_data.dfy`) holds the class `UserDataRepository`, whose fields are the three local tables as maps, plus the log of upload requests handed to the network layer.
- `LessonInfo` (`lesson_info.dfy`) holds the class `LessonInfoCache`.
- `Reader` (`reading_view.dfy`) holds the class `ReadingView`.
- `Readings` (`readings_view_model.dfy`) holds the class `ReadingsViewModel`.

Three inputs are parameters:
- The outcome of a guarded remote fetch is a parameter: `NetworkSuccess(body?)` or `NetworkFailure`.
- The device clock is given as the reading(s) `nowEpochMilli()` returns.
- The repositories the view model calls are given as functions from a lesson index to the resource they return.

## Model

| member | source | states |
|---|---|---|
| UserData.IsAfter | common/lessons-data/src/main/java/app/ss/lessons/data/repository/user/UserDataRepositoryImpl.kt:241-244 | `Long.isAfter(other)`: true when `other` is absent, otherwise exactly `this > other` |
| UserData.IsAfterOrder | common/lessons-data/src/main/java/app/ss/lessons/data/repository/user/UserDataRepositoryImpl.kt:241-244 | `isAfter` holds against an absent timestamp; against a present one it is exactly strict `>`: irreflexive, asymmetric, and total on distinct values |
| UserData.Pulls | common/lessons-data/src/main/java/app/ss/lessons/data/repository/user/UserDataRepositoryImpl.kt:84-85 | the pull test of `syncHighlights` (and of `syncComments` at lines 134-135): a remote record exists and its timestamp is after the cached one, an absent cached timestamp counting as older |
| UserData.Pushes | common/lessons-data/src/main/java/app/ss/lessons/data/repository/user/UserDataRepositoryImpl.kt:94-95 | the push test of `syncHighlights` (and of `syncComments` at lines 142-143): a cached record exists and its timestamp is after the remote one, an absent remote timestamp counting as older |
| UserData.ReconcileRule | common/lessons-data/src/main/java/app/ss/lessons/data/repository/user/UserDataRepositoryImpl.kt:82-100 | the pull test and the push test never both hold; neither holds exactly when the cached and remote timestamps agree (both absent or equal); a present record beats an absent one; two present records compare strictly |
| Decimal.NatToString | common/lessons-data/src/main/java/app/ss/lessons/data/repository/user/UserDataRepositoryImpl.kt:193 | the decimal digits of a non-negative number: at least one character, at least two from 10 on, all digits |
| Decimal.IntToString | common/lessons-data/src/main/java/app/ss/lessons/data/repository/user/UserDataRepositoryImpl.kt:193 | Kotlin's `Int` rendering in a string template: non-empty, starting with `-` exactly for a negative number |
| Decimal.NatToStringInjective | common/lessons-data/src/main/java/app/ss/lessons/data/repository/user/UserDataRepositoryImpl.kt:193 | different non-negative numbers render to different decimal strings |
| Decimal.IntToStringInjective | common/lessons-data/src/main/java/app/ss/lessons/data/repository/user/UserDataRepositoryImpl.kt:193 | different integers, including negative ones, render to different strings |
| UserData.PdfIndex | common/lessons-data/src/main/java/app/ss/lessons/data/repository/user/UserDataRepositoryImpl.kt:183 | the PDF key `"$lessonIndex-$pdfId"`: the lesson index, a dash, the PDF id |
| UserData.PageKey | common/lessons-data/src/main/java/app/ss/lessons/data/repository/user/UserDataRepositoryImpl.kt:193 | the page row key `"$pdfIndex-$pageIndex"`: the PDF key, a dash, the decimal page index |
| UserData.PageKeyInjective | common/lessons-data/src/main/java/app/ss/lessons/data/repository/user/UserDataRepositoryImpl.kt:188-193 | within one PDF, two pages that share a row key `"$pdfIndex-$pageIndex"` have the same page index |
| UserData.InsertAll | common/lessons-data/src/main/java/app/ss/lessons/data/repository/user/UserDataRepositoryImpl.kt:200 | `insertAll`: one insert-or-replace per entity, in list order; the keys afterwards are the table's keys plus the inserted rows' keys |
| UserData.InsertAllOther | common/lessons-data/src/main/java/app/ss/lessons/data/repository/user/UserDataRepositoryImpl.kt:200 | a bulk insert leaves a key no inserted row carries exactly as it was, present or absent |
| UserData.InsertAllLast | common/lessons-data/src/main/java/app/ss/lessons/data/repository/user/UserDataRepositoryImpl.kt:219 | after a bulk insert, a key holds the last inserted row carrying that key |
| UserData.InsertAllWellKeyed | common/lessons-data/src/main/java/app/ss/lessons/data/repository/user/UserDataRepositoryImpl.kt:200 | inserting rows stored under their own page key keeps every row of the table stored under its own page key |
| UserData.InsertAllCopies | common/lessons-data/src/main/java/app/ss/lessons/data/repository/user/UserDataRepositoryImpl.kt:191-200 | inserting n copies of one row is a single upsert when n > 0 and changes nothing when n = 0 |
| UserData.PageEntity | common/lessons-data/src/main/java/app/ss/lessons/data/repository/user/UserDataRepositoryImpl.kt:192-198 | the row built for a remote page is stored under its page key and carries the PDF index, page index, annotations and remote timestamp |
| UserData.PageEntities | common/lessons-data/src/main/java/app/ss/lessons/data/repository/user/UserDataRepositoryImpl.kt:191-199 | one copy of the page's row per annotation of the page |
| UserData.CachedPage | common/lessons-data/src/main/java/app/ss/lessons/data/repository/user/UserDataRepositoryImpl.kt:188 | `cached.find { it.index == key }` over the rows of the PDF taken before the loop: the row stored under the key when it belongs to that PDF, otherwise none |
| UserData.PageFires | common/lessons-data/src/main/java/app/ss/lessons/data/repository/user/UserDataRepositoryImpl.kt:189 | the write test of one page: no cached row for its key, or the remote page strictly newer than the cached row |
| UserData.PullPage | common/lessons-data/src/main/java/app/ss/lessons/data/repository/user/UserDataRepositoryImpl.kt:188-201 | one iteration of the `forEach`: when the test on the pre-loop snapshot passes, bulk-insert the page's rows into the current table, otherwise leave it |
| UserData.PullPages | common/lessons-data/src/main/java/app/ss/lessons/data/repository/user/UserDataRepositoryImpl.kt:187-203 | the whole `forEach`: the pulls of the remote pages in list order |
| UserData.PullPageEffect | common/lessons-data/src/main/java/app/ss/lessons/data/repository/user/UserDataRepositoryImpl.kt:188-201 | one page's pull writes that page's row exactly when there is no cached row for the key or the remote page is strictly newer, and the page has annotations; in every other case the table is unchanged |
| UserData.PullPagesStep | common/lessons-data/src/main/java/app/ss/lessons/data/repository/user/UserDataRepositoryImpl.kt:187 | the `forEach` over remote pages is the pull of the next page followed by the pulls of the rest |
| UserData.PullPageWellKeyed | common/lessons-data/src/main/java/app/ss/lessons/data/repository/user/UserDataRepositoryImpl.kt:188-201 | one page's pull keeps every row stored under its own page key |
| UserData.PullPagesWellKeyed | common/lessons-data/src/main/java/app/ss/lessons/data/repository/user/UserDataRepositoryImpl.kt:187-203 | the whole loop keeps every row stored under its own page key |
| UserData.PullPagesOutside | common/lessons-data/src/main/java/app/ss/lessons/data/repository/user/UserDataRepositoryImpl.kt:187-203 | rows whose key belongs to no remote page are untouched by the sync |
| UserData.PullPageSameAt | common/lessons-data/src/main/java/app/ss/lessons/data/repository/user/UserDataRepositoryImpl.kt:188-201 | at any key, a page's pull depends only on what the table holds at that key |
| UserData.PullPagesAtFirst | common/lessons-data/src/main/java/app/ss/lessons/data/repository/user/UserDataRepositoryImpl.kt:187-203 | with distinct page indexes, the later pages' pulls leave the first page's row as its own pull left it |
| UserData.PullPageFirstElsewhere | common/lessons-data/src/main/java/app/ss/lessons/data/repository/user/UserDataRepositoryImpl.kt:187-203 | with distinct page indexes, the first page's pull does not change how a later page's pull leaves that page's row |
| UserData.PullPagesAt | common/lessons-data/src/main/java/app/ss/lessons/data/repository/user/UserDataRepositoryImpl.kt:187-203 | with distinct page indexes, each page is handled independently: its row ends as that page's pull alone leaves it |
| UserData.SavedEntities | common/lessons-data/src/main/java/app/ss/lessons/data/repository/user/UserDataRepositoryImpl.kt:209-218 | one row per saved page, in order, each stored under its page key and carrying the PDF index, the page's annotations and its own clock reading |
| UserData.SavedRowsAt | common/lessons-data/src/main/java/app/ss/lessons/data/repository/user/UserDataRepositoryImpl.kt:206-219 | after a save of distinct pages, every page's key holds that page's row with its clock reading |
| UserData.UserDataRepository.GetHighlights | common/lessons-data/src/main/java/app/ss/lessons/data/repository/user/UserDataRepositoryImpl.kt:67-69 | the read value carries the asked `readIndex`; a missing row reads as `""`, a present row as its highlights |
| UserData.UserDataRepository.GetComments | common/lessons-data/src/main/java/app/ss/lessons/data/repository/user/UserDataRepositoryImpl.kt:117-119 | the read value carries the asked `readIndex`; a missing row reads as no comments, a present row as its comments |
| UserData.UserDataRepository.GetAnnotations | common/lessons-data/src/main/java/app/ss/lessons/data/repository/user/UserDataRepositoryImpl.kt:165-171 | the pages read for a PDF are exactly the (page index, annotations) pairs of the rows whose PDF index is `"$lessonIndex-$pdfId"`; with every row stored under its own page key, each page read has its row under `"$pdfIndex-$pageIndex"` |
| UserData.UserDataRepository.AnnotationPagesUnique | common/lessons-data/src/main/java/app/ss/lessons/data/repository/user/UserDataRepositoryImpl.kt:165-171 | with every row stored under its own page key, a PDF reads back at most one annotation list per page index |
| UserData.UserDataRepository.SyncHighlights | common/lessons-data/src/main/java/app/ss/lessons/data/repository/user/UserDataRepositoryImpl.kt:77-101 | a failed fetch changes nothing. On pull, the row becomes the remote payload and timestamp with no upload. On push, the cached payload is uploaded once and the table is unchanged. Otherwise nothing changes. The other tables never change |
| UserData.UserDataRepository.SaveHighlights | common/lessons-data/src/main/java/app/ss/lessons/data/repository/user/UserDataRepositoryImpl.kt:103-115 | the row for `readIndex` holds the payload stamped with the device time, one upload of the payload is logged, and a later read returns the saved payload |
| UserData.UserDataRepository.SyncComments | common/lessons-data/src/main/java/app/ss/lessons/data/repository/user/UserDataRepositoryImpl.kt:127-149 | the same pull/push/no-op outcomes as for highlights, on the comments table |
| UserData.UserDataRepository.SaveComments | common/lessons-data/src/main/java/app/ss/lessons/data/repository/user/UserDataRepositoryImpl.kt:151-163 | the row for `readIndex` holds the comments stamped with the device time, one upload is logged, and a later read returns the saved comments |
| UserData.UserDataRepository.SyncAnnotations | common/lessons-data/src/main/java/app/ss/lessons/data/repository/user/UserDataRepositoryImpl.kt:179-204 | a failed fetch or an absent body changes nothing. Otherwise the table is the page-by-page pull of the remote pages, each tested against the rows cached before the loop. Nothing is uploaded and the other tables are unchanged |
| UserData.UserDataRepository.SaveAnnotations | common/lessons-data/src/main/java/app/ss/lessons/data/repository/user/UserDataRepositoryImpl.kt:206-230 | the table is the bulk insert of one row per page, each stamped with its own clock reading; one upload of the page list is logged; with distinct pages, every saved page is read back for that PDF |
| UserData.UserDataRepository.Clear | common/lessons-data/src/main/java/app/ss/lessons/data/repository/user/UserDataRepositoryImpl.kt:232-239 | all three local tables are empty and nothing is uploaded |
| LessonInfo.ToInfoModel | common/lessons-data/src/main/java/app/ss/lessons/data/repository/lessons/LessonInfoDataSource.kt:83-97 | every field of the lesson row, its days and its PDFs are carried into the model unchanged |
| LessonInfo.IndexOf | common/lessons-data/src/main/java/app/ss/lessons/data/repository/lessons/LessonInfoDataSource.kt:69-71 | the position of the first occurrence of the character, or -1 exactly when it does not occur |
| LessonInfo.LastIndexOf | common/lessons-data/src/main/java/app/ss/lessons/data/repository/lessons/LessonInfoDataSource.kt:70-72 | the position of the last occurrence of the character, or -1 exactly when it does not occur |
| LessonInfo.SubstringBefore | common/lessons-data/src/main/java/app/ss/lessons/data/repository/lessons/LessonInfoDataSource.kt:69 | Kotlin's `substringBefore(c)`: the text before the first `c`, or the whole string when `c` is missing |
| LessonInfo.SubstringAfter | common/lessons-data/src/main/java/app/ss/lessons/data/repository/lessons/LessonInfoDataSource.kt:71 | Kotlin's `substringAfter(c)`: the text after the first `c`, or the whole string when `c` is missing |
| LessonInfo.SubstringBeforeLast | common/lessons-data/src/main/java/app/ss/lessons/data/repository/lessons/LessonInfoDataSource.kt:72 | Kotlin's `substringBeforeLast(c)`: the text before the last `c`, or the whole string when `c` is missing |
| LessonInfo.SubstringAfterLast | common/lessons-data/src/main/java/app/ss/lessons/data/repository/lessons/LessonInfoDataSource.kt:70 | Kotlin's `substringAfterLast(c)`: the text after the last `c`, or the whole string when `c` is missing |
| LessonInfo.SubstringSpec | common/lessons-data/src/main/java/app/ss/lessons/data/repository/lessons/LessonInfoDataSource.kt:69-72 | each helper returns a prefix or suffix of the string cut at the first or last `c`, with that `c` just outside it and no other `c` on the searched side; the whole string when `c` is missing |
| LessonInfo.PathOf | common/lessons-data/src/main/java/app/ss/lessons/data/repository/lessons/LessonInfoDataSource.kt:69-72 | the three path parts: language `substringBefore('-')`, quarterly id `substringAfter('-').substringBeforeLast('-')`, lesson id `substringAfterLast('-')` |
| LessonInfo.PathWithoutDash | common/lessons-data/src/main/java/app/ss/lessons/data/repository/lessons/LessonInfoDataSource.kt:69-72 | with no `'-'` in the index, language, quarterly id and lesson id all equal the whole index |
| LessonInfo.PathOuterParts | common/lessons-data/src/main/java/app/ss/lessons/data/repository/lessons/LessonInfoDataSource.kt:69-70 | with a `'-'`, the language is the text before the first dash and the lesson id the text after the last one, and neither contains a dash |
| LessonInfo.PathQuarterly | common/lessons-data/src/main/java/app/ss/lessons/data/repository/lessons/LessonInfoDataSource.kt:71-72 | with two or more dashes, the quarterly id is the text strictly between the first and the last dash |
| LessonInfo.PathCuts | common/lessons-data/src/main/java/app/ss/lessons/data/repository/lessons/LessonInfoDataSource.kt:69-72 | with two or more dashes, the three parts are the texts around two dash positions of the index |
| LessonInfo.PathRoundTrip | common/lessons-data/src/main/java/app/ss/lessons/data/repository/lessons/LessonInfoDataSource.kt:69-72 | with two or more dashes, `language + "-" + quarterlyId + "-" + lessonId` gives back the index |
| LessonInfo.PathOneDash | common/lessons-data/src/main/java/app/ss/lessons/data/repository/lessons/LessonInfoDataSource.kt:69-72 | with exactly one dash, `a-b` splits into language `a` and both quarterly id and lesson id `b` |
| LessonInfo.NetworkGetItem | common/lessons-data/src/main/java/app/ss/lessons/data/repository/lessons/LessonInfoDataSource.kt:65-80 | the call goes to the split path; the result is a success exactly when a body came back, and then holds that body; a thrown exception gives an error with its cause; an absent body gives the empty-message error; the result is never loading |
| LessonInfo.LessonInfoCache.GetItem | common/lessons-data/src/main/java/app/ss/lessons/data/repository/lessons/LessonInfoDataSource.kt:50-53 | loading exactly when the table has no row for the lesson index; otherwise success with the row's model; never an error; with every row stored under its own index, the model is for the asked lesson |
| LessonInfo.LessonInfoCache.UpdateItem | common/lessons-data/src/main/java/app/ss/lessons/data/repository/lessons/LessonInfoDataSource.kt:55-61 | only the row keyed by the lesson's index changes, and only its days and PDFs; every other row is unchanged; when that row existed a later read returns its model with the new days and PDFs, and when it did not the read stays loading |
| Reader.EqualsIgnoreCase | features/lessons/src/main/java/com/cryart/sabbathschool/lessons/ui/readings/SSReadingView.java:409 | `equalsIgnoreCase`: equal lengths, and each pair of characters equal, or equal after upper-casing, or equal after upper- then lower-casing (ASCII mapping) |
| Reader.EqualsIgnoreCaseProperties | features/lessons/src/main/java/com/cryart/sabbathschool/lessons/ui/readings/SSReadingView.java:409 | the element-id comparison is reflexive and symmetric, and ignores ASCII letter case |
| Reader.HasMatch | features/lessons/src/main/java/com/cryart/sabbathschool/lessons/ui/readings/SSReadingView.java:407-413 | the `found` flag after the loop: some comment's element id equals the input id ignoring case |
| Reader.ReplaceMatching | features/lessons/src/main/java/com/cryart/sabbathschool/lessons/ui/readings/SSReadingView.java:408-413 | the list after the loop: every matching comment has the received text, the others are as they were |
| Reader.MergedComments | features/lessons/src/main/java/com/cryart/sabbathschool/lessons/ui/readings/SSReadingView.java:407-419 | the list after `onCommentsClick`: the replaced list when some comment matched, otherwise the old list with `SSComment(inputId, text)` appended |
| Reader.MergedCommentsSpec | features/lessons/src/main/java/com/cryart/sabbathschool/lessons/ui/readings/SSReadingView.java:407-419 | with a matching id the list keeps its length, every matching comment takes the new text and every other comment is untouched; with none, the new comment is appended after the old list in order; either way the list records the text for that element |
| Reader.MergedCommentsIdempotent | features/lessons/src/main/java/com/cryart/sabbathschool/lessons/ui/readings/SSReadingView.java:407-419 | reporting the same text for the same element twice changes nothing the second time |
| Reader.MergeComments | features/lessons/src/main/java/com/cryart/sabbathschool/lessons/ui/readings/SSReadingView.java:407-419 | the loop with its `found` flag computes the merge specified above |
| Reader.HighlightCommand | features/lessons/src/main/java/com/cryart/sabbathschool/lessons/ui/readings/SSReadingView.java:297-305 | the highlight command keeps the colour and carries the id if and only if `highlightId > 0` |
| Reader.UnHighlightCommand | features/lessons/src/main/java/com/cryart/sabbathschool/lessons/ui/readings/SSReadingView.java:307-315 | the un-highlight command carries the id if and only if `highlightId > 0` |
| Reader.CommentCommands | features/lessons/src/main/java/com/cryart/sabbathschool/lessons/ui/readings/SSReadingView.java:337-341 | exactly one `setComment` command per comment, with its text and element id, in list order |
| Reader.ReadingView.constructor | features/lessons/src/main/java/com/cryart/sabbathschool/lessons/ui/readings/SSReadingView.java:79-83 | the view starts unfocused, with no context menu, no highlights or comments, and nothing sent or fired |
| Reader.ReadingView.SetReadHighlights | features/lessons/src/main/java/com/cryart/sabbathschool/lessons/ui/readings/SSReadingView.java:146-148 | the view's highlights become the given value; nothing else changes |
| Reader.ReadingView.SetReadComments | features/lessons/src/main/java/com/cryart/sabbathschool/lessons/ui/readings/SSReadingView.java:150-152 | the view's comments become the given value; nothing else changes |
| Reader.ReadingView.FocusIn | features/lessons/src/main/java/com/cryart/sabbathschool/lessons/ui/readings/SSReadingView.java:476-478 | `textAreaFocused` becomes true; nothing else changes |
| Reader.ReadingView.FocusOut | features/lessons/src/main/java/com/cryart/sabbathschool/lessons/ui/readings/SSReadingView.java:480-483 | `textAreaFocused` becomes false; nothing else changes |
| Reader.ReadingView.StartActionMode | features/lessons/src/main/java/com/cryart/sabbathschool/lessons/ui/readings/SSReadingView.java:121-126 | the selection-started callback fires once, `contextMenuShown` becomes true and the empty action mode is returned |
| Reader.ReadingView.StartTypedActionMode | features/lessons/src/main/java/com/cryart/sabbathschool/lessons/ui/readings/SSReadingView.java:113-119 | with a focused text area, the platform's mode is returned and nothing changes; otherwise it behaves as `startActionMode(callback)` |
| Reader.ReadingView.SelectionFinished | features/lessons/src/main/java/com/cryart/sabbathschool/lessons/ui/readings/SSReadingView.java:172-175 | the selection-finished callback fires once and `contextMenuShown` becomes false |
| Reader.ReadingView.UpdateHighlights | features/lessons/src/main/java/com/cryart/sabbathschool/lessons/ui/readings/SSReadingView.java:160-164 | sends one `setHighlights` command when the view has highlights, and nothing when it has none |
| Reader.ReadingView.SetComments | features/lessons/src/main/java/com/cryart/sabbathschool/lessons/ui/readings/SSReadingView.java:337-341 | appends exactly the per-comment commands, in list order |
| Reader.ReadingView.UpdateComments | features/lessons/src/main/java/com/cryart/sabbathschool/lessons/ui/readings/SSReadingView.java:166-170 | sends the per-comment commands when the view has comments, and nothing when it has none |
| Reader.ReadingView.HighlightSelection | features/lessons/src/main/java/com/cryart/sabbathschool/lessons/ui/readings/SSReadingView.java:297-305 | sends exactly one highlight command, in the form chosen by `highlightId > 0` |
| Reader.ReadingView.UnHighlightSelection | features/lessons/src/main/java/com/cryart/sabbathschool/lessons/ui/readings/SSReadingView.java:307-315 | sends exactly one un-highlight command, in the form chosen by `highlightId > 0` |
| Reader.ReadingView.OnCommentsClick | features/lessons/src/main/java/com/cryart/sabbathschool/lessons/ui/readings/SSReadingView.java:401-425 | a decode failure or a view without comments changes nothing and fires no callback. Otherwise the merged list is stored under the same `readIndex` and reported in exactly one callback |
| Readings.Outcome.GetOrNull | features/lessons/src/main/java/com/cryart/sabbathschool/lessons/ui/readings/ReadingsViewModel.kt:114-115 | a value exactly on success, and then the success value |
| Readings.InitialContent | features/lessons/src/main/java/com/cryart/sabbathschool/lessons/ui/readings/ReadingsViewModel.kt:103-107 | the default content when one is given; otherwise content for `readIndex` with no comments and empty highlights, both for `readIndex` |
| Readings.Combine | features/lessons/src/main/java/com/cryart/sabbathschool/lessons/ui/readings/ReadingsViewModel.kt:108-116 | the combined value keeps `readIndex`, takes each stream's value on success and the initial value's part on failure |
| Readings.CombineOfFailures | features/lessons/src/main/java/com/cryart/sabbathschool/lessons/ui/readings/ReadingsViewModel.kt:103-116 | when both streams fail and the default content, if any, is for `readIndex`, the combined value is the initial value |
| Readings.CombineKeepsReading | features/lessons/src/main/java/com/cryart/sabbathschool/lessons/ui/readings/ReadingsViewModel.kt:103-116 | when the default and the successful values are for `readIndex`, both parts of every combined value are for `readIndex` |
| Models.Resource.Data | features/lessons/src/main/java/com/cryart/sabbathschool/lessons/ui/readings/ReadingsViewModel.kt:82 | a resource's data is present exactly when it is a success |
| Readings.IsAvailable | features/lessons/src/main/java/com/cryart/sabbathschool/lessons/ui/readings/ReadingsViewModel.kt:82-86 | available exactly when the data is present and non-empty |
| Readings.PdfsOf | features/lessons/src/main/java/com/cryart/sabbathschool/lessons/ui/readings/ReadingsViewModel.kt:90 | the lesson's PDFs when the lesson info has data, the empty list otherwise |
| Readings.ReadingsViewModel.constructor | features/lessons/src/main/java/com/cryart/sabbathschool/lessons/ui/readings/ReadingsViewModel.kt:59-94 | without a lesson index no flag or PDF list is set; with one, the audio and video flags are the availability of what the repositories return for that index, the PDF list is that index paired with its PDFs, and `pdfAvailable` holds exactly when that list is non-empty |

## Left out

- Coroutines, flows and dispatchers (`launch`, `withContext`, `onStart`, `flowOn`, `catch`, `combine`, `stateIn`): sync and save are sequential method calls. The order in which a read and the sync it starts interleave is not modelled.
- `safeApiCall`, connectivity, Retrofit and HTTP are one fetch outcome, success with an optional body or failure. An upload is a logged request whose outcome is not modelled. The server's copy appears only through that outcome, so there is no remote table.
- Room DAOs are maps. `updateInfo` on a lesson index with no row is taken to change nothing. The annotation read returns a set of pages, because the DAO's row order is not visible.
- The `Result.failure` emitted by the `catch` of `getHighlights`/`getComments`/`getAnnotations` is not modelled. The combine rule takes `Result` values as inputs.
- `ssPrefs.clear()` in `clear`: preferences are not part of this model.
- The `DataSourceMediator`, `LocalDataSource` and `DataSource` base classes are not part of this model. Their fall-through between cache and network is left out.
- The source of the app's `Resource` class is not shown here. `Models.Resource` is a datatype standing in for it, and it assumes that `data` is present only for a success.
- The timestamp that `SSReadHighlights`/`SSReadComments` carry is not part of this model, because the data classes are not shown. Remote bodies are modelled as a value with a timestamp. `SSReadHighlights(readIndex)` is taken to default its highlights to `""`.
- Base64 decoding, `loadUrl` and the JavaScript command strings are left out. The decoded text is an input, absent when decoding throws. A command is a value naming the call and its arguments.
- Reader.EqualsIgnoreCaseProperties: case folding covers only ASCII letters, not Java's full Unicode `equalsIgnoreCase`.
- Reader.ReadingView.OnCommentsClick: the comments are replaced as a value. Java mutates the shared `SSComment` objects in place, and that aliasing is not modelled. A null `highlightsCommentsCallback` is not modelled: it would throw after the merge was stored, the catch block would swallow it, and no callback would fire.
- Reader.ReadingView.StartActionMode: a null `contextMenuCallback` is not modelled. It would throw before `contextMenuShown` is set, leaving the flag as it was, and nothing catches it.
- Reader.ReadingView.SelectionFinished: a null `contextMenuCallback` is not modelled. It would throw before `contextMenuShown` is cleared, leaving the flag as it was, and nothing catches it.
- Touch coordinates (`lastTouchX`/`lastTouchY`, floats), gesture detection, the clipboard, search, share, `onVerseClick`, `onHighlightClicked`, `onReceiveHighlights` and display options are view plumbing outside this core.
- `lessonsRepository.checkReaderArtifact()` and `publishingInfo` in `ReadingsViewModel`: their repositories are not part of this model.
- The toolbar scroll and alpha arithmetic (`ToolbarComponent.kt`) and the Compose UI, pager glue and application set-up files are floating-point UI code outside this core.
- `QuarterliesViewModelTest.kt` tests `QuarterliesViewModel`, which is not part of this model.
- `nowEpochMilli()` is any `Long` the caller supplies. Clock skew is not modelled.
