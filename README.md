# amy-main core logic in Dafny

This project models the self-contained logic inside a personal Next.js site with three apps.

- **Greek vocabulary tracker.** It has:
  - a weekly learning-streak report;
  - a word-frequency analyser;
  - a historical word-count chart;
  - the vocabulary `POST` route and the add-words form;
  - the searchable word list;
  - per-category statistics;
  - a multiple-choice quiz.
- **Solstra game.** A dragon whose food slots regenerate every eight hours and are used up by feeding. It also has:
  - the temple page that shows and feeds the dragon;
  - the line pickers;
  - the dialogue box's underscore emphasis.
- **Lebre habit boards and the Quiz Maker.** The boards are split into done, skipped and still-to-do sections, and each section follows a saved order. The Quiz Maker lets a saved quiz be starred. Each app also has a tab bar whose active tab follows the URL.

## How the model is built

Everything that needs the database, the network, the clock, the time zone or `Math.random()` is a parameter:

- Rows are passed in as values.
- "Now" is a number: integer milliseconds for the dragon and the chart, and a day number for the weekly streaks.
- Locale date formatting is a function parameter.
- Each random draw is a natural-number choice.

What mutates state in the source is a Dafny class or method:

- the dragon row (`SolstraHelpers.DragonState`);
- the pages' React state (`AddWords.AddWordsForm`, `AnalyzeText.AnalyzeTextPage`, `HistoricalChart.HistoricalChartPage`, `Quiz.QuizPage`, `TemplePage.Temple`);
- the loops that fill arrays or dictionaries (`CalculateCurrentStreak`, `CalculateLongestStreak`, `GetUserVocabularyStats`, `DailyHistory`, `GenerateQuestion`, `PartitionBoards`, `FilterSortBoardsInSection`, `CopyEntries`).

Each loop is proved against a specification function, and the lemmas state what that function means.

Expression-only code is Dafny functions with lemmas. Shared pieces live in their own modules:

- `Common`: Option and Result, JavaScript's truncating `%`, and `Math.floor` division.
- `Text`: `\s` white space, `trim`, a `toLowerCase` covering Basic Latin, Latin-1 Supplement, Latin Extended-A (U+0000–U+017F), the Greek and Coptic block (U+0370–U+03FF) and Greek Extended (U+1F00–U+1FFF), with the word-final sigma, `includes`, number printing.
- `Tally`: the `acc[k] = (acc[k] || 0) + 1` dictionary, kept in insertion order.
- `Sorting`: a stable sort by an integer key.
- `Calendar`: day numbers, weekdays and month lengths.

## Model

| member | source | states |
|---|---|---|
| Sorting.SortDescending | app/api/greek-weekly-streaks/route.ts:55-58 | the weeks sorted newest first, a permutation of the rows |
| Sorting.SortAscending | app/api/greek-weekly-streaks/route.ts:91-93 | the weeks sorted oldest first, a permutation of the rows |
| WeeklyStreaks.GetWeekStart | app/api/greek-weekly-streaks/route.ts:116-121 | the result is a Monday 0 to 6 days on or before the date; a Sunday goes back 6 days |
| WeeklyStreaks.CalculateCurrentStreak | app/api/greek-weekly-streaks/route.ts:47-86 | the loop over the descending-sorted weeks returns `CurrentStreak`, with "now" as a day number |
| WeeklyStreaks.CountStreak | app/api/greek-weekly-streaks/route.ts:60-83 | the loop over the rows sorted newest first counts the run from this Monday, or from last Monday when the newest row is last week's |
| WeeklyStreaks.RunFromMeaning | app/api/greek-weekly-streaks/route.ts:60-67 | the counted rows are exactly this Monday, then 7, 14, … days earlier, and the next row misses its expected Monday |
| WeeklyStreaks.DuplicateEndsRun | app/api/greek-weekly-streaks/route.ts:60-83 | a repeated week in the sorted rows ends the run at the repeat |
| WeeklyStreaks.CurrentStreakEmpty | app/api/greek-weekly-streaks/route.ts:48 | no rows give a current streak of 0 |
| WeeklyStreaks.CurrentStreakFromThisWeek | app/api/greek-weekly-streaks/route.ts:63-66 | when the newest row is this week's Monday, counting starts there and the streak is at least 1 |
| WeeklyStreaks.CurrentStreakFromLastWeek | app/api/greek-weekly-streaks/route.ts:69-79 | when the newest row is last week's Monday, counting starts at last week and the streak is at least 1 |
| WeeklyStreaks.CurrentStreakBroken | app/api/greek-weekly-streaks/route.ts:69-81 | a newest row that is neither this week's nor last week's Monday, a future week included, gives 0 |
| WeeklyStreaks.CurrentStreakBounded | app/api/greek-weekly-streaks/route.ts:60-85 | the current streak never exceeds the number of rows |
| WeeklyStreaks.RunEndingAt | app/api/greek-weekly-streaks/route.ts:105-110 | the running counter at row i lies between 1 and i + 1 |
| WeeklyStreaks.MaxRun | app/api/greek-weekly-streaks/route.ts:95-111 | the running maximum over the first n rows lies between 1 and n |
| WeeklyStreaks.CalculateLongestStreak | app/api/greek-weekly-streaks/route.ts:88-114 | the loop returns `LongestStreak`: 0 for no rows, else the maximum run over the ascending rows |
| WeeklyStreaks.RunEndingAtMeaning | app/api/greek-weekly-streaks/route.ts:98-111 | the running counter is the length of the longest chain of 7-day steps ending at that row |
| WeeklyStreaks.MaxRunMeaning | app/api/greek-weekly-streaks/route.ts:98-113 | the running maximum is attained by some chain of 7-day steps, and no chain among those rows is longer |
| WeeklyStreaks.LongestStreakMeaning | app/api/greek-weekly-streaks/route.ts:88-114 | for non-empty input the longest streak is between 1 and the row count; some run of exactly-7-day steps has that length and none is longer |
| WeeklyStreaks.LongestStreakEmpty | app/api/greek-weekly-streaks/route.ts:89 | no rows give a longest streak of 0 |
| WeeklyStreaks.Get | app/api/greek-weekly-streaks/route.ts:28-36 | the response holds both streaks and `totalActiveWeeks`, the number of active rows returned |
| WeeklyStreaks.GetWeekStartMs | app/api/greek-weekly-streaks/route.ts:50-51 | as written, the Monday computed from `new Date()` keeps the current time of day |
| WeeklyStreaks.AsWrittenZeroOffMidnight | app/api/greek-weekly-streaks/route.ts:50-81 | as written, any request not at exactly midnight gets a current streak of 0 |
| WeeklyStreaks.AsWrittenMissesThisWeek | app/api/greek-weekly-streaks/route.ts:63 | a row for this very week, at 01:00 on its Monday, counts 1 in the corrected model and 0 as written |
| WeeklyStreaks.AsWrittenAtMidnight | app/api/greek-weekly-streaks/route.ts:47-86 | at exactly midnight the code as written agrees with the day-number model |
| SolstraHelpers.CalculateCurrentFoodSlots | utils/supabase/solstra/helpers.ts:89-106 | slots = min(stored + floor(elapsed / 8 h), 3); for a clock not behind the stored time, the time to the next slot lies in (0, 8 h] and completes an 8-hour period |
| SolstraHelpers.CurrentSlotsMonotonic | utils/supabase/solstra/helpers.ts:93-99 | the shown slot count never falls as the clock moves forward |
| SolstraHelpers.DragonState.Create | utils/supabase/solstra/helpers.ts:63-71 | a new row has 3 food slots, status index 0 and both clocks at now |
| SolstraHelpers.DragonState.UpdateFoodSlots | utils/supabase/solstra/helpers.ts:111-135 | the new slot count is stored and the slot clock restarts unless timing is preserved; the status fields are unchanged |
| SolstraHelpers.DragonState.Feed | utils/supabase/solstra/helpers.ts:140-152 | with no slot shown it fails with "No food slots available" and writes nothing; otherwise it stores current − 1 and restarts the clock only when feeding from 3 |
| SolstraHelpers.DragonState.FeedKeepingProgress | utils/supabase/solstra/helpers.ts:140-152 | corrected feed: afterwards exactly one slot fewer is shown, and from 1 or 2 slots the time to the next slot is kept |
| SolstraHelpers.DragonState.DebugAddFoodSlot | utils/supabase/solstra/helpers.ts:276-285 | stores min(current + 1, 3) and restarts the slot clock |
| SolstraHelpers.DragonState.CurrentStatusIndex | utils/supabase/solstra/helpers.ts:241-271 | after at least an hour the index rises by exactly 1 (missing counts as 0) and the change time becomes now; a missing change time never triggers a bump; the returned index is the stored one |
| SolstraHelpers.FeedFromFull | utils/supabase/solstra/helpers.ts:149-151 | feeding a full dragon shows 2 slots at the same instant, with a full 8 hours to the next |
| SolstraHelpers.FeedRecountsElapsed | utils/supabase/solstra/helpers.ts:148-151 | feeding from 1 or 2 after a full period shows more than current − 1 slots on the next read |
| SolstraHelpers.FeedRecountExample | utils/supabase/solstra/helpers.ts:93-99 | stored 0 after 17 h shows 2; once 1 is stored after feeding, 3 are shown |
| SolstraHelpers.GameDay | utils/supabase/solstra/helpers.ts:35-47 | the game date is the Eastern date, moved to the next day exactly when the Eastern hour is 23 or later |
| SolstraHelpers.GameDayIsOneHourAhead | utils/supabase/solstra/helpers.ts:39-46 | the game date equals the calendar date one hour later |
| AnalyzeText.Normalise | app/greek-word-counter/analyze-text/page.tsx:20-22 | lower-casing and punctuation replacement keep the length; a character becomes white space exactly when it was white space or listed punctuation, and every other character is the lower-cased text, a word character |
| AnalyzeText.WordsSplit | app/greek-word-counter/analyze-text/page.tsx:23-24 | white space separates words: the words of two texts joined by white space are the words of the first, then those of the second |
| AnalyzeText.WordsOfWord | app/greek-word-counter/analyze-text/page.tsx:23-24 | a non-empty run without white space is exactly one word; with WordsSplit and AllSpaceNoWords this fixes the words of every text |
| AnalyzeText.TokenizeSplit | app/greek-word-counter/analyze-text/page.tsx:20-24 | the tokens of two texts joined by white space are the tokens of the first, then those of the second (lower-casing never looks across white space) |
| AnalyzeText.FinalSigmaCountedOnce | app/greek-word-counter/analyze-text/page.tsx:20-24 | "ΛΟΓΟΣ λογος" gives the token "λογος" twice: a capital word with final sigma and its lower-case spelling are one word |
| AnalyzeText.AllSpaceNoWords | app/greek-word-counter/analyze-text/page.tsx:23-24 | text of white space only splits into no words |
| AnalyzeText.BlankTextHasNoWords | app/greek-word-counter/analyze-text/page.tsx:12-17 | text that trims to empty has no tokens |
| AnalyzeText.SingleWord | app/greek-word-counter/analyze-text/page.tsx:20-24 | a run of word characters is its own single token |
| AnalyzeText.SortedWords | app/greek-word-counter/analyze-text/page.tsx:37 | the entries are a permutation of the counts in non-increasing count order, each word listed once |
| AnalyzeText.CountLabel | app/greek-word-counter/analyze-text/page.tsx:112 | the label starts with the count in decimal (reading back as the count), then " time" or " times"; it ends in "s" exactly when the count is not 1 |
| AnalyzeText.AnalyzeTextPage.constructor | app/greek-word-counter/analyze-text/page.tsx:6-9 | empty text, no counts, zero totals |
| AnalyzeText.AnalyzeTextPage.SetText | app/greek-word-counter/analyze-text/page.tsx:52 | only the text changes |
| AnalyzeText.CountWords | app/greek-word-counter/analyze-text/page.tsx:26-30 | the `forEach` loop over the words builds exactly `TallyOf(words)`, whose counts and key order `Tally.TallyOfLookup` and `Tally.TallyOfKeys` state |
| AnalyzeText.AnalyzeTextPage.Analyze | app/greek-word-counter/analyze-text/page.tsx:11-35 | the counts are the frequency of the tokens, `totalWords` is the token count and `uniqueWords` the number of keys; blank text gives none |
| AnalyzeText.AnalyzeTextPage.Clear | app/greek-word-counter/analyze-text/page.tsx:64-69 | text, counts and both totals are reset |
| AnalyzeText.FrequencyCounts | app/greek-word-counter/analyze-text/page.tsx:26-30 | each word's count is its number of occurrences, and only words of the text are keys |
| AnalyzeText.FrequencyTotals | app/greek-word-counter/analyze-text/page.tsx:26-37 | the counts sum to `totalWords`; `uniqueWords` is the number of distinct tokens and at most `totalWords`; sorted words are distinct |
| AnalyzeText.AsNumbers | app/greek-word-counter/analyze-text/page.tsx:26-30 | each corrected count becomes a numeric object value under the same key, in the same order |
| AnalyzeText.PrototypeNamesMiscounted | app/greek-word-counter/analyze-text/page.tsx:26-30 | as written, "constructor" is counted as a string and "__proto__" is a token but no key |
| AnalyzeText.OwnBumpAgrees | app/greek-word-counter/analyze-text/page.tsx:29 | for any word other than "constructor", the object's increment matches the corrected one |
| AnalyzeText.AsWrittenAgreesElsewhere | app/greek-word-counter/analyze-text/page.tsx:26-30 | without the two inherited names the object as written holds the corrected counts |
| HistoricalChart.Bucket | app/greek-word-counter/historical-chart/page.tsx:96-110 | "just now" below a minute; minutes below an hour, hours below a day, days below 30 days, else 30-day months; the amount is the floor of the difference in that unit and at least 1 |
| HistoricalChart.PluralIffMany | app/greek-word-counter/historical-chart/page.tsx:106-109 | the text ends in "s ago" exactly when the shown number is above 1 |
| HistoricalChart.DailyHistory | app/greek-word-counter/historical-chart/page.tsx:133-139 | the reduce loop returns `DailyHistoryOf`, one step per entry |
| HistoricalChart.KeepFind | app/greek-word-counter/historical-chart/page.tsx:135-136 | one reduce step sets the date's entry to the new one exactly when the date is new or the new entry is strictly later |
| HistoricalChart.KeepDates | app/greek-word-counter/historical-chart/page.tsx:133-139 | one reduce step adds the date if new and keeps dates distinct |
| HistoricalChart.DailyHistoryDates | app/greek-word-counter/historical-chart/page.tsx:133-139 | the collapsed history has one row per date, for exactly the dates that occur |
| HistoricalChart.DailyHistoryLatest | app/greek-word-counter/historical-chart/page.tsx:133-139 | each date's row is an entry of that date, and no entry of that date is later |
| HistoricalChart.DailyHistoryArray | app/greek-word-counter/historical-chart/page.tsx:141-143 | the rows are a permutation of the collapsed history, sorted by recorded time, latest first |
| HistoricalChart.ChangesTelescope | app/greek-word-counter/historical-chart/page.tsx:234-236 | the changes from a row on sum to that row's count minus the oldest row's |
| HistoricalChart.ChangeBadge | app/greek-word-counter/historical-chart/page.tsx:243-249 | no badge for 0; a "+" and green exactly for growth, a "-" exactly for a drop |
| HistoricalChart.Overview | app/greek-word-counter/historical-chart/page.tsx:234-236 | at most 10 rows, each with its change against the next row (0 for the last) |
| HistoricalChart.HistoricalChartPage.constructor | app/greek-word-counter/historical-chart/page.tsx:22-26 | empty history, never updated, loading |
| HistoricalChart.HistoricalChartPage.FetchHistory | app/greek-word-counter/historical-chart/page.tsx:46-61 | a successful fetch replaces the history and, if non-empty, sets "Last Updated" to its first row's time; loading ends either way |
| HistoricalChart.HistoricalChartPage.UpdateChart | app/greek-word-counter/historical-chart/page.tsx:75-94 | the history is refetched only after a successful post; the updating flag is clear at the end |
| HistoricalChart.LastUpdatedText | app/greek-word-counter/historical-chart/page.tsx:184-190 | "Never updated" exactly when there is no time |
| GreekVocabularyRoute.Post | app/api/greek-vocabulary/route.ts:29-81 | an entry is created exactly for an object body whose three words are truthy strings, whose given enums are allowed, and whose insert succeeds; stored enums are allowed values |
| GreekVocabularyRoute.MissingFieldsFirst | app/api/greek-vocabulary/route.ts:37-41 | a missing or empty required field gives 400, before the enum checks |
| GreekVocabularyRoute.BadWordTypeRefused | app/api/greek-vocabulary/route.ts:43-50 | a given word type outside the six gives 400 with the listed types |
| GreekVocabularyRoute.BadKnowledgeLevelRefused | app/api/greek-vocabulary/route.ts:44-56 | a given level outside the four gives 400, after the word type has passed |
| GreekVocabularyRoute.AcceptedEntry | app/api/greek-vocabulary/route.ts:58-64 | the three words are stored trimmed; a falsy word type becomes "noun" and a falsy level "Moderate know" |
| GreekVocabularyRoute.StringBodyAccepted | app/api/greek-vocabulary/route.ts:37-72 | a body of non-empty strings with allowed enums is stored trimmed, as given |
| GreekVocabularyRoute.WhitespaceOnlyStoredEmpty | app/api/greek-vocabulary/route.ts:37-61 | white space alone passes the presence check and is stored as "" |
| AddWords.ErrorText | app/greek-word-counter/add-words/page.tsx:47 | the route's error when it has one, else "Failed to add word" |
| AddWords.AddWordsForm.constructor | app/greek-word-counter/add-words/page.tsx:6-14 | empty words, "noun", "Moderate know", not submitting, no message |
| AddWords.AddWordsForm.HandleInputChange | app/greek-word-counter/add-words/page.tsx:19-22 | only the named field changes |
| AddWords.AddWordsForm.HandleSubmit | app/greek-word-counter/add-words/page.tsx:24-67 | a field blank after trim gives an error and no request; otherwise the form is posted, reset on success, kept with the error on failure, and not submitting afterwards |
| AddWords.AddWordsForm.ShowResponse | app/greek-word-counter/add-words/page.tsx:45-66 | success resets to the defaults with a success message; failure keeps the form and shows the error; `isSubmitting` ends false |
| AddWords.AddWordsForm.HandleClear | app/greek-word-counter/add-words/page.tsx:69-78 | defaults restored and the message cleared |
| AddWords.CompleteFormAccepted | app/greek-word-counter/add-words/page.tsx:28-43 | a complete form with offered select values is created by the route, trimmed |
| AddWords.FormStricterThanRoute | app/greek-word-counter/add-words/page.tsx:28-31 | white space alone is refused by the form, though the route would store it |
| GreekWordsPage.Filtered | app/greek-word-counter/page.tsx:48-55 | an entry is kept exactly when each lower-cased field contains its lower-cased search, in vocabulary order and as often as it occurs there |
| GreekWordsPage.EmptySearchShowsAll | app/greek-word-counter/page.tsx:49-53 | three empty searches keep the whole vocabulary |
| GreekWordsPage.SearchIgnoresCase | app/greek-word-counter/page.tsx:50-52 | lower-casing the search strings first changes nothing |
| GreekWordsPage.ShowingAllMeansAll | app/greek-word-counter/page.tsx:169-172 | when the page says "Showing all words", the list is the whole vocabulary |
| GreekWordsPage.KnowledgeColor | app/greek-word-counter/page.tsx:57-65 | anything but the four levels gets the gray default |
| GreekWordsPage.KnowledgeColorsDistinct | app/greek-word-counter/page.tsx:57-65 | the four levels get four distinct classes, none of them the default |
| GreekWordsPage.WordTypeColor | app/greek-word-counter/page.tsx:67-77 | "other" and unknown types get the same gray class |
| GreekWordsPage.WordTypeColorsDistinct | app/greek-word-counter/page.tsx:67-77 | distinct named types other than "other" get distinct classes |
| Vocabulary.FilterEntries | app/greek-word-counter/page.tsx:49-53 | the kept entries are exactly those satisfying the test, each as often as in the input, as an order-preserving subsequence |
| Vocabulary.FilterKeepAll | app/greek-word-counter/page.tsx:49-54 | a test every entry passes keeps the list as it is |
| GreekHelpers.GetUserVocabularyStats | utils/supabase/greek/helpers.ts:213-239 | no vocabulary gives no stats; otherwise the loop returns the word count and both tallies |
| GreekHelpers.StatsCount | utils/supabase/greek/helpers.ts:226-232 | each key's count is the number of entries with that value, and only occurring values are keys |
| GreekHelpers.StatsSums | utils/supabase/greek/helpers.ts:229-235 | `totalWords` is the entry count, both tallies sum to it, and no key counts zero |
| GreekHelpers.EmptyVocabularyStats | utils/supabase/greek/helpers.ts:226-238 | an empty vocabulary gives 0 words and no keys |
| Quiz.FindIndex | app/greek-word-counter/quiz/page.tsx:71 | `findIndex`: the first index with the id, or −1 when none has it |
| Quiz.Shuffle | app/greek-word-counter/quiz/page.tsx:76 | the shuffled options are a permutation of the answers |
| Quiz.GenerateQuestion | app/greek-word-counter/quiz/page.tsx:51-84 | distinct wrong answers, at most 3, drawn from entries with another id; options permute wrong answers plus the correct one (English for Greek-to-English, Greek otherwise); with unique ids, fewer than 3 means every other entry was used |
| Quiz.SpliceKeeps | app/greek-word-counter/quiz/page.tsx:71 | with unique ids the splice removes the drawn entry and keeps every other |
| Quiz.QuizPage.constructor | app/greek-word-counter/quiz/page.tsx:22-31 | no quiz running, 10 questions by default |
| Quiz.QuizPage.StartQuiz | app/greek-word-counter/quiz/page.tsx:86-94 | fewer than 4 words change nothing; otherwise question 1 of a new game, score 0, not complete |
| Quiz.QuizPage.SelectAnswer | app/greek-word-counter/quiz/page.tsx:239 | an option is selected only while no result is shown |
| Quiz.QuizPage.SubmitAnswer | app/greek-word-counter/quiz/page.tsx:96-104 | nothing without a selection or question; otherwise the result shows and the score rises by 1 exactly for the correct answer |
| Quiz.QuizPage.NextQuestion | app/greek-word-counter/quiz/page.tsx:110-121 | the result and selection are cleared; at the last question the game completes, else the number rises by 1 with a new question |
| Quiz.QuizPage.ResetQuiz | app/greek-word-counter/quiz/page.tsx:123-131 | back to the idle state |
| Quiz.QuizPage.SetTotalQuestions | app/greek-word-counter/quiz/page.tsx:184-192 | on the start screen the chosen option (5, 10, 15 or 20) becomes the quiz length and nothing else changes |
| LebreHome.LastValue | app/lebre/page.tsx:13-15 | a key has a value exactly when some form entry has that name |
| LebreHome.ObjectOfMeaning | app/lebre/page.tsx:13-15 | the copied object's keys are the form's names, each holding its last value |
| LebreHome.CopyEntries | app/lebre/page.tsx:12-15 | the loop's object holds exactly the form's names with their last values |
| LebreHome.FormatDayNoteForSupabase | app/lebre/page.tsx:10-20 | all form fields, then `user_id` and `created_day` set over any form values |
| LebreHome.SubmitBoardDay | app/lebre/page.tsx:103-123 | with a user, the inserted row is the form plus `created_day` = today and `done` = true for done or false for skip; no row without a user |
| LebreHome.Classify | app/lebre/page.tsx:62-86 | a today entry decides done or skip whatever the section; otherwise sections A and B, and anything else is invalid |
| LebreHome.PartitionBoards | app/lebre/page.tsx:58-88 | the loop throws "LebreHomePage: Invalid `board` in `boards`" exactly when an unmarked board is outside A and B; else it returns the four lists |
| LebreHome.PartitionSizes | app/lebre/page.tsx:58-88 | without invalid boards the four lists hold as many boards as the input |
| LebreHome.MarksMeaning | app/lebre/page.tsx:62-73 | a board marked done (skipped) is in the done (skip) list with its entry's id and notes, and every listed mark comes from one |
| LebreHome.RemainingMeaning | app/lebre/page.tsx:74-84 | an unmarked board is in its own section's list, and each listed board is one |
| LebreHome.RemainingKeepsOrder | app/lebre/page.tsx:59-87 | the section lists keep the input order |
| LebreHome.MarksKeepOrder | app/lebre/page.tsx:59-87 | the done and skip lists keep the input order |
| LebreHome.FilterSortBoardsInSection | app/lebre/page.tsx:34-47 | no ordering returns the boards as they are; with one, slot i holds the record's board for `ordering[i]` or is empty |
| LebreHome.IdRecordMeaning | app/lebre/page.tsx:40-42 | the id record has exactly the boards' ids, each mapped to a board with that id |
| LebreHome.OrderedSlots | app/lebre/page.tsx:40-47 | with unique ids, slot i is the board whose id is `ordering[i]`, empty if none; boards left out of the ordering are dropped |
| QuizMakerHome.ToggleTwice | app/quiz-maker/page.tsx:47 | two clicks leave a quiz starred exactly when it was starred before; a null star comes back as false |
| QuizMakerHome.WithStar | app/quiz-maker/page.tsx:55-59 | the optimistic update changes only the matching quiz's star, keeping length, order and every other field |
| QuizMakerHome.ToggleStar | app/quiz-maker/page.tsx:40-64 | no local change when the PATCH is not ok |
| QuizMakerHome.Starred | app/quiz-maker/page.tsx:129 | exactly the quizzes starred true |
| QuizMakerHome.Unstarred | app/quiz-maker/page.tsx:130 | exactly the quizzes not starred true, false and null alike |
| QuizMakerHome.StarPartition | app/quiz-maker/page.tsx:129-130 | the two lists together hold every saved quiz exactly as often as the whole list |
| QuizMakerHome.StarredKeepsOrder | app/quiz-maker/page.tsx:129 | the starred list keeps the saved order |
| QuizMakerHome.UnstarredKeepsOrder | app/quiz-maker/page.tsx:130 | the unstarred list keeps the saved order |
| QuizMakerHome.ToggleMovesQuiz | app/quiz-maker/page.tsx:55-59 | after an accepted click a quiz moves to the other list |
| TemplePage.TimeParts | app/solstra/temple/page.tsx:38-41 | for a non-negative time, minutes < 60 and hours · 60 + minutes = floor(ms / 60000) |
| TemplePage.FormatTimeRemaining | app/solstra/temple/page.tsx:38-47 | "Hh Mm" when there is at least a whole hour, else "Mm" |
| TemplePage.FormatTimeRemainingExamples | app/solstra/temple/page.tsx:38-47 | 8 h shows "8h 0m", 90 min 59 s shows "1h 30m", and 59 min 59.999 s shows "59m" |
| TemplePage.SlotPictures | app/solstra/temple/page.tsx:186-190 | slot i of 3 is filled exactly when i < current slots |
| TemplePage.FilledSlots | app/solstra/temple/page.tsx:186-190 | as many pictures are filled as slots are shown, clamped to 0..3 |
| TemplePage.NextHintWhileNotFull | app/solstra/temple/page.tsx:178-180 | for a clock not behind the stored time, "Next in" shows exactly while the dragon is not full |
| TemplePage.FeedButtonLabelsDistinct | app/solstra/temple/page.tsx:200-202 | the feeding, not-hungry and feed labels differ, and two feed labels are equal only for equal slot counts |
| TemplePage.Temple.constructor | app/solstra/temple/page.tsx:20-33 | nothing loaded, no slots, not feeding, modal hidden |
| TemplePage.Temple.LoadDragonState | app/solstra/temple/page.tsx:50-67 | without a user nothing changes; otherwise the slots and time to next come from the row, the status index and change time advance once an hour has passed, and the status line comes from the new index |
| TemplePage.Temple.HandleFeedDragon | app/solstra/temple/page.tsx:86-102 | nothing without a user, with no slot or while feeding; otherwise a successful feed, through the corrected transition, shows exactly one slot fewer, reloads the row, advances the status, shows the feeding line, and from 1 or 2 slots keeps the time to the next slot; the flag is clear at the end |
| TemplePage.Temple.Tick | app/solstra/temple/page.tsx:127-142 | the minute timer sets the slots and time to next from the loaded row; when a slot has regenerated it reloads the row instead, taking slots, time and status from the stored dragon |
| GameContent.PickLine | utils/solstra/game-content.ts:11 | a draw over a non-empty list returns one of its elements, and none over an empty list |
| GameContent.EveryLineReachable | utils/solstra/game-content.ts:11 | every element can be drawn |
| GameContent.RandomStandingLine | utils/solstra/game-content.ts:9-12 | the line is one of the standing endings |
| GameContent.RandomGreetingLine | utils/solstra/game-content.ts:17-23 | a missing or empty list gives "<name> greets you warmly.", else one of the character's greetings |
| GameContent.RandomHarvestLine | utils/solstra/game-content.ts:28-34 | a missing or empty list gives "<name> offers you something from their harvest.", else one of the lines |
| GameContent.RandomHarvestItem | utils/solstra/game-content.ts:39-45 | a missing or empty list gives "Something nice", else one of the items |
| GameContent.StatusLineByIndex | utils/solstra/game-content.ts:65-68 | for index ≥ 0 and a non-empty table, `lines[index % len]`, always an element of the table |
| GameContent.StatusLinePeriodic | utils/solstra/game-content.ts:67 | index and index + len give the same line |
| GameContent.NegativeIndexUndefined | utils/solstra/game-content.ts:67 | a negative index off a multiple of the length finds no line |
| DialogueBox.Split | app/solstra/components/DialogueBox.tsx:22 | the split has an odd number of parts, captures at the odd positions |
| DialogueBox.SplitRejoins | app/solstra/components/DialogueBox.tsx:22 | joining the parts gives back the text |
| DialogueBox.SplitCaptures | app/solstra/components/DialogueBox.tsx:22 | every captured part is an underscore, underscore-free characters, and an underscore |
| DialogueBox.SplitNoUnderscore | app/solstra/components/DialogueBox.tsx:22-29 | text without an underscore is one plain part |
| DialogueBox.ProcessPart | app/solstra/components/DialogueBox.tsx:23-28 | a part is emphasised exactly when it starts and ends with "_", with the outer underscores removed; other parts are unchanged |
| DialogueBox.ProcessText | app/solstra/components/DialogueBox.tsx:21-30 | one piece per split part, each processed as above |
| DialogueBox.CapturedEmphasised | app/solstra/components/DialogueBox.tsx:22-26 | each captured segment is emphasised with non-empty, underscore-free content |
| DialogueBox.LoneUnderscoresEmphasised | app/solstra/components/DialogueBox.tsx:24-26 | "_" and "__" are emphasised with empty content |
| Calendar.DaysInMonth | app/lebre/board/single-board-cal.tsx:20 | a month has between 28 and 31 days |
| Calendar.MonthNumDays | app/lebre/board/single-board-cal.tsx:20 | day 0 of the next month is the last day of this month |
| Calendar.MakeDate | app/lebre/board/single-board-cal.tsx:20-21 | a month or day outside its range carries into a valid date |
| Calendar.MonthStartWeekday | app/lebre/board/single-board-cal.tsx:21 | the weekday of the 1st, in 0..6 |
| Calendar.MonthStartWeekdayStep | app/lebre/board/single-board-cal.tsx:20-21 | each month starts as many weekdays after the previous as that month has days |
| Calendar.EpochIsThursday | app/lebre/board/single-board-cal.tsx:21 | 1970-01-01 is day 0, a Thursday |
| Calendar.Year2024 | app/lebre/board/single-board-cal.tsx:20-21 | February 2024 had 29 days and March 2024 started on a Friday |
| Calendar.CalculatedIndex | app/lebre/board/single-board-cal.tsx:35 | the column lies in 0..6, is 0 exactly for the start weekday, and shifted back gives the index |
| Calendar.DayNameAt | app/lebre/board/single-board-cal.tsx:34-35 | the day name shown in column c, in 0..6 |
| Calendar.CalculatedIndexBijective | app/lebre/board/single-board-cal.tsx:34-39 | the seven names fill the seven columns exactly once |
| GreekNav.AtMostOneActive | app/greek-word-counter/components/ClientNav.tsx:9-41 | at most one tab is active for any pathname |
| GreekNav.OnAddWords | app/greek-word-counter/components/ClientNav.tsx:18-27 | on the add-words page Add Words is active and Greek Words is not |
| QuizMakerNav.AtMostOneActive | app/quiz-maker/components/ClientNav.tsx:9-35 | at most one tab is active for any pathname |
| QuizMakerNav.OnGenerate | app/quiz-maker/components/ClientNav.tsx:10-27 | on the generate page Generate is active and Home / Play is not |
| QuizMakerNav.OnDataBackup | app/quiz-maker/components/ClientNav.tsx:10-35 | on the backup page only Data Backup is active |
| QuizMakerNav.OnPlayPage | app/quiz-maker/components/ClientNav.tsx:12 | a play page keeps Home / Play active |
| SolstraNav.TabsArePrefixRules | app/solstra/components/ClientNav.tsx:19-35 | no tab passes the home path, so each tab is a prefix rule and none is active on "/solstra" |
| SolstraNav.AtMostOneActive | app/solstra/components/ClientNav.tsx:9-38 | at most one tab is active for any pathname |
| SolstraNav.OnTown | app/solstra/components/ClientNav.tsx:25-29 | on the town page only Town is active |
| Text.Trim | app/api/greek-vocabulary/route.ts:59-61 | `trim()` leaves a substring of the input with no white space at either end, and only white space is removed around it |
| Text.TrimEmpty | app/greek-word-counter/add-words/page.tsx:27 | `trim()` leaves nothing exactly when the input is all white space |
| Text.ToLower | app/greek-word-counter/page.tsx:50-52 | lower-casing keeps the length, lowers each character on its own except capital sigma, which becomes ς exactly where it ends a word and σ elsewhere, and leaves no capital |
| Text.ToLowerIdempotent | app/greek-word-counter/page.tsx:50-52 | lower-casing twice is lower-casing once |
| Text.FinalSigmaExamples | app/greek-word-counter/page.tsx:50-52 | "ΛΟΓΟΣ" lowers to "λογος" and "ΣΑΣ" to "σας" |
| Text.GreekExtendedExample | app/greek-word-counter/page.tsx:50-52 | polytonic "Ἀθῆναι" lowers to "ἀθῆναι" |
| Text.LatinExtendedExample | app/greek-word-counter/page.tsx:50-52 | "ŁÓDŹ" lowers to "łódź" |
| Text.LowerCharIdempotent | app/greek-word-counter/page.tsx:50-52 | a lowered character lowers to itself |
| Text.ToLowerAppend | app/greek-word-counter/analyze-text/page.tsx:20-21 | across white space the pieces of a text are lowered independently |
| Text.Includes | app/greek-word-counter/page.tsx:50-52 | `includes` holds exactly when the needle occurs at some position |
| Text.IntToString | app/greek-word-counter/historical-chart/page.tsx:247 | a number prints non-empty, with a leading "-" exactly when negative |
| Text.NatToStringRoundTrip | app/solstra/temple/page.tsx:44 | reading back a printed number gives the number |
| Tally.TallyOfLookup | app/greek-word-counter/analyze-text/page.tsx:28-30 | after the counting loop each key's count is its number of occurrences |
| Tally.TallyOfKeys | app/greek-word-counter/analyze-text/page.tsx:28-30 | the keys are exactly the distinct items, each once |
| Tally.TallyOfSum | app/greek-word-counter/analyze-text/page.tsx:28-33 | the counts sum to the number of items, each positive |
| Tally.BumpKeys | app/greek-word-counter/analyze-text/page.tsx:29 | an increment keeps a known key in place and appends a new one |
| Tally.BumpLookup | app/greek-word-counter/analyze-text/page.tsx:29 | an increment adds 1 to its key and changes no other |
| Sorting.SortByKeyDesc | app/greek-word-counter/historical-chart/page.tsx:141-143 | the result is sorted by key, descending, and a permutation of the input |

## Left out

- Database, auth and network I/O: the Supabase reads and writes and the `fetch` calls. Rows and answers are parameters. A thrown network error on the pages is not modelled; the route's own failures are.
- Time zones and locale formatting: `toLocaleString` with America/New_York, `toLocaleDateString` and `Intl.DateTimeFormat` are parameters or given day numbers.
- `getTodayPST` and `getTodayYYYYMMDD` are given as day numbers or strings.
- `Math.random()` becomes natural-number choices. The random-comparator sort of the quiz options becomes a draw of one permutation.
- `setTimeout` and `setInterval` timing, React effect scheduling and stale closures are not modelled. The quiz's next question is a separate call.
- Floating-point display: the vocabulary-density percentage and the quiz's 80%/60% score messages are left out. The dragon clock uses integer milliseconds instead of float hours.
- WeeklyStreaks.CalculateCurrentStreak: models "now" as a day number. The time-of-day behaviour of the code is the separate as-written member below.
- SolstraHelpers.DragonState.FeedKeepingProgress: the temple page model feeds through this corrected transition. `Feed` keeps the code as written.
- TemplePage.Temple.HandleFeedDragon: the feeding line is a parameter, because `getRandomSolisFeedingLine` is not part of this model.
- TemplePage.Temple.HandleFeedDragon: feeds through the corrected `FeedKeepingProgress`, where the page calls `feedDragon` as written (`Feed`). As written, a feed from 1 or 2 slots after a full eight-hour period does not show one slot fewer: stored 0 and fed at 17 h, the page shows 2 slots before the feed and 3 after it. `FeedRecountsElapsed` and `FeedRecountExample` state this.
- LebreHome.FilterSortBoardsInSection: `mapBoardIdAsRecord` and `getUserBoardsOrdering` are not part of this model. The record is taken as "a later board with the same id wins"; the slot lemma assumes unique board ids.
- LebreHome.SubmitBoardDay: models only the row built for the insert. The insert, `redirect` and `submitDelete` are I/O.
- GreekVocabularyRoute.Post: reads only the five properties it destructures. JSON numbers are whole, and `details` of the 500 answer is not modelled.
- Quiz.QuizPage.NextQuestion: requires a non-empty vocabulary, because `generateQuestion` reads an entry. The page reaches it only after `startQuiz` has seen at least four words.
- Quiz.GenerateQuestion: the correct answer can equal one of the wrong answers when two entries share a word. That case is allowed, not excluded.
- Object key order: JavaScript lists integer-like keys (a word such as "12") before others in `Object.keys`/`Object.entries`. The tallies keep plain insertion order, which only affects how equal counts are ordered.
- Sorting.SortByKeyDesc: stability of `Array.prototype.sort` for equal keys is not proved.
- AnalyzeText.SortedWords: `b[1] - a[1]` on the string count that "constructor" gets is NaN. Its effect on the order is not modelled; the corrected counts are numbers.
- Text.ToLower: lowers only U+0000–U+017F (Basic Latin, Latin-1 Supplement, Latin Extended-A), U+0370–U+03FF (Greek and Coptic) and U+1F00–U+1FFF (Greek Extended), and applies the word-final sigma rule. İ (U+0130), whose lower case is the two characters i and U+0307, is left unchanged. Letters outside those ranges (Latin Extended-B onwards, Cyrillic and every other script) are neither lowered nor counted as cased. The case-ignorable characters are the ones `IsCaseIgnorable` lists: exact for those ranges, U+0300–U+036F and General Punctuation up to U+202F, and none elsewhere.
- Pages with no logic of their own (layouts, modals, other pages, `generate-quiz`, the CRUD routes) are not part of this model.

## Findings

| source | as written | input that shows it | evidently intended | confidence | as-written member | corrected member |
|---|---|---|---|---|---|---|
| app/api/greek-weekly-streaks/route.ts:50-63 | `getWeekStart(new Date())` keeps the current time of day, and `===` compares it with rows parsed at midnight | a row for the Monday 2024-01-01 and a request at 01:00 that day: current streak 0 | compare calendar days, so this week's row counts (streak 1) | high; not executed | WeeklyStreaks.CurrentStreakAsWritten | WeeklyStreaks.CalculateCurrentStreak |
| utils/supabase/solstra/helpers.ts:148-151 | feeding from 1 or 2 slots stores the topped-up count but keeps the old `last_slot_increase`, so the elapsed periods are counted again | stored 0, fed 17 h later: 2 shown, 1 stored, then 3 shown | one slot fewer after feeding, with partial progress kept | high; not executed | SolstraHelpers.DragonState.Feed | SolstraHelpers.DragonState.FeedKeepingProgress |
| app/greek-word-counter/analyze-text/page.tsx:26-30 | the counter is a plain `{}`, so words naming `Object.prototype` members read inherited values | text "constructor": its count becomes "function Object() { [native code] }1"; text "__proto__": no entry, yet totalWords is 1 | every word counted from 0 | high; not executed | AnalyzeText.FrequencyAsWritten | AnalyzeText.AnalyzeTextPage.Analyze |
