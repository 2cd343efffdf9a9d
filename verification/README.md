# Student care platform: a verified model

A Dafny model of the logic behind a platform on which lecturers watch over students, and proofs of what that
logic is for.  `dafny verify dfyconfig.toml` checks everything.  Seven parts of the repository are modelled:

1. **Personal data in text** (`ScanText`, `DecimalDigits`, `DigitClusters`, `PhoneNumbers`, `PhoneScan`,
   `WrittenNumbers`, `PhoneLaws`, `PiiText`).  Telephone and identity numbers are found however they are cut into
   groups and whatever stands around them; the scans that break off early miss nothing and are linear.  The digit
   ceiling is that of clause 6 of ITU-T E.164, the layout of decimal digits that of section 4.6 of the Unicode
   Standard.
2. **Discussion messages** (`MarkupText`, `InlineMarkup`, `InlineRules`, `InlineFlags`, `InlineRendering`,
   `InlineSpans`, `MentionSurvival`, `MarkupBlocks`, `MarkupLines`, `Mentions`, `DiscussionComposer`,
   `ComposedMentions`).  The parser loses nothing but markers, shows bold and italic what stands between them, its
   result is unique, and what the editor inserts is what the parser reads.
3. **Captured errors and weeks** (`CivilCalendar`, `WeekArithmetic`, `WeekParam`, `ErrorGroups`, `ErrorAggregation`,
   `ErrorSummaries`, `ErrorFlushes`, `ErrorStacks`, `ErrorCollector`).  Flushing a stream of errors piece by piece
   stores what one batch would; every error is accounted for; weeks are Mondays at UTC+7.
4. **Alerts** (`Alerts`, `RaiseDecision`, `AlertSteps`, `AttendanceDecision`, `AttendanceReview`, `AttendancePass`,
   `AttendanceOutcome`, `AlertRuns`, `AlertService`).  One open alert for each student, section and term, levels that
   never fall, and a review that finds nothing to do the second time.
5. **Sessions** (`Sessions`, `SessionRuns`, `SessionExpiry`, `AuthService`, `SessionRefresh`).  Revocation is
   permanent, a session ends seven days after its last refresh, a lock survives rotation, one live token for each
   login, and tabs that share a cookie present a token that one of them has rotated away only if the answer to a
   rotation was lost.
6. **Notifications** (`Notifications`, `NotificationLaws`, `NotificationRuns`).  Attempts, retries and the fallback
   interleave, and each recipient is told once.
7. **Risk and care** (`RiskScore`, `RiskOrder`, `RiskLaws`, `CareOverview`, `CareConservation`, `CareTotals`,
   `MyAlertCare`).  The risk score is monotone and ignores order; the overview conserves what it counts.

Tables are maps, and queries are parameters: where a query returns a row or a list, the step is told what came back
and requires only that it is what the query asks for, in any order.  Row ids, random values, clocks, password and PIN
comparison, hashing, trimming, lower-casing and wording are parameters too.  Methods stand where the code loops or
writes; each is proved against a function or predicate about which the lemmas then speak.  Beside each such reference
stand laws in plain numbers and fields (`PhoneLaws`, `InlineRules`, `InlineFlags`, `MarkupLines`, `ErrorSummaries`,
`AttendanceOutcome`, `SessionExpiry`, `NotificationLaws`, `RiskLaws`, `CareTotals`).

Where the code does not do what its own comments or names say, the model follows the code:

- The comment that every character is read exactly once (apps/api/src/common/utils/pii-text.ts:347-350) does not
  hold: both loops read the first digit of a cluster, a gap that cuts is read ahead and again, and the plus scan
  looks back.  The reads are as many as the characters exactly where there is no digit, and at most ten for each.
- Behind the prefix 0084 a trunk zero is not dropped (the same file, 413-416), so 00840N is not taken for N, and two
  zeros before a number that itself begins 84 are read as that prefix.  `SpellingIsRecognisedIff` is exact, and
  `NotRecognised` gives both cases.
- `Date.UTC` moves the years 0 to 99 by 1900 (apps/api/src/modules/monitoring/error-fingerprint.ts:13-17), so the
  week start is wrong exactly there (`YearFiftyIsMovedOn` is one case), and `parseWeekParam` accepts no string of
  those years.  `WeekStartIs` says what it is in all years.
- Gathering keeps the latest stack that is present, storing the latest that is not empty
  (apps/api/src/modules/monitoring/error-collector.service.ts:88 and 212).  The two agree on every cut exactly under
  the condition of `ErrorStacks.EveryCutIsOneBatch`; the sanitiser never yields an empty stack, so captured errors
  meet it.
- Sending an analysis creates an alert without looking for an open one
  (apps/api/src/modules/student-analyses/student-analyses.service.ts:681-691), so one open alert for each subject is
  kept exactly when there is none.  `AnalysisOverOpenAlert` is the way to two.  Levels, resolutions and care on
  record are kept all the same.
- A mention is not always read as it was inserted: an italic span that opens before it may close at an underscore
  inside its code (packages/shared-types/src/discussion-format.ts:60-66).  `CodeSurvivesIff` says for which codes.
- An upgrade by the review goes to level 3 even for two absences
  (apps/api/src/modules/attendance-alerts/attendance-review.decision.ts:31-33).

## Model

| member | source | states |
|---|---|---|
| DecimalDigits.RemainderIsBlockOffset | apps/api/src/common/utils/pii-text.ts:268-304 | on every chart made of disjoint ten-long blocks, the distance to the start of the unbroken run of digits, modulo ten, is the digit's place in its own block, however many blocks abut |
| DecimalDigits.DigitValues.DecimalDigitValue | apps/api/src/common/utils/pii-text.ts:284-304 | the value returned is the one computed afresh, whatever calls came before, and the memo stays true |
| DigitClusters.RunsAreTheMaximalRuns | apps/api/src/common/utils/pii-text.ts:351-368 | the runs that the scan reads are exactly the maximal runs of digits of the text, in order |
| DigitClusters.SeparatorBeforeHasPlus | apps/api/src/common/utils/pii-text.ts:330-345 | says whether a plus stands at most three characters back with no letter or line end between, in at most three reads |
| DigitClusters.PlusScanNeedsNoDigitStop | apps/api/src/common/utils/pii-text.ts:322-345 | at the start of a cluster the scan without a stop at digits agrees with the one that has it |
| DigitClusters.CollectCluster | apps/api/src/common/utils/pii-text.ts:361-397 | one cluster: the runs joined by gaps of at most three characters without letter or line end, up to the first gap that cuts |
| DigitClusters.CollectDigitClusters | apps/api/src/common/utils/pii-text.ts:347-402 | the groups of all clusters are the maximal runs of the text in order, neighbours share a cluster exactly when the gap between them joins; the reads of conditions, slices and the newline test number at most ten for each character, at least the characters and clusters together, and exactly the characters if and only if there is no digit |
| DigitClusters.DigitsMakeClusters | apps/api/src/common/utils/pii-text.ts:347-402 | a text with a digit has a cluster |
| PhoneNumbers.NationalSignificantNumber | apps/api/src/common/utils/pii-text.ts:408-442 | the loop over leading zeros and the branches compute the stripped number |
| PhoneNumbers.SpellingIsUndone | apps/api/src/common/utils/pii-text.ts:408-442 | every recognised spelling of a national number is taken back to that number |
| PhoneNumbers.SpellingIsRecognisedIff | apps/api/src/common/utils/pii-text.ts:408-454 | behind any prefix a national number is recognised if and only if IsRecognised says so: nothing is accepted through another prefix |
| PhoneNumbers.NotRecognised | apps/api/src/common/utils/pii-text.ts:413-416 | so neither 00840N is accepted, nor 00N for a number that itself begins 84 |
| PhoneNumbers.RecognisedIffSpelled | apps/api/src/common/utils/pii-text.ts:404-454 | a digit string is accepted if and only if it spells a national number with one of the recognised prefixes |
| PhoneNumbers.LengthTestRedundantAfterCountryCode | apps/api/src/common/utils/pii-text.ts:417-423 | behind the country code the length test decides nothing |
| PhoneNumbers.LengthTestNeededAfterZeros | apps/api/src/common/utils/pii-text.ts:424-440 | behind leading zeros it does: a number that would be lost without it |
| PhoneScan.ClusterLooksLikePhone | apps/api/src/common/utils/pii-text.ts:456-499 | breaking off early is no loss: true if and only if some window has at most one single-digit group, at most 15 digits, and is a Vietnamese number or begins at a group vouched for by a plus with 9 digits or more; at most 16 rounds for each start |
| PhoneScan.ClusterHoldsId | apps/api/src/common/utils/pii-text.ts:620-648 | the same for 9 to 12 digits, in at most 13 rounds for each start |
| PhoneScan.ChainIsClusterWindow | apps/api/src/common/utils/pii-text.ts:351-402 | any chain of runs of the text lies within one cluster as a window of its groups, and a plus vouches for it exactly when it begins the cluster |
| PhoneScan.HasPhone | apps/api/src/common/utils/pii-text.ts:501-503 | found if and only if the text itself holds a chain of digit runs that is a phone number |
| PhoneScan.HasKeywordedIdCluster | apps/api/src/common/utils/pii-text.ts:594-648 | found if and only if the keyword is there and the text holds a chain of runs with 9 to 12 digits |
| WrittenNumbers.WrittenNumberIsFound | apps/api/src/common/utils/pii-text.ts:456-503 | a number cut into groups and joined by short separators is found in whatever text surrounds it, if no digit touches its ends |
| WrittenNumbers.DailySpellingIsFound | apps/api/src/common/utils/pii-text.ts:351-503 | so is every national number spelled 0N, 84N, 840N or 0084N, for all groupings with at most one single digit |
| WrittenNumbers.WrittenIdIsFound | apps/api/src/common/utils/pii-text.ts:594-648 | so is every identity number of 9 to 12 digits |
| PhoneLaws.PlainNumberIsFound | apps/api/src/common/utils/pii-text.ts:177-198 | in plain digits: every number of 9 or 10 digits that begins with 2, 3, 5, 7, 8 or 9, spelled 0N, 84N, 840N or 0084N, in groups of which at most one is a single digit, joined by one to three characters that are no digit, letter or line end, is found in any text |
| PhoneLaws.WritingHoldsPhoneIff | apps/api/src/common/utils/pii-text.ts:456-503 | a text of digit groups joined by such separators, without a plus, holds a telephone number if and only if some neighbouring groups of it, at most one a single digit, spell such a number in at most 15 digits |
| PhoneLaws.WritingHoldsIdIff | apps/api/src/common/utils/pii-text.ts:594-648 | and an identity number if and only if some neighbouring groups, at most one a single digit, have 9 to 12 digits |
| PhoneLaws.RunHoldsPhoneIff | apps/api/src/common/utils/pii-text.ts:404-454 | one run of digits is a telephone number if and only if it spells a number of 9 or 10 digits with one of those six leads, in at most 15 digits |
| PhoneLaws.ZeroRunHoldsPhoneIff | apps/api/src/common/utils/pii-text.ts:404-454 | behind one zero, a run that begins neither 0 nor 84 is one if and only if it has 9 or 10 digits and begins with one of the six |
| PhoneLaws.LongSeparatorCuts | apps/api/src/common/utils/pii-text.ts:351-397 | two runs with four characters or more, a letter or a line end between hold a number if and only if one of the runs does |
| PhoneLaws.SignedNumberIsFound | apps/api/src/common/utils/pii-text.ts:330-345 | behind a plus any 9 to 15 digits are found, in groups of which at most one is a single digit |
| PhoneLaws.SignedRunHoldsPhoneIff | apps/api/src/common/utils/pii-text.ts:187-198 | a plus, other characters and one run hold a number if and only if the run spells one, or has 9 to 15 digits and at most two characters stand between, no letter or line end among them |
| PhoneLaws.LongRunIsNineDigits | apps/api/src/common/utils/pii-text.ts:232 | the long run of the last test is nine digits in a row |
| PiiText.HasEmail | apps/api/src/common/utils/pii-text.ts:505-541 | decides exactly what the regular expression with two unbounded sides asks for, in at most four reads for each character |
| PiiText.DetectPii | apps/api/src/common/utils/pii-text.ts:650-667 | which label is given, and none exactly when the text holds no phone number, address, long digit run or keyworded identity number |
| InlineMarkup.FindItalicClose | packages/shared-types/src/discussion-format.ts:60-66 | the first underscore from a position on that no word character follows, or -1 |
| InlineMarkup.PushText | packages/shared-types/src/discussion-format.ts:68-76 | text is appended with neighbours of equal flags merged: no empty token, no two equal neighbours, nothing else changed |
| InlineMarkup.AppendAll | packages/shared-types/src/discussion-format.ts:78-83 | the same for a list of tokens |
| InlineMarkup.NextPiece | packages/shared-types/src/discussion-format.ts:95-131 | bold is tried before italic and italic before a mention, each with its own conditions |
| InlineMarkup.ParseInline | packages/shared-types/src/discussion-format.ts:85-137 | terminates; the result is merged (no empty text, no equal neighbours) and undoing the merges gives the pieces of the line one by one; each character shown is bold exactly if the call is or it stands inside a bold span at whatever depth, the same for italic, and nothing but the enclosing markers is not shown |
| InlineRules.PieceIs | packages/shared-types/src/discussion-format.ts:95-131 | character by character: two stars begin a bold span if and only if the next two stars close something without white space at its edges; an underscore behind no word an italic one up to the next underscore that no word follows; an at-sign behind no word, at-sign or dot a mention of the longest code without the punctuation at its end |
| InlineFlags.BoldShown | packages/shared-types/src/discussion-format.ts:99-108 | text between two pairs of stars is shown bold, with whatever it holds; text without markers before it as the call asks; what follows is read as a line of its own |
| InlineFlags.ItalicShown | packages/shared-types/src/discussion-format.ts:110-119 | the same for underscores that may open and close, and italic |
| InlineFlags.MarkersMean | packages/shared-types/src/discussion-format.ts:85-137 | so in texts without markers a **x** b shows x bold and a _x_ b shows x italic, and a and b with the flags of the call |
| InlineFlags.NestedMarkersMean | packages/shared-types/src/discussion-format.ts:85-137 | and both, bold and italic, where one stands within the other |
| InlineRendering.MergedReadingIsUnique | packages/shared-types/src/discussion-format.ts:68-137 | two merged token lists with the same pieces are equal, so the parser's result is the only one |
| InlineRendering.RenderingDropsOnlyMarkers | packages/shared-types/src/discussion-format.ts:85-137 | the plain rendering is the line with some of its stars and underscores, and nothing else, left out |
| InlineRendering.DroppingMarkersMeans | packages/shared-types/src/discussion-format.ts:197-201 | then line and rendering agree once stars and underscores are removed, the rendering is a subsequence, and a line without markers is shown as it is |
| InlineRendering.PlainLine | packages/shared-types/src/discussion-format.ts:197-199 | the loop renders the tokens one after the other |
| InlineSpans.NoBoldInsideBold | packages/shared-types/src/discussion-format.ts:99-108 | no bold span is parsed inside a bold span, at any depth of italics between |
| InlineSpans.WordsKeepTheirUnderscores | packages/shared-types/src/discussion-format.ts:110-119 | a line whose underscores all follow word characters, and without star pairs, is rendered unchanged |
| InlineSpans.EveryMentionIsACode | packages/shared-types/src/discussion-format.ts:46-49 | every mention carries a letter or digit followed by code characters that do not end in punctuation |
| InlineSpans.CodeIsReadBack | packages/shared-types/src/discussion-format.ts:121-130 | a written code followed by no code character is read as that code |
| MarkupBlocks.ParseDiscussionBody | packages/shared-types/src/discussion-format.ts:139-174 | the loop with an open block produces the blocks that the neighbouring-line rule prescribes |
| MarkupBlocks.BlocksHoldTheLines | packages/shared-types/src/discussion-format.ts:139-178 | the lines of all blocks in order are exactly the lines that are not blank, each of its own kind and parsed without its list prefix; no block is empty; there is one block for each line that starts one |
| MarkupBlocks.LineJoinsOrBegins | packages/shared-types/src/discussion-format.ts:148-172 | a blank line changes no block, a line of the kind of the one above it goes to the last block, and any other begins one |
| MarkupBlocks.LineDropsOnlyMarkers | packages/shared-types/src/discussion-format.ts:159-170 | what is shown of a line is its content with only markers left out |
| MarkupLines.KindOfLine | packages/shared-types/src/discussion-format.ts:49-50 | a line is of a bulleted list, of a numbered list, blank or of a paragraph exactly as the two regular expressions have it, bullets before numbers |
| MarkupLines.ContentOfLine | packages/shared-types/src/discussion-format.ts:148-170 | what is parsed of a list line is the text behind mark and spaces, and all of any other line |
| MarkupLines.LinesAreReadBack | packages/shared-types/src/discussion-format.ts:148 | lines joined by line feeds, by carriage returns or by both are read back as those lines |
| Mentions.ExtractMentions | packages/shared-types/src/discussion-format.ts:180-195 | says whether the word all is mentioned, and gives the first 20 different lower-cased staff codes in the order of their first mention: a prefix of them, and all if there are fewer |
| Mentions.StaffCodesMeans | packages/shared-types/src/discussion-format.ts:181-195 | those codes are exactly the ones mentioned other than the word for everybody, none twice |
| Mentions.EarlierCodesComeFirst | packages/shared-types/src/discussion-format.ts:181-195 | later mentions never reorder or drop earlier ones |
| DiscussionComposer.WrappingTwiceRestores | apps/web/src/lib/discussion-composer.ts:29-53 | pressing the button twice restores text and selection if and only if something is selected and it is not wrapped twice over |
| DiscussionComposer.WrappingKeepsSelection | apps/web/src/lib/discussion-composer.ts:29-53 | whether a press wraps or unwraps, what was selected is selected afterwards |
| DiscussionComposer.QueryIsOffered | apps/web/src/lib/discussion-composer.ts:82-91 | a mention is offered at an at-sign if and only if the sign may begin one and only characters of a code stand between it and the caret, and the query is what stands there |
| DiscussionComposer.CaretFollowsMention | apps/web/src/lib/discussion-composer.ts:95-105 | after an insertion the caret stands behind the mention and its space, with the text before and after as it was |
| MentionSurvival.CodeIsMentioned | packages/shared-types/src/discussion-format.ts:85-137 | wherever a code stands in a line, whatever bold spans stand around it, it is read back if no underscore in it is followed by a dot or a dash or no italic span opens before it |
| MentionSurvival.ClosedCodeIsLost | packages/shared-types/src/discussion-format.ts:60-66 | a code with such an underscore is lost behind an underscore, a letter and a space |
| MentionSurvival.CodeSurvivesIff | packages/shared-types/src/discussion-format.ts:85-137 | so a code is read back in every line that holds it if and only if it has no such underscore |
| ComposedMentions.InsertedMentionIsRead | apps/web/src/lib/discussion-composer.ts:82-105 | where the editor offers a mention, the line of the insertion begins as before, goes on with the mention and is parsed with exactly the inserted code as a mention, through line ends and list prefixes, under the same condition; it is neither bold nor italic if no span opens before it |
| ComposedMentions.InsertedMentionIsSpoken | apps/web/src/lib/discussion-composer.ts:82-105 | and the message mentions that code |
| ComposedMentions.InsertedMentionIsHeard | packages/shared-types/src/discussion-format.ts:180-195 | so the extraction says that everybody is mentioned if it is that word, and otherwise gives the code unless it gives twenty others |
| ComposedMentions.NoMarkersOpenNoSpan | packages/shared-types/src/discussion-format.ts:95-119 | a text without stars and underscores opens no span on its last line and lets every code through |
| CivilCalendar.CivilOfDayNumber | apps/api/src/modules/monitoring/error-fingerprint.ts:26-38 | a day is the calendar day with a number if and only if it is the one read off the number (section 21.4.1 of ECMA-262) |
| CivilCalendar.DaysAreCounted | apps/api/src/modules/monitoring/error-fingerprint.ts:26-38 | day 0 is 1 January 1970, and the day after any calendar day, by the lengths of the months and the leap years, has the next number |
| CivilCalendar.UtcOfCivilIs | apps/api/src/modules/monitoring/error-fingerprint.ts:11-18 | rebuilding a day from its year, month and date moves it on by nothing outside the years 0 to 99, and by 1900 years inside them, less a day from the end of February of the year 0 |
| CivilCalendar.UtcOfCivil | apps/api/src/modules/monitoring/error-fingerprint.ts:11-18 | so it is exact if and only if the year is not one of 0 to 99 |
| WeekArithmetic.WeekStartIs | apps/api/src/modules/monitoring/error-fingerprint.ts:9-19 | in all years the week start is 00:00 at UTC+7 of the Monday of the week, moved on as Date.UTC moves the day |
| WeekArithmetic.WeekStartIsTheMonday | apps/api/src/modules/monitoring/error-fingerprint.ts:9-19 | the week start is a Monday, 00:00 at UTC+7, at most a week before the instant, if and only if the local year is not one of 0 to 99 |
| WeekArithmetic.MondayMidnightInVietnam | apps/api/src/modules/monitoring/error-fingerprint.ts:4-19 | in numbers: outside those years it is a whole number of weeks after 5 January 1970, 00:00 at seven hours east, and less than 604800000 milliseconds before the instant |
| WeekArithmetic.WeekStartIsUnique | apps/api/src/modules/monitoring/error-fingerprint.ts:9-19 | no other instant is |
| WeekArithmetic.WeekStartsAreOrdered | apps/api/src/modules/monitoring/error-fingerprint.ts:9-19 | week starts are in the order of their instants, unless the earlier day is of the years 0 to 99 and the later one is after them but less than 99138 weeks later, or both are of the week in which February of the year 0 ends, on either side of its end; and then they are not |
| WeekArithmetic.WeekStartOfWeekStart | apps/api/src/modules/monitoring/error-fingerprint.ts:9-19 | taking the week start twice changes nothing if and only if the instant is outside the years 0 to 99 and the first three days of the year 100 |
| WeekArithmetic.PreviousWeekIsTheWeekBefore | apps/api/src/modules/monitoring/error-fingerprint.ts:21-23 | the previous week start is the week start of seven days earlier if and only if the day is not of the first week of the year 0 or 100 or of the week after the end of February of the year 0 |
| WeekArithmetic.YearFiftyIsMovedOn | apps/api/src/modules/monitoring/error-fingerprint.ts:11-18 | by this reckoning the week of New Year's Day of the year 50 begins on 27 December 1949 |
| WeekParam.ParseIsExact | apps/api/src/modules/monitoring/error-fingerprint.ts:25-41 | a string is accepted if and only if it is well formed and names a calendar day from the year 100 on, and gives the Monday of that day |
| WeekParam.NamedDayIs | apps/api/src/modules/monitoring/error-fingerprint.ts:27-29 | year, month and date are the decimal values of the digits, month by month from zero |
| WeekParam.ParseOfFormat | apps/api/src/modules/monitoring/error-fingerprint.ts:25-48 | what is printed for a week start of the years 100 to 9999 is read back as it |
| ErrorAggregation.AggregateBatch | apps/api/src/modules/monitoring/error-collector.service.ts:49-96 | one group for each key, each what the errors of its key come to in order, and the counts add up to events plus dropped |
| ErrorAggregation.BatchHolds | apps/api/src/modules/monitoring/error-collector.service.ts:35-56 | each event counts once in its place; all that were dropped are one ERROR of APP in the context Monitoring, as heavy as they were many |
| ErrorSummaries.GroupSummarisesItsErrors | apps/api/src/modules/monitoring/error-collector.service.ts:63-93 | there is a group exactly if there are errors of its key, and it has their count, the source, context and route of the first, times of an earliest and of the latest, the message and status of the latest, the last stack that came with an error which was the latest so far, and is fatal exactly if some error is |
| ErrorSummaries.StoredRowCounts | apps/api/src/modules/monitoring/error-collector.service.ts:202-217 | the stored row is there exactly if an error of its key was committed, and has the count of all of them, the source, context and route of the first, and is fatal exactly if some is, in whatever order they came and however they were cut into flushes |
| ErrorSummaries.StoredRowSpans | apps/api/src/modules/monitoring/error-collector.service.ts:202-217 | for times that never go back it also has the times of an earliest and of the latest, and the message and status of the latest |
| ErrorSummaries.ErrorsOfAKeyShareItsWeek | apps/api/src/modules/monitoring/error-collector.service.ts:58-61 | all errors of a row share its fingerprint and lie in the week, Monday 00:00 at seven hours east, that its key names, outside the years 0 to 99 |
| ErrorFlushes.CommitStores | apps/api/src/modules/monitoring/error-collector.service.ts:137-139 | a transaction of upserts leaves for each key its old row updated by its group, and every other row alone |
| ErrorFlushes.FlushesKeepAllButStack | apps/api/src/modules/monitoring/error-collector.service.ts:130-151 | for times that never go back, any cut into flushes stores the key, level, source, counts, times, message and status of one batch of all errors |
| ErrorFlushes.FlushesKeepCounts | apps/api/src/modules/monitoring/error-collector.service.ts:130-151 | for times in any order, any cut stores the key, level, source, context, route and count of one batch |
| ErrorStacks.EveryCutIsOneBatch | apps/api/src/modules/monitoring/error-collector.service.ts:202-217 | every cut stores the whole row of one batch if and only if the last stack of the key is not empty, or the first one is and no other is full |
| ErrorStacks.CapturedErrorsCutAnywhere | apps/api/src/modules/monitoring/sanitize-log-text.ts:59-64 | errors from the capturing hook never carry an empty stack, so for them every cut equals one batch |
| ErrorStacks.CapturedRowDescribes | apps/api/src/modules/monitoring/error-collector.service.ts:202-217 | and then the stored row says all that a group says, stack included, of all errors of its key |
| ErrorCollector.ErrorSink.Push | apps/api/src/modules/monitoring/error-capture.ts:17-27 | the buffer holds at most 1000 events, and nothing is dropped before it is full |
| ErrorCollector.ErrorSink.Drain | apps/api/src/modules/monitoring/error-capture.ts:29-34 | hands over everything and starts empty |
| ErrorCollector.ErrorCollectorService.BeginFlush | apps/api/src/modules/monitoring/error-collector.service.ts:130-136 | begins only if no other flush waits and there is something; keeps pushed = buffered + dropped + in flight + stored + lost + purged |
| ErrorCollector.ErrorCollectorService.Commit | apps/api/src/modules/monitoring/error-collector.service.ts:137-150 | stores the waiting batch; the table stays what the committed batches since its last purge make of each key, and the count is conserved |
| ErrorCollector.ErrorCollectorService.TableCounts | apps/api/src/modules/monitoring/error-collector.service.ts:137-150 | a row of the table is there exactly if an error of its key was committed since the key was purged last, and counts those errors |
| ErrorCollector.ErrorCollectorService.Fail | apps/api/src/modules/monitoring/error-collector.service.ts:142-150 | loses exactly the waiting batch and leaves the table |
| ErrorCollector.ErrorCollectorService.PurgeExpired | apps/api/src/modules/monitoring/monitoring-report.service.ts:260-279 | batch by batch, exactly the groups last seen before the cutoff go; they are counted, and so are the errors that go with them |
| ErrorCollector.UpsertAllAdds | apps/api/src/modules/monitoring/error-collector.service.ts:202-217 | a transaction adds exactly the counts of its groups to the total of the table |
| RaiseDecision.RaisedLevelIsLeast | apps/api/src/modules/alerts/raise-decision.ts:25-50 | the level after a raise is the least in 1 to 4 not below the one asked for, the system's and the open alert's |
| RaiseDecision.MergingTwiceIsMergingOnce | apps/api/src/modules/alerts/raise-decision.ts:63-72 | a reason once merged is kept, and merging it again at any time changes nothing |
| AttendanceDecision.SecondDecisionIsUnchanged | apps/api/src/modules/attendance-alerts/attendance-review.decision.ts:23-39 | deciding again on the same absences leaves the alert alone |
| AttendanceDecision.ActionsOnlyRaise | apps/api/src/modules/attendance-alerts/attendance-review.decision.ts:23-39 | an action never lowers the level, sets no level but 3 on an existing alert, and gives a new one the level of its absences |
| AttendanceDecision.UpgradeOvershoots | apps/api/src/modules/attendance-alerts/attendance-review.decision.ts:31-33 | an upgrade goes above the level of the absences if and only if the alert is of level 1 and the absences are two |
| AlertSteps.RaisingStands | apps/api/src/modules/alerts/alerts.service.ts:256-311 | after a raise one alert is open for the subject and no other has changed; its level is the highest of asked, computed and had, and below no other open alert of the subject; only a higher level reopens it and clears the lecturer's care; the old reason is kept |
| AlertSteps.RaisingSays | apps/api/src/modules/alerts/alerts.service.ts:256-311 | nothing said is lost: a new alert has the reason as given, with the note in its own paragraph exactly if the computed level is above the one asked for; an open one has it in its reason, in front or appended with the date, with the note on the next line exactly if its level rose and the computed level is above; its level is the least not below had, asked and computed, up to 4 |
| AlertSteps.RaisingKeeps | apps/api/src/modules/alerts/alerts.service.ts:256-311 | a raise keeps levels in 1 to 4 that never fall, resolutions with the resolved, care on record, and one open alert for each student, section and term if there was one |
| AlertSteps.CommittingKeepsIff | apps/api/src/modules/student-analyses/student-analyses.service.ts:681-691 | sending an analysis keeps one open alert for each subject if and only if the subject has none, since the code does not look; the rest it keeps in any case |
| AlertSteps.LoggingKeeps | apps/api/src/modules/care-logs/care-logs.service.ts:114-138 | writing a care log keeps the same: the mark of the lecturer's care is set with the log that backs it |
| AlertSteps.RemovingKeeps | apps/api/src/modules/care-logs/care-logs.service.ts:208-254 | removing a care log keeps it: the mark goes with the last log of the lecturer, and only then |
| AlertSteps.DeletingKeeps | apps/api/src/modules/alerts/alerts.service.ts:607-632 | deleting alerts with their logs keeps it for those that stay |
| AlertSteps.ResolvingKeeps | apps/api/src/modules/alerts/alerts.service.ts:434-470 | resolving an alert keeps it, with who, when, the note and the outcome |
| AttendanceReview.HighestByKey | apps/api/src/modules/attendance-alerts/attendance-review.service.ts:99-108 | for each student and section an open alert of the highest level, in whatever order they are listed |
| AttendanceReview.ReviewTheRow | apps/api/src/modules/attendance-alerts/attendance-review.service.ts:270-360 | one row: the branches, their writes and their counts |
| AttendancePass.ReviewTerm | apps/api/src/modules/attendance-alerts/attendance-review.service.ts:149-177 | the pass closes first, then loads, then reviews every row once and adds up the counts |
| AttendancePass.RowsAreCounted | apps/api/src/modules/attendance-alerts/attendance-review.service.ts:162-167 | created, upgraded and unchanged together are the number of rows |
| AttendanceOutcome.RowIsAnswered | apps/api/src/modules/attendance-alerts/attendance-review.service.ts:149-335 | every reviewed row has two absences at least; the highest open alert of its student, section and term is reviewed for it: below the level that two or three absences call for it goes to level 3, reopens and asks for care again, with more absences it is brought up to date; without an open alert one is made at that level |
| AttendanceOutcome.AlertAfterPass | apps/api/src/modules/attendance-alerts/attendance-review.service.ts:192-216 | a pass closes exactly the open automatic alerts of its term about sections that attendance bars nobody from, with nothing else of them changed; any other alert changes only for a row of its subject, and then as that row calls for |
| AttendanceOutcome.ManualAlertIsKept | apps/api/src/modules/attendance-alerts/attendance-review.service.ts:89-97 | an alert that a person raised is not closed, keeps who raised it, and its reason begins with what it was |
| AttendanceOutcome.NewAlertAfterPass | apps/api/src/modules/attendance-alerts/attendance-review.service.ts:337-360 | what is new after a pass is an open automatic alert of a row, by nobody, with the row's absences and reason |
| AttendanceOutcome.PassIsCounted | apps/api/src/modules/attendance-alerts/attendance-review.service.ts:162-177 | created is how many alerts there are more, upgraded how many have a higher level, closed how many were closed; the people told are those of new and of risen alerts, for their new level |
| AttendancePass.ReviewedRecords | apps/api/src/modules/attendance-alerts/attendance-review.service.ts:270-335 | a reviewed alert has the absences on record; only an upgrade changes level, status and care; otherwise an alert is touched only for more absences |
| AttendancePass.RowsKeep | apps/api/src/modules/attendance-alerts/attendance-review.service.ts:149-360 | a pass keeps levels that never fall, resolutions and care on record, and one open alert for each subject if there was one |
| AttendancePass.ReviewNeverCritical | apps/api/src/modules/attendance-alerts/attendance-review.service.ts:295-335 | where the pass sets a level it is 2 or 3 |
| AttendancePass.ReviewingAgainChangesNothing | apps/api/src/modules/attendance-alerts/attendance-review.service.ts:149-335 | where each subject has one open alert, a second pass over the same rows creates, upgrades, closes and tells nothing and leaves the table equal, whatever order the queries return |
| AttendancePass.ReviewingAgainTellsNobody | apps/api/src/modules/attendance-alerts/attendance-review.service.ts:149-335 | on every board, also with several open alerts for a subject, a second pass creates, upgrades, closes and tells nothing, and changes at most the absences and the reason of an alert |
| AlertRuns.StepKeeps | apps/api/src/modules/alerts/alerts.service.ts:256-470 | every step of people and of the review keeps levels, resolutions and care on record and only moves alerts on; it keeps one open alert for each subject if and only if it does not send an analysis over an open one |
| AlertRuns.RunStaysSound | apps/api/src/modules/alerts/alerts.service.ts:256-639 | in every run, whatever is sent, levels are in 1 to 4, the resolved alerts are those with a resolution, and every mark of care has a log of the section's lecturer |
| AlertRuns.OneOpenUntilSentOver | apps/api/src/modules/alerts/alerts.service.ts:256-639 | the boards of a run up to a step all have one open alert for each subject if and only if no analysis was sent over an open alert before it |
| AlertRuns.AnalysisOverOpenAlert | apps/api/src/modules/student-analyses/student-analyses.service.ts:681-691 | two steps from an empty board to two open alerts for one subject |
| AlertRuns.RunMovesOn | apps/api/src/modules/alerts/alerts.service.ts:411-470 | over every run, whatever is sent, an alert that is not deleted keeps its subject, its level never falls, and resolved it stays as it was resolved |
| AlertRuns.RunKeepsWords | apps/api/src/modules/alerts/alerts.service.ts:292-311 | over every run an alert that a person raised keeps who raised it and when, and its reason begins with all that it said at any time before |
| AlertService.AlertDesk.Raise | apps/api/src/modules/alerts/alerts.service.ts:205-311 | done exactly for a student in scope, a section enrolled in, a level of 3 or more for student affairs alone and 1 or more otherwise, and forty characters of reason for level 4; otherwise nothing changes; only the alert that stands for the subject changes, and it is made or raised with the level, reason, note, status, care and raiser that the request and the computed level call for |
| AlertService.AlertDesk.Acknowledge | apps/api/src/modules/alerts/alerts.service.ts:411-432 | done exactly for an open alert in scope by an administrator, a head of department, a training officer, the head of student affairs, or a lecturer who did not raise it, and only the status changes; like every handler it keeps the tables sound and one open alert for each subject if there was one |
| AlertService.AlertDesk.Resolve | apps/api/src/modules/alerts/alerts.service.ts:434-470 | done exactly for an unresolved alert in scope by an administrator, a head of department, the section's lecturer, or, where there is none, a lecturer who raised it; who, when, the note and the outcome are stored and nothing else changes |
| AlertService.AlertDesk.CreateCareLog | apps/api/src/modules/care-logs/care-logs.service.ts:102-152 | done exactly for a student in scope, an alert of the student and a section enrolled in; the log names the user and its own section or the alert's; the alert is marked and an open one acknowledged exactly if the user is the section's lecturer and the mark is not there yet; or nothing changes |
| AlertService.AlertDesk.RemoveCareLog | apps/api/src/modules/care-logs/care-logs.service.ts:208-254 | the log goes, and the mark exactly if it was set and the log was the section's lecturer's last one about the alert |
| AlertService.AlertDesk.DeleteBatch | apps/api/src/modules/alerts/alerts.service.ts:607-632 | the alerts go with their care logs, with all evaluations, messages and read marks of their students and with their notifications, analyses lose the link to them, and nothing else changes; what goes or is unlinked is counted |
| AlertService.DeletionLeaves | apps/api/src/modules/alerts/alerts.service.ts:607-632 | what a deletion leaves: the other alerts, the care logs of no deleted alert, the evaluations, messages and read marks of other students, the notifications whose alert and message stay, and every version of an analysis, unlinked from a deleted alert |
| AlertService.AlertDesk.RemoveMany | apps/api/src/modules/alerts/alerts.service.ts:588-604 | all alerts of the batch, if each exists and is in scope, or nothing |
| AlertService.AlertDesk.CommitSend | apps/api/src/modules/student-analyses/student-analyses.service.ts:638-709 | sending a version of an analysis makes an alert and queues the version, exactly if the data still stand, there is someone to tell and the version is a draft, and otherwise is rolled back; one open alert for each subject is lost exactly if the subject had one |
| AlertService.AlertDesk.Review | apps/api/src/modules/attendance-alerts/attendance-review.service.ts:149-177 | the pass on the stored table, also where a subject has two open alerts, with the counts of what is new, has a higher level and was closed |
| SessionRuns.StepKeeps | apps/api/src/modules/auth/auth.service.ts:97-434 | every request keeps: one live token for each login, of one person and way of signing in; at most 4 counted failures; no live session of an account switched off; and every revoked token as it is |
| SessionRuns.SessionStays | apps/api/src/modules/auth/auth.service.ts:335-348 | a locked session stays locked through a request if and only if that request does not enter the PIN on it; consent is not lost; a session that is over stays over |
| SessionRuns.RevokedForGood | apps/api/src/modules/auth/pin.service.ts:114-192 | over any run a revoked token never changes: revocation is permanent, and locked and revoked stays locked |
| SessionRuns.LockedUntilUnlocked | apps/api/src/modules/auth/pin.service.ts:112-155 | over any run and any number of rotations a locked session is locked until its PIN is set or verified |
| SessionRuns.RunKeepsInvariant | apps/api/src/modules/auth/auth.service.ts:318-355 | the invariant holds after every run |
| SessionRuns.StepKeepsSessions | apps/api/src/modules/auth/pin.service.ts:112-155 | through any request no session is unlocked but the one whose PIN was entered, none loses its consent, and none that is over comes back |
| SessionRuns.FailuresAreWrongPins | apps/api/src/modules/auth/pin.service.ts:81-126 | over every run, also for accounts that are made in it, the count is that of the wrong PINs in a row, modulo five, whatever else was asked for between them |
| SessionRuns.FifthWrongPinEndsAll | apps/api/src/modules/auth/pin.service.ts:218-255 | in every run a wrong PIN, entered to verify or to change it, revokes and locks every session of the person if it is the fifth in a row, the tenth and so on, and otherwise touches no session |
| AuthService.AuthDesk.LogIn | apps/api/src/modules/auth/auth.service.ts:97-137 | for an account switched on and a proven password a new session for seven days, unlocked and without consent, and no failures counted; otherwise Unauthorized and nothing |
| AuthService.AuthDesk.RefreshSession | apps/api/src/modules/auth/auth.service.ts:318-355 | exactly for a live token that has not expired, of an account switched on: it is revoked and a new one for seven days issued with its person, consent, way of signing in and lock; otherwise Unauthorized, and nothing changes |
| AuthService.AuthDesk.RecordConsent | apps/api/src/modules/auth/auth.service.ts:280-316 | for an account switched on, only the live token of the cookie and person gets the consent |
| AuthService.AuthDesk.ChangePassword | apps/api/src/modules/auth/auth.service.ts:367-403 | revokes exactly the live tokens of the person, at this time, and locks none |
| AuthService.AuthDesk.AssertPinMatches | apps/api/src/modules/auth/pin.service.ts:218-255 | counts a wrong PIN up to four; the fifth revokes and locks exactly the live tokens of the person and starts the count anew |
| AuthService.AuthDesk.SetPin | apps/api/src/modules/auth/pin.service.ts:74-110 | for a valid PIN, and the current one if there is one: the new PIN, no failures, and the live token of the cookie unlocked; a wrong one is counted |
| AuthService.AuthDesk.Verify | apps/api/src/modules/auth/pin.service.ts:112-142 | a right PIN unlocks the live token of the cookie and clears the failures, and is answered Unauthorized if the cookie has none; a wrong one is counted |
| AuthService.AuthDesk.ForgetPin | apps/api/src/modules/auth/pin.service.ts:170-192 | ends and locks every session, and clears the PIN |
| AuthService.AdministratorsDo | apps/api/src/modules/admin/admin.service.ts:186-281 | a password reset and switching an account off revoke exactly the live tokens of the person; switching on touches none, and clearing a PIN touches no token |
| SessionExpiry.TokensLastSevenDays | apps/api/src/modules/auth/auth.service.ts:318-355 | no request changes when a token expires; one that is issued is live, expires 7 * 24 * 60 * 60 * 1000 ms after its request, and is of a new login or of the session of a live token that had not expired |
| SessionExpiry.TokensAreIssued | apps/api/src/modules/auth/auth.service.ts:418-434 | in every run each token was issued by one of its requests, seven days before it expires |
| SessionExpiry.ExpiredIsOver | apps/api/src/modules/auth/auth.service.ts:324-333 | in every run, once all tokens of a session have expired no later request goes on with it |
| SessionExpiry.IdleSessionIsOver | apps/api/src/modules/auth/auth.service.ts:318-355 | in every run a session that no refresh went on with for more than seven days gets no token ever again, whatever else is asked for |
| SessionRefresh.EventKeeps | apps/web/src/lib/session-refresh.ts:24-53 | every event of any number of tabs keeps the lock with the one tab that posts, the attempts apart and callers served, also where requests or answers are lost and whatever other requests do to the server |
| SessionRefresh.PostsOneAtATime | apps/web/src/lib/session-refresh.ts:1-53 | in every such run at most one post is in flight |
| SessionRefresh.AliveThrough | apps/web/src/lib/session-refresh.ts:24-53 | the cookie, or the token in the answer on its way, stays live through an event if and only if the event neither loses an answer with a new token nor revokes the token from elsewhere |
| SessionRefresh.PostsPresentLiveTokens | apps/web/src/lib/session-refresh.ts:1-53 | in every run a post presents a live token if and only if no answer with a new token was lost before it and nothing else revoked the browser's token: the tabs' own rotations never do |
| SessionRefresh.RequestsAreElsewhere | apps/api/src/modules/auth/auth.service.ts:97-434 | every request to the server is such an event from elsewhere: none brings a revoked token back |
| SessionRefresh.CallersShareResults | apps/web/src/lib/session-refresh.ts:47-52 | whoever joined an attempt has its result if and only if no tab is under way in that attempt, whatever the others do |
| SessionRefresh.ResultsStay | apps/web/src/lib/session-refresh.ts:24-53 | a result is never replaced: all callers of an attempt get the same one |
| SessionRefresh.ResultSaysWhatHappened | apps/web/src/lib/session-refresh.ts:24-45 | a result is ok exactly if a new token arrived and is the cookie now, unauthorized exactly if the server refused, and otherwise the request or its answer was lost; without ok the cookie stays |
| SessionRefresh.SecondPostIsRefused | apps/api/src/modules/auth/auth.service.ts:318-348 | of two posts that present the same token the server refuses the second, which is why there must be one |
| Notifications.InsertionTells | apps/api/src/modules/alerts/notification-dispatch.service.ts:119-125 | after inserting with duplicates skipped every recipient has a row for the alert |
| Notifications.InsertionKeepsKeys | apps/api/src/modules/alerts/notification-dispatch.service.ts:119-125 | and no two rows share a recipient and a source |
| Notifications.NotificationDesk.Deliver | apps/api/src/modules/alerts/notification-dispatch.service.ts:111-215 | one undisturbed delivery: exactly the inserted and, on a replay, the refreshed rows are announced, each once |
| NotificationLaws.DeliveryLeaves | apps/api/src/modules/alerts/notification-dispatch.service.ts:111-215 | row by row: a new row is unread, has the title, body, target and keys of its alert, analysis or message, and is for a recipient who had not been told of it; on a replay of an alert the old rows of its recipients are unread again with the new text, and no other row changes; every recipient had been told or has a new row |
| NotificationLaws.AnnouncedAreNews | apps/api/src/modules/alerts/notification-dispatch.service.ts:126-151 | announced are exactly the rows made and the rows renewed |
| NotificationRuns.EventKeeps | apps/api/src/modules/alerts/notification-dispatch.service.ts:84-215 | every event of interleaved attempts keeps the keys unique, the attempts' own rows apart, and everyone told by each attempt that has stored |
| NotificationRuns.DeliveryReachesEachOnce | apps/api/src/modules/alerts/notification-dispatch.service.ts:84-215 | however attempts interleave, once one has completed each recipient has exactly one row for the alert; on a replay it has the new text and is unread unless read since |
| NotificationRuns.NobodyIsToldTwice | apps/api/src/modules/alerts/notification-dispatch.service.ts:136-151 | without a replay no recipient is announced twice over all attempts |
| RiskScore.SumCriteria | packages/shared-types/src/risk-score.ts:121-130 | the loop over the set adds each marked criterion of the prefix once, in any order |
| RiskScore.ComputeRiskScore | packages/shared-types/src/risk-score.ts:132-185 | the parts, the score, the level and the forced level |
| RiskScore.ForcedLevelNeverMatters | apps/api/src/modules/alerts/alerts.service.ts:386 | the forced level is 3 if and only if attendance scores 12, and then the score's level is at least 3: the maximum is always the score's level |
| RiskScore.DrsIsAtMostFifty | packages/shared-types/src/risk-score.ts:25-59 | the score is at most 50 |
| RiskLaws.MedianIsMiddle | packages/shared-types/src/risk-score.ts:84-91 | the median is half the sum of the values at the two middle ranks, counted without sorting, which are one for an odd number of values |
| RiskLaws.RiskIs | packages/shared-types/src/risk-score.ts:132-178 | in numbers: the academic and attitude points are none from a median of 8.5, one from 6.5, two from 4.5, three from 2.5 and four below; attendance counts 12 or 9 where two lecturers or more all saw three or two absences, else 3 or 2 for the most seen; the score is the sum of the five parts, and its level 4 from 13, 3 from 9, 2 from 5 |
| RiskLaws.CriteriaCount | packages/shared-types/src/risk-score.ts:26-53 | each criterion counts once, by its own points, whoever marked it |
| RiskOrder.SortedIsMonotone | packages/shared-types/src/risk-score.ts:84-91 | every order statistic is monotone: pointwise lower values sort pointwise lower |
| RiskOrder.WorseningNeverLowersTheRisk | packages/shared-types/src/risk-score.ts:132-178 | lower scores, more absences and more criteria never lower the score or the level |
| RiskOrder.OrderDoesNotMatter | packages/shared-types/src/risk-score.ts:132-178 | permuting the evaluations changes nothing of the result |
| RiskOrder.BandPointsFall | packages/shared-types/src/evaluations.ts:24-33 | a higher score never has more points |
| CareOverview.TallyPairs | apps/api/src/modules/statistics/care-overview.service.ts:170-196 | the maps of the loop hold, for each person and department and for student affairs, the logs and students of their counted pairs |
| CareConservation.BuildCareOverview | apps/api/src/modules/statistics/care-overview.service.ts:163-246 | each department's logs are the sum over its lecturers and its students at most that sum; departments and student affairs add up to everything counted; the lists hold exactly the counted writers |
| CareConservation.EveryoneIsInOneList | apps/api/src/modules/statistics/care-overview.service.ts:198-239 | everyone counted is in exactly one list |
| CareConservation.AllIsDepartmentsAndAffairs | apps/api/src/modules/statistics/care-overview.service.ts:180-196 | the counted logs are those of the departments and of student affairs, none twice |
| CareTotals.OverviewCounts | apps/api/src/modules/statistics/care-overview.service.ts:170-240 | in the pairs themselves: a department has the logs of its people who are not of student affairs and the students they are about, student affairs have those of their people, and all together are the logs of everyone of either |
| CareTotals.PersonRowCounts | apps/api/src/modules/statistics/care-overview.service.ts:198-209 | a person is listed with all logs that they wrote and the students they are about, and wrote some |
| MyAlertCare.CountAlertsAwaitingMyCare | apps/api/src/modules/statistics/my-alert-care.ts:13-38 | one pass over the logs counts exactly the alerts for which no log answers the alert or is about its student at or after it |

## Left out

- Unicode: texts are sequences of characters of the classes that the rules ask about, of one code unit each; normalisation to NFKC, the removal of invisible marks, accent folding and the keyword list itself are not modelled, so the identity keyword is a parameter.
- Letters outside the basic plane: the original looks at single code units before an at-sign and at whole characters inside a code; here both are one character.
- `stripFormatting` beyond the rendering of one line, `toggleListPrefix` and `filterMentionables`: joining lines, prefixes and searching add no harder property.
- `Date` values that are not numbers, or outside the range of section 21.4.1.1 of ECMA-262: instants are unbounded integers.
- The fingerprint of an error: a hash, taken as an arbitrary function; the Discord messages and `isFirstSeen`, which only compares two times.
- ErrorCollector.ErrorCollectorService.BeginFlush: does not say what happens to errors still buffered when the process ends while another flush waits.
- ErrorCollector.ErrorCollectorService.PurgeExpired: does not model a flush that commits between two of its batches; the purge is one step.
- A review pass that runs beside a raise or another pass: the pass is one step, and the partial unique index is modelled as the branch that refuses a second automatic alert.
- Sections that are deleted or get another lecturer while alerts are open: the lecturers are fixed.
- AlertService.AlertDesk.Raise: who is told, and the audit entry, come after the transaction and are not part of it.
- AlertService.AlertDesk.CommitSend: the rows of the recipients and the delivery job are not part of it; which section the evaluations name is a parameter.
- Rotation of one token by two requests at the same time: requests run one after the other, since the original reads and writes in separate statements.
- SessionRefresh.PostsPresentLiveTokens: signing in or out in the browser, which replaces the cookie, is no event of the runs.
- Google sign-in is the issue of a token with its own way of signing in; linking of identities, passwords, access tokens and PIN proofs are not modelled.
- Notifications.NotificationDesk.Deliver: does not model the creation time of a row, which a replay renews so that the row is listed first.
- Mail, push and the level in the announcement: they follow the announced rows.
- The number of attempts of a queued job: attempts are any number, so the limit of three is one case.
- The wording of risk reasons, the order of the rows of the care overview and the count of warned students by level.
- Controllers, guards, validation of requests, pages, imports, exports and the libraries behind them.
