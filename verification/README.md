# Cricket highlights catalog — a Dafny model

This project models the logic that keeps the cricket-highlights catalog up to date
and the logic of the two browser scripts that read it.

- **Back-end pipeline.**
  - Classifying a video into matches, interviews, classic or other.
  - Extracting team names, with three lexicons for three producers.
  - Filtering out short clips.
  - Normalising the board scraper's dates.
  - The three merge policies of the YouTube fetcher, the board scraper and the push webhook.
  - Per-team statistics.
  - The exporter's per-category files.
  - The webhook's request handler.
  - The YouTube API-key quota rotation.
- **Browser helpers.**
  - The video page's duration formatting, twenty-per-page paging, team filter and tab state.
  - The text tool's undo history, case conversions, line and whitespace transforms,
    syllable count, reading levels and character limit.

A catalog is a `seq<Video>`. A Python dict with string keys is an insertion-ordered
association list (`OrderedIndex`), so that `list(d.values())` keeps the source's order.
Python's stable `sort(key=…, reverse=True)` is a stable descending insertion sort
(`Ordering.SortDesc`). Its contract states the three things that define it: it is a
permutation, it is non-increasing, and records with equal keys keep their relative order.

Strings are `seq<char>`. Casing is ASCII. `str.title()` and `\s` follow Python and
JavaScript (see `Text`).

Everything the source reads from the outside is an input of the model:
- storage (S3 objects, local JSON files, SQLite rows) is a `map<string, Catalog>` or a `Catalog`;
- the clock is `now: int`;
- the parsed ISO 8601 duration is `Option<int>` seconds;
- the parsed XML feed entry is a `FeedEntry`;
- the YouTube API answer is a `Details` record;
- the scraped HTML element is an attribute `map<string, string>`;
- the JSON formatter is a function parameter.

Modules, one per concern:
- `Wrappers`, `Text`, `Ordering`, `OrderedIndex` and `Videos` hold shared definitions.
- `Teams`, `Shorts`, `Classifier`, `Dates`, `Merge`, `Scrape`, `TeamStats`, `Exporter`, `FetcherFiles`, `Webhook` and `KeyRotation` model the back-end pipeline.
- `Player` models `app.js`.
- `TextTools` models `js/script.js`.

## Model

| member | source | states |
|---|---|---|
| Ordering.SortDesc | video_fetcher.py:36-37 | The sort used by both catalog merges is a permutation of its input, is non-increasing in the key, and keeps the input order among records with equal keys. |
| Ordering.SortDescOfSorted | bcci_ipl_fetcher.py:164-165 | Sorting a list that is already in non-increasing order returns it unchanged. |
| Ordering.LexLeTrans | video_fetcher.py:37 | Python's string order, used as the sort key, is transitive. |
| Ordering.LexLeAntisym | video_fetcher.py:37 | Two date strings that sort at or below each other are equal. |
| Ordering.PermutationKeepsDistinct | video_fetcher.py:36-37 | Reordering a list keeps its keys pairwise distinct. |
| OrderedIndex.PutAllFacts | video_fetcher.py:29-33 | Building a dict from a list keeps the keys in order of first appearance, without repeats, and each key reads the last element assigned to it (or its earlier value). |
| OrderedIndex.PutValues | bcci_ipl_fetcher.py:161 | A dict assignment adds only the assigned value; every other value was already stored. |
| OrderedIndex.LookupAt | video_fetcher.py:36 | Each value listed by `values()` is what the dict holds under its own key. |
| OrderedIndex.PutAllValues | bcci_ipl_fetcher.py:155-156 | A dict built from a list holds no value that was not already stored or in the list. |
| OrderedIndex.KeyedKeys | video_fetcher.py:29-33 | When every record is stored under its own id, the dict's keys are exactly the ids of its values, in the same order. |
| Videos.OfCategoryMultiset | db_to_json.py:36 | The category filter keeps every record of that category, as often as it occurs, and no other record. |
| Videos.OfCategoryConcat | video_fetcher.py:423 | The category filter distributes over concatenation, so it preserves order. |
| Teams.Matching | video_fetcher.py:85-87 | A lexicon entry is matched exactly when one of its spellings occurs in the text, and never more entries are matched than the lexicon holds. |
| Teams.MatchingDistinct | video_fetcher.py:81-89 | Matching never reports a team twice, because team names in the lexicon are distinct. |
| Teams.TitlesOfMatchingSpec | video_fetcher.py:79-89 | For any lexicon with distinct lower-case names, a title-cased name is reported exactly when some spelling of that team occurs in the text; there are no repeats, and there are at most as many names as teams. |
| Teams.FetcherTeamsSpec | video_fetcher.py:65-89 | The fetcher reports a title-cased team exactly when one of its variations occurs in the lower-cased text; the names are distinct and there are at most 9. |
| Teams.BoardTeamsSpec | bcci_ipl_fetcher.py:71-92 | The board extractor never returns an empty list. It returns `['International']` exactly when no variation occurs. Otherwise it returns the distinct title-cased teams whose variations occur. |
| Teams.DbTeamsSpec | db_to_json.py:75-90 | The exporter reports a title-cased team exactly when its lower-case name occurs in the lower-cased title; the names are distinct and there are at most 10. |
| Teams.DbTeamsEqualsAppTeams | app.js:486-506 | The page's word-by-word capitalisation lists the same teams, in the same order, as the exporter's `str.title()`. |
| Teams.FallbackList | bcci_ipl_fetcher.py:92 | `found or [fallback]` is non-empty, is `[fallback]` exactly when nothing was found, and otherwise is the found list. |
| Teams.FetcherTeams | video_fetcher.py:79-89 | The fetcher's extractor; FetcherTeamsSpec states it. |
| Teams.BoardTeams | bcci_ipl_fetcher.py:71-92 | The board extractor never returns an empty list. |
| Teams.DbTeams | db_to_json.py:75-90 | The exporter's extractor; DbTeamsSpec states it. |
| Teams.AppTeams | app.js:486-506 | The page's extractor; DbTeamsEqualsAppTeams states that it agrees with the exporter's. |
| Shorts.IsShortSpec | video_fetcher.py:40-55 | A clip is short exactly when its duration parsed and is at most 60 seconds, or its lower-cased title holds one of `#shorts`, `#short` or `#ytshorts`. A failed parse gives false even when the title has a tag. |
| Shorts.IsShortCopiesAgree | webhook_handler.py:27-38 | The webhook's one-expression copy of the test agrees with the fetcher's on every input. |
| Shorts.ShortsTagRedundant | video_fetcher.py:49 | The `#shorts` tag is implied by `#short`, so the tag test is decided by the other two tags alone. |
| Shorts.ShortStableUnderTitleExtension | video_fetcher.py:48-50 | Appending text to a title never turns a short into a non-short. |
| Shorts.FetcherIsShort | video_fetcher.py:40-55 | A missing duration answers false, and a duration of at most 60 seconds answers true. |
| Shorts.WebhookIsShort | webhook_handler.py:27-38 | A missing duration answers false, and a duration of at most 60 seconds answers true. |
| Classifier.LiveFirst | video_fetcher.py:100-101 | If `live` occurs in the lower-cased title, the category is 'other' on every channel and whatever the description. |
| Classifier.LiveInsideWords | video_fetcher.py:100 | The `live` test is a plain substring test, so a highlights title containing "deliveries" is filed as 'other'. |
| Classifier.HighlightPrecedence | video_fetcher.py:212-222 | On the default path, a highlights marker in the title decides the category before the interview, classic and match rules: 'classic' with a classic marker, otherwise 'matches', whatever the description. |
| Classifier.TitleOnlyChannelsIgnoreDescription | video_fetcher.py:103-209 | On the Pakistan, England and West Indies channels the category does not depend on the description. |
| Classifier.PakistanEnglandMatchesNeedHighlights | video_fetcher.py:104-167 | On the Pakistan and England channels, 'matches' is returned only when the title has a highlights marker and no classic-highlight marker. |
| Classifier.MatchRuleYieldsMatches | video_fetcher.py:243-257 | The classic test nested under the default path's match rule can never fire, because the classic rule above it has already failed. |
| Classifier.TeamsFromDescription | video_fetcher.py:93-97 | A team named only in the description is still reported, on every channel. |
| Classifier.Categorize | video_fetcher.py:91-257 | The category from the channel's rules and the teams from title and description together; the Classifier lemmas above state its properties. |
| Dates.MakeDate | bcci_ipl_fetcher.py:125 | Constructing a date succeeds exactly for a real calendar date, with leap years and month lengths taken into account. |
| Dates.MonthIndex | bcci_ipl_fetcher.py:125 | A month abbreviation's number, when found, is the position of that abbreviation; `None` means it is no abbreviation. |
| Dates.MonthIndexOf | bcci_ipl_fetcher.py:125 | Every month abbreviation is recognised and gets its own month number. |
| Dates.IsoRoundTrip | bcci_ipl_fetcher.py:128-129 | Parsing the `YYYY-MM-DD` rendering of any valid date gives that date back. |
| Dates.TimeOfDayIgnored | bcci_ipl_fetcher.py:126-127 | For a string with a 'T', only the part before the first 'T' is read as the date. |
| Dates.CommaFormatMatchesIso | bcci_ipl_fetcher.py:118-125 | The board's "3rd Nov, 2024" shape, with any letter suffix after the day and any letter case of the month, parses to the same date as its ISO rendering. |
| Dates.CommaPieces | bcci_ipl_fetcher.py:118-125 | The comma branch joins, with single spaces, only the digits of the first word, the second word and the stripped year, and matches `%d %b %Y` against that one string. |
| Dates.ParseDate | bcci_ipl_fetcher.py:111-132 | Every outcome is a real calendar date: an empty string and every failed parse read as `datetime.min`. |
| Dates.StrptimeIso | bcci_ipl_fetcher.py:126-129 | `%Y-%m-%d` yields only real calendar dates; an impossible day such as 30 February fails. |
| Dates.ParseCommaDate | bcci_ipl_fetcher.py:118-125 | The comma shape yields only real calendar dates. |
| Dates.StrptimeDayMonYear | bcci_ipl_fetcher.py:125 | `%d %b %Y` tries the day alternatives in the regex's order, takes the first whose month and year follow, and succeeds only when the match reaches the end and the date exists. |
| Dates.DigitDayMatchedWhole | bcci_ipl_fetcher.py:124-125 | A run of digits followed by whitespace is taken whole by `%d`, or the match fails: no alternative can stop inside it. |
| Dates.DigitDayDate | bcci_ipl_fetcher.py:124-125 | Day digits, month abbreviation and four-digit year of a valid date, joined with spaces, are read back as that date. |
| Dates.SpaceDigitDayDate | bcci_ipl_fetcher.py:125 | A joined string that starts with a space is matched by `%d`'s last alternative, a space and a digit, so the digit before the month word becomes the day. |
| Dates.DaylessWordTakesDayFromMonthWord | bcci_ipl_fetcher.py:118-125 | When the first word has no digit and the month word is a digit, a non-space whitespace character and a month, the day comes from the month word. |
| Dates.DaylessExample | bcci_ipl_fetcher.py:118-125 | "x 5\tNov, 2024" parses to 5 November 2024. |
| Dates.DayTokenOfNatToString | bcci_ipl_fetcher.py:124-125 | The digits of every day of a month form an accepted `%d` token with that value. |
| Dates.MinDateIsLeast | bcci_ipl_fetcher.py:116 | The failure value `datetime.min` sorts at or below every date. |
| Dates.EmptyDateIsMin | bcci_ipl_fetcher.py:114-116 | An empty date string reads as the least date there is. |
| Merge.FetcherMerge | video_fetcher.py:26-38 | The fetcher's merge is a permutation of the dict's values, is newest first by raw date string, and keeps dict order among equal strings. |
| Merge.FetcherMergeIds | video_fetcher.py:29-36 | The merged catalog has pairwise-distinct ids, and its ids are exactly those of the stored and the new records. |
| Merge.FetcherMergeLastWins | video_fetcher.py:32-33 | Each merged record is the last new record with its id, or the last stored record when no new record has that id. |
| Merge.BoardMerge | bcci_ipl_fetcher.py:164-165 | The board merge is a permutation of the index's values, latest parsed date first, and keeps index order among equal dates. |
| Merge.BoardKeepsStored | bcci_ipl_fetcher.py:158-161 | Adding new records never overwrites: every key of the stored index keeps its record. |
| Merge.BoardAdmitsOnlyNew | bcci_ipl_fetcher.py:155-161 | A record in the output that was not stored is a new record. Its id is no stored id, and its link is neither a stored id nor a stored link. |
| Merge.AddNewValues | bcci_ipl_fetcher.py:159-161 | Every value after the loop was stored, or is a new record that the stored index admitted. |
| Merge.AddNewAdmitted | bcci_ipl_fetcher.py:158-161 | A new record that the index built so far admits is stored under its id, and is still there after the loop. |
| Merge.BoardAddsAdmitted | bcci_ipl_fetcher.py:155-165 | An admitted new record is in the index under its id and in the sorted output. |
| Merge.AddNewConcat | bcci_ipl_fetcher.py:158-161 | The loop over two batches is the loop over the first and then the loop over the second. |
| Merge.AddNew | bcci_ipl_fetcher.py:158-161 | The loop: a record is added under its id when neither its id nor its link is a key yet. Its properties are those of AddNewValues and AddNewAdmitted. |
| Merge.BoardIndex | bcci_ipl_fetcher.py:153-161 | The stored records indexed by id and by link, then the new records added by the loop; BoardKeepsStored and BoardAddsAdmitted state what it holds. |
| Merge.FetcherIndex | video_fetcher.py:29-33 | The stored records by id, then the new ones assigned over them; FetcherMergeIds and FetcherMergeLastWins state what it holds. |
| Merge.BoardKeepsStoredIds | bcci_ipl_fetcher.py:155-164 | A stored id that no stored link equals is still in the output, with its last stored record. |
| Merge.BoardStoresLinkedTwice | bcci_ipl_fetcher.py:155-164 | A stored record with a link is indexed under its id and its link, so the output holds it twice. |
| Merge.BoardLinkShadowsId | bcci_ipl_fetcher.py:155-156 | A stored link equal to another record's id replaces that record: the record is lost and the linked one appears twice. |
| Scrape.BoardRecord | bcci_ipl_fetcher.py:46-60 | A record is built exactly when the required attributes are present. Its id is `<lower-cased source>_<video id>`, its category is 'matches', its teams come from the title, its views default to 'N/A', and its link is the share link or one built from the slug. |
| Scrape.BoardRecords | bcci_ipl_fetcher.py:44-64 | Elements that fail are skipped. Every record kept is a 'matches' record with at least one team. |
| Scrape.BoardRecordsFromElements | bcci_ipl_fetcher.py:44-61 | Every record kept comes from some element that had all the required attributes. |
| Scrape.BoardIdsInjective | bcci_ipl_fetcher.py:49 | Two elements with different video ids give records with different ids. |
| Scrape.FirstPresent | video_fetcher.py:60-62 | The scan picks the first listed size that is present, or reports that none is present. |
| Scrape.BestThumbnail | video_fetcher.py:57-63 | The URL is that of the first of 'maxres', 'high', 'medium', 'default' that is present; with none of them present it is the `hqdefault.jpg` URL built from the id. |
| TeamStats.StatsMatchTallyOf | video_fetcher.py:443-464 | The statistics dict agrees, team by team, with an independent per-team tally over the catalog. |
| TeamStats.TallyOfCounts | video_fetcher.py:445-455 | A team has a tally exactly when it is listed somewhere. `video_count` counts every listing and `matches` counts the listings by 'matches' records. |
| TeamStats.TallyOfLatest | video_fetcher.py:457-464 | The latest record of a tally has the greatest date string among the records listing the team, and is the first such record with that date. |
| TeamStats.StatsSpec | video_fetcher.py:443-464 | For any catalog and team reader, a team is in the dict exactly when it is listed. Its `video_count` is the number of listings, and its `matches` count is at most that. Its latest record is in the catalog. |
| TeamStats.StatsLatest | video_fetcher.py:457-458 | The latest record kept for a team has the maximal date string, and the first one seen wins ties. |
| TeamStats.FetcherStatsSpec | video_fetcher.py:443-455 | In the fetcher's `teams.json`, each team's `video_count` is the number of merged records listing it, and `matches` is at most `video_count`. |
| TeamStats.MatchStatsSpec | db_to_json.py:42-61 | Statistics over the 'matches' records count each team's listings there. The latest record is a 'matches' record of the table. |
| TeamStats.DbStatsSpec | db_to_json.py:42-61 | The exporter's `video_count` for a team is the number of match records whose title yields that team; its latest record is a match record. |
| TeamStats.BumpAgain | video_fetcher.py:444-464 | A record listing a team twice is counted twice but chosen as latest only once. |
| TeamStats.Stats | video_fetcher.py:443-464 | The statistics loop; StatsSpec and StatsMatchTallyOf state what it computes. |
| TeamStats.FetcherStats | video_fetcher.py:439-470 | The fetcher's statistics over the merged catalog; FetcherStatsSpec states them. |
| TeamStats.DbStats | db_to_json.py:42-61 | The exporter's statistics over the 'matches' records; DbStatsSpec states them. |
| Exporter.Export | db_to_json.py:28-39 | The exporter writes the whole table to 'all' and one file for each of the five listed categories, and nothing else. |
| Exporter.CategoryFileIsFilter | db_to_json.py:34-36 | Each category file is the order-preserving filter of the table, holding every record of that category as often as it occurs. |
| Exporter.UnlistedOnlyInAll | db_to_json.py:29-39 | A record whose category is not among the five listed appears in no file except 'all'. |
| Exporter.ExportPartitions | db_to_json.py:29-39 | The five category files and the unlisted records together are exactly the table, counted with multiplicity. |
| FetcherFiles.UpdateCategoriesFacts | video_fetcher.py:417-429 | A category file is written exactly when the batch has records of that category, and it becomes the merge of its stored list with those records. Every other file is unchanged. |
| FetcherFiles.UpdateFilesSpec | video_fetcher.py:413-437 | The 'all' file becomes the merge of the stored list with the whole batch. A category file is rewritten only when the batch holds records of that category. |
| FetcherFiles.UpdateFiles | video_fetcher.py:439-470 | The team statistics are computed from the newly merged 'all' file. |
| FetcherFiles.OtherFilesUntouched | video_fetcher.py:413-437 | Files other than 'all' and the four category files are left alone. |
| FetcherFiles.NewIdsInAll | video_fetcher.py:432-434 | After the update, every new record's id is in the 'all' file. |
| FetcherFiles.NewIdsInCategory | video_fetcher.py:423-428 | A new record of one of the four categories also lands, by id, in its category file. |
| Webhook.InsertIfAbsent | webhook_handler.py:75-76 | A record is put at the front exactly when no record in the file has its id; otherwise the file is unchanged and nothing is written. |
| Webhook.InsertKeepsIdsDistinct | webhook_handler.py:74-76 | Inserting keeps a file free of repeated ids and leaves the record's id in it. |
| Webhook.InsertIdempotent | webhook_handler.py:74-76 | Delivering the same record twice stores it once; the second delivery writes nothing. |
| Webhook.UpdateFilesSpec | webhook_handler.py:57-91 | The update reports success exactly when the 'all' file or the category file lacked the id. Each lacking file gets the record at the front; the other files are unchanged. |
| Webhook.NewRecord | webhook_handler.py:142-153 | The record can be built exactly when every field it reads is present, the `statistics` object included. It carries the video id, the category label, the channel id, and the view count or 'N/A'. |
| Webhook.ChallengeEchoed | webhook_handler.py:97-101 | A request with a non-empty `hub.challenge` gets 200 with the challenge echoed, before anything else is looked at and without touching storage. |
| Webhook.EmptyBodyRejected | webhook_handler.py:104-106 | Without a challenge, a missing or empty body gets 400 'No body in request'. |
| Webhook.UnmonitoredIgnored | webhook_handler.py:118-120 | An entry from a channel outside the channel table gets 200 'Not from monitored channel', with no categorisation and no storage change. |
| Webhook.FilesChangeOnlyWhenProcessed | webhook_handler.py:93-172 | Storage changes only when the handler reaches the storage step and reports success; every other answer leaves the files as they were. |
| Webhook.Process | webhook_handler.py:122-165 | A run that does not end in a successful store leaves the files unchanged. |
| Webhook.StoreSpec | webhook_handler.py:142-156 | Once stored, the video's id is in the 'all' file. |
| Webhook.ProcessSkipsShorts | webhook_handler.py:127-132 | A video that reaches the storage step is not a short. |
| Webhook.Handle | webhook_handler.py:93-172 | Every answer has status 200, 400 or 500, and a processed answer has status 200 and comes from a request with a body and a found video. |
| Webhook.Store | webhook_handler.py:142-165 | The storage step leaves the files unchanged unless it reports success. |
| Webhook.UpdateFiles | webhook_handler.py:57-91 | The two-file update; UpdateFilesSpec states it. |
| KeyRotation.NewKeyManager | key_manager.py:5-10 | A new manager starts at the first key with zero usage and zero last use for every key, and a daily limit of 10000. |
| KeyRotation.ResetCurrent | key_manager.py:20-22 | A key whose last use is at least 86400 seconds old has its usage reset to 0; no other key changes. |
| KeyRotation.Scan | key_manager.py:17-31 | Each round may reset the current key, and the key it returns is the current one and under the limit. Every other key's usage is kept or reset after a day. When no key is returned, all the keys examined are at or over the limit. |
| KeyRotation.GetCurrentKey | key_manager.py:12-31 | The key returned is the one at the current index, and its usage, after any reset, is below the daily limit. Every key passed over on the way was at or over the limit. The key list and the last-use stamps are untouched, and a key unused for a day comes back with usage 0. |
| KeyRotation.NoneMeansAllExhausted | key_manager.py:17-31 | `None` is returned only when every key, after its reset, is at or over the limit; the loop has then gone round once and the index is where it started. |
| KeyRotation.IndexInRange | key_manager.py:29-35 | With a non-empty key list the current index stays in `[0, len(api_keys))` through `get_current_key` and `next_key`. |
| KeyRotation.NextKey | key_manager.py:33-36 | Switching keys fails exactly when there are no keys, because the modulo divides by zero. |
| KeyRotation.UpdateQuotaUsageSpec | key_manager.py:38-45 | Recording use adds the cost to that key alone and stamps its last use with `now`. Under the limit nothing else changes and the index stays. When the usage reaches the limit, the manager moves to the next key and looks for a usable one from there. |
| KeyRotation.UpdateQuotaUsageAdvances | key_manager.py:43-45 | Reaching the limit moves the manager off the charged key: it stops at a key under the limit, having passed over only exhausted ones, or reports none and ends one past the charged key with every key exhausted. |
| KeyRotation.UpdateQuotaUsage | key_manager.py:38-45 | Recording use for an unlisted key raises, and for a listed key succeeds. The manager stays well formed, with the same keys and the same usage keys. |
| KeyRotation.UnknownKeyFails | key_manager.py:38-41 | Recording use raises exactly for an unlisted key, and usage stays recorded for listed keys only. |
| KeyRotation.GetAvailableQuota | key_manager.py:47-49 | The available quota is never negative, equals the limit minus the usage when that is positive, and is the full limit for an unknown key. |
| Player.FindPT | app.js:266-267 | The pattern matches exactly when "PT" occurs, and the match starts at the first "PT". |
| Player.DurationParts | app.js:266-271 | Hours, minutes and seconds are found exactly when "PT" occurs; a missing component counts as 0. |
| Player.DurationPartsRoundTrip | app.js:266-271 | Reading back an ISO 8601 duration with any components present gives those components, and 0 for each one missing. |
| Player.FormatDuration | app.js:262-280 | A string without "PT" is returned unchanged; otherwise the result is a clock reading containing ':'. |
| Player.FormatDurationSpec | app.js:266-276 | For any ISO 8601 duration with any of its components present, with hours the clock reads H:MM:SS and without them M:SS. A missing component counts as 0. Minutes after hours and seconds are zero-padded to two digits, and seconds below 100 are read back from the last two digits. |
| Player.FormatDurationExample | app.js:264 | "PT1H2M10S" is formatted as "1:02:10". |
| Player.FormatDurationEmpty | app.js:269-276 | A bare "PT" reads as no time at all: "0:00". |
| Player.PageOf | app.js:93-95 | Page p is the slice of the list from index (p-1)*20, at most 20 long. |
| Player.PagesConcat | app.js:392-398 | The first p pages followed by page p+1 are the first p+1 pages: pages follow one another without gap or overlap. |
| Player.HasMoreIff | app.js:102-103 | "Load more" is offered exactly while some of the list is not shown yet. |
| Player.ShowPage | app.js:85-111 | Loading shows the current page of the filtered list, with "load more" exactly when more follows. An empty page keeps the old list with a notice, and a failed fetch hides the button. |
| Player.ChangeCategorySpec | app.js:351-360 | Changing to the current category does nothing. Otherwise the page goes back to 1, and the team is cleared unless the new category is 'teams'. |
| Player.ChangeCategoryShowsFirstPage | app.js:351-367 | Outside the teams tab, a category change shows the first page of that category's file, offering more exactly when the file has more than 20 records. |
| Player.ClearTeamSelection | app.js:244-248 | Clearing the team drops it, resets the page to 1, and shows the team grid without "load more". |
| Player.LoadMoreExtends | app.js:370-412 | After the first page and any number of further clicks, the corrected "load more" shows the start of the filtered list one page longer, and offers more exactly while the list goes on. |
| Player.LoadVideosFirstPage | app.js:69-103 | Loading the first page establishes what "load more" extends. |
| Player.LoadMoreAsWrittenDropsAll | app.js:386-388 | With no team selected, "load more" as written appends nothing, however long the list. |
| Player.LoadMoreAsWrittenCounterexample | app.js:386-398 | On a 21-record category the source's "load more" leaves 20 records shown, while the corrected one shows all 21. |
| Player.SelectTeamAsWrittenShowsNothing | app.js:226-241 | Selecting a team on the teams tab, as written, shows no team videos: the key is used as the file name and as the filter. |
| Player.SelectKeyShowsNothing | app.js:87-89 | A lower-case team key matches no extracted team name, so filtering by it empties the list. |
| Player.LowerKeyMatchesNothing | app.js:497-501 | No video's extracted teams include a name starting in lower case. |
| Player.SelectTeamShowsTeam | app.js:226-241 | Selecting a team, corrected, shows the first page of the match videos naming its display name, and every video shown names that team. |
| Player.WithTeam | app.js:88-89 | The team filter keeps exactly the videos whose title yields the team. |
| Player.Filtered | app.js:87-90 | With no team selected the list is unfiltered; otherwise it keeps exactly the videos naming the team. |
| Player.LoadVideos | app.js:69-111 | The current page of the chosen file, filtered by team; ShowPage and LoadVideosFirstPage state what is shown. |
| Player.LoadMore | app.js:370-412 | "Load more", corrected, with the same file and filter as loading; LoadMoreExtends states that it shows one more page. |
| Player.LoadMoreAsWritten | app.js:370-412 | "Load more" as written; LoadMoreAsWrittenDropsAll and LoadMoreAsWrittenCounterexample state what it loses. |
| Player.SelectTeam | app.js:226-241 | Selecting a team, corrected to filter by the display name; SelectTeamShowsTeam states what is shown. |
| Player.SelectTeamAsWritten | app.js:226-241 | Selecting a team as written; SelectTeamAsWrittenShowsNothing states that nothing is shown. |
| Player.ChangeCategory | app.js:351-368 | A category change; ChangeCategorySpec and ChangeCategoryShowsFirstPage state its effect. |
| TextTools.Save | js/script.js:29-55 | Saving keeps the history well formed: at most 50 states, and the index within the stack. |
| TextTools.SaveCurrentNoOp | js/script.js:32-35 | Saving the text that is already current changes nothing. |
| TextTools.SaveSpec | js/script.js:37-50 | An effective save discards the states after the current one and makes the text the newest and current state. The stack then holds the old states up to the current one and the text, cut to 50 from the oldest end. |
| TextTools.Undo | js/script.js:57-71 | Undo steps back one state and returns it when the index is above 0; otherwise it does nothing. The stack is never changed. |
| TextTools.UndoAfterSave | js/script.js:29-71 | Undo right after an effective save brings back the state that was current before it. |
| TextTools.UndoStaysInRange | js/script.js:57-79 | Undo never drives the index below 0. When the undo button is disabled, undo does nothing. |
| TextTools.UndoRevertsEdit | js/script.js:125-174 | After an edit that changed the text, the edited text is current and undo restores the text as it was before the edit. |
| TextTools.LimitChars | js/script.js:583-586 | The input is cut to its first 100000 characters and left alone when shorter. |
| TextTools.LimitCharsIdempotent | js/script.js:583-586 | Cutting twice is cutting once. |
| TextTools.LevelRank | js/script.js:745-753 | A score maps to the level whose threshold band contains it (90/80/70/60/50/30). |
| TextTools.ReadingLevelMonotone | js/script.js:745-753 | A higher score never gives a harder reading level. |
| TextTools.VowelGroups | js/script.js:738-743 | The number of vowel groups is at most the length, and is zero exactly when there is no vowel. |
| TextTools.VowelGroupsAppend | js/script.js:741 | A vowel group appended after a consonant adds exactly one syllable. |
| TextTools.CountSyllables | js/script.js:738-743 | The syllable count is at most the number of ASCII letters. |
| TextTools.SyllablesAsWrittenExcess | js/script.js:741-742 | As written, the count is the number of vowel groups plus the number of trailing consonants. |
| TextTools.SyllablesOfCat | js/script.js:738-743 | "cat" counts 2 as written and 1 as intended. |
| TextTools.ConvertCaseOnlyCase | js/script.js:272-291 | Every conversion keeps the length and changes letter case only. |
| TextTools.ConvertCaseIdempotent | js/script.js:272-291 | Converting twice with the same kind is converting once, for every kind. |
| TextTools.AlternateSpec | js/script.js:288-290 | 'alternate' leaves no upper-case letter at an even index and no lower-case letter at an odd one. |
| TextTools.SentenceCaseIsScan | js/script.js:284-286 | Upper-casing each leftmost, non-overlapping match of `/(^\w|\.\s+\w)/gm`, scanned left to right over the lower-cased text, gives the 'sentence' result. |
| TextTools.ScanSentencesMarked | js/script.js:284-286 | From any position where a scan may resume, the scan upper-cases exactly the characters that start a line or follow a period and whitespace. |
| TextTools.ReplaceRunsKeeps | js/script.js:137-143 | Replacing runs of a character class keeps every other character, in order. |
| TextTools.ReplaceRunsCollapses | js/script.js:137-140 | Replacing each run by one character of the class leaves no two class characters adjacent. |
| TextTools.RemoveAllSpaces | js/script.js:142-143 | 'remove-all-spaces' leaves no whitespace. |
| TextTools.RemoveLineBreaks | js/script.js:136-137 | 'remove-linebreaks' leaves no line break. |
| TextTools.CollapseWhitespace | js/script.js:139-140 | 'remove-whitespace' leaves no two whitespace characters adjacent. |
| TextTools.WhitespaceTransformsKeepText | js/script.js:136-143 | The three whitespace transforms keep every non-whitespace character, in order. |
| TextTools.TrimLinesSpec | js/script.js:145-148 | 'trim-lines' keeps the number of lines, and line i of the result is line i trimmed. |
| TextTools.RemoveEmptyLinesSpec | js/script.js:150-153 | After 'remove-empty-lines', the lines of a non-empty result are the non-blank lines of the input, in order. |
| TextTools.NonBlank | js/script.js:151-152 | The kept lines are exactly the input lines that are not blank after trimming. |
| TextTools.ConvertCase | js/script.js:262-291 | The five conversions by name, and the text unchanged for an unknown name; ConvertCaseOnlyCase and ConvertCaseIdempotent state its properties. |
| TextTools.SentenceCase | js/script.js:284-286 | The 'sentence' conversion keeps the length; SentenceCaseIsScan relates it to the regex scan. |
| TextTools.Alternate | js/script.js:288-290 | The 'alternate' conversion keeps the length; AlternateSpec states the case at each index. |
| TextTools.ModifyText | js/script.js:125-174 | The six line and whitespace transforms by name; the transforms' own rows state their properties. |
| TextTools.Edit | js/script.js:125-174 | The history around an edit stays well formed. |
| TextTools.ReadingLevel | js/script.js:745-753 | The level named by LevelRank; ReadingLevelMonotone states the ordering. |
| TextTools.TrimLines | js/script.js:145-148 | 'trim-lines'; TrimLinesSpec states it line by line. |
| TextTools.RemoveEmptyLines | js/script.js:150-153 | 'remove-empty-lines'; RemoveEmptyLinesSpec states which lines are kept. |
| TextTools.CountSyllablesAsWritten | js/script.js:738-743 | The count as written is at most the number of ASCII letters. |

## Left out

- Storage I/O is not modelled: S3 reads and writes, local file reads and writes, and the SQLite query. File contents are inputs and outputs of the model.
- The storage error branches (a failing read other than "no such key", a failing write) are left out. These are the `except` paths of `update_json_files` and `convert_db_to_json` that return `False`, and they are I/O failures.
- The YouTube Data API calls are foreign calls, so they are left out. This covers the client singleton, the fetch loop with its quota-exceeded retry, and `get_video_details`. The webhook receives the API's answer as a `Details` value.
- HTML scraping and XML parsing are foreign libraries. Their results arrive as attribute maps and as a `FeedEntry`.
- `isodate.parse_duration` is a foreign library; the parsed duration arrives as `Option<int>` seconds.
- `time.time()` is a clock; it is the parameter `now`.
- Python's `set` → `list` order is unspecified. The extractors return teams in lexicon order, and the properties are stated for membership, distinctness and length.
- Casing, `\s` and `str.isdigit` are modelled for ASCII letters and digits (plus the listed whitespace characters). Unicode case mapping is left out.
- The exporter's `latest_video` and the fetcher's keep only some fields of the record. The model keeps the whole record; the fields are a projection of it.
- TeamStats.DbStatsSpec: `teams.json` is written as `list(teams.values())`; the model states membership and counts per team rather than the list's order.
- Merge.BoardKeepsStoredIds: requires that no stored link equals the id, because the source's index lets such a link overwrite the id's entry (Merge.BoardLinkShadowsId shows the record being lost). The model does not correct this; it reproduces it.
- TextTools.AlternateSpec: indexes the text by character, while `split('')` indexes UTF-16 code units; after a character outside the Basic Multilingual Plane the parity of every later index differs. The model and the page agree on text within that plane.
- TextTools.Alternate: the same UTF-16 difference as AlternateSpec.
- TextTools.LimitChars: counts characters, while `substring(0, 100000)` and `.length` count UTF-16 code units; for text outside the Basic Multilingual Plane the cut falls elsewhere and can split a surrogate pair.
- Player.FormatDuration: numbers are unbounded, while `parseInt` and `toString` lose exactness above 2^53; a component of 16 or more digits prints differently on the page.
- Player.FormatDurationSpec: the same 2^53 limit as FormatDuration.
- KeyRotation.UpdateQuotaUsage: `time.time()` is read twice by the manager, once when charging and once inside `next_key`; the model uses one reading `now` for both.
- `is_quota_available` is the predicate `KeyRotation.IsQuotaAvailable`, defined from `GetAvailableQuota`; it has no separate contract.
- The JSON re-formatting of `modifyText` (`format-json`) goes through `JSON.parse`/`JSON.stringify`. It is the parameter `formatJson`, and no property is stated about it.
- Floating-point statistics, view formatting, clock-dependent date formatting, the DOM, storage, notifications, export and share features of the two browser scripts are left out. They are UI and floating-point code.
- The team grid rendering, flags and header text of `selectTeam` are DOM code. Only the state fields and the list shown are modelled.
- Favicon generation, channel subscription, `lambda_function.py`, `config.py` (beyond the channel ids) and `components/SearchBar.jsx` are not part of this model.

## Findings

| source | as written | input that shows it | evidently intended | confidence | as-written member | corrected member |
|---|---|---|---|---|---|---|
| app.js:386-388 | `this.currentTeam === 'all' ? allVideos : allVideos.filter(… .includes(this.currentTeam))`; with no team selected `currentTeam` is `null`, so every video is filtered out | category with 21 videos, no team, page 1 showing 20: "load more" appends nothing and says there are no more | filter only when a team is selected, as `loadVideos` does (app.js:87-90) | high, not executed | Player.LoadMoreAsWrittenCounterexample | Player.LoadMoreExtends |
| app.js:226-241 | `selectTeam` (line 227) stores the lower-case table key (`'india'`) as `currentTeam`; on the teams tab `loadVideos` then reads `teams_videos.json` (lines 74-76), and the filter compares the key with capitalised names (`'India'`, lines 88-89) | selecting 'india' on the teams tab | fetch the matches file and filter by the team's display name | medium, not executed | Player.SelectTeamAsWrittenShowsNothing | Player.SelectTeamShowsTeam |
| js/script.js:741-742 | `/[^aeiouy]*[aeiouy]+/g` is replaced by `'a'`, but trailing consonants after the last vowel are left in the string and counted | "cat" counts 2 | count vowel groups only: "cat" counts 1 | high, not executed | TextTools.SyllablesOfCat | TextTools.VowelGroupsAppend |
