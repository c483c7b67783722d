# FamilyChat core, modelled in Dafny

FamilyChat is a two-person chat between Khadija, who writes Persian, and
Brian, who writes English. The server translates every message into the
other person's language and stores it. The Android client shows the
conversation. This project models the logic of both sides and proves what
it promises:

- **Translation** (`translation.dfy`): the candidate translations from
  Ollama and Google and how each is scored. The model covers how the best
  candidate is selected, the `addWarmth` rewrite of the winner, the Ollama
  prompt, and `translate`, which records the selection in the provider
  statistics.
- **Stores** (`message_store.dfy`, `provider_stats.dfy`): the messages,
  attachments and reactions tables and the provider-statistics table. Each
  is an in-memory table that the store's methods update in place.
- **Analytics summaries** (`provider_summary.dfy`): the two routes that
  turn the statistics into per-provider averages.
- **Message service** (`message_service.dfy`): the records built for text,
  voice and media messages. It also covers how a voice message is
  completed once its transcript is known.
- **Mobile client** (`persona.dfy`, `chat_model.dfy`, `mappers.dfy`,
  `chat_view_model.dfy`): the persona lookup and the mapping from the
  server's JSON shape to the client's message. It also covers the screen
  state and how socket events and send replies change it.

Supporting modules:

- `wrappers.dfy`: `Option` and `Result`.
- `text.dfy`: JavaScript and Kotlin whitespace, `trim`, ASCII lower-casing
  and substring search.
- `string_order.dfy`: the lexicographic order on strings.
- `sorting.dfy`: a stable sort by a string key, proved sorted, a
  permutation and stable.
- `server_types.dfy`: the server's records.

Provider calls, the speech service, generated ids and timestamps are
parameters. The candidates a provider call produced, the transcript, the
ids and the clock readings are passed in.

### Behaviour of the code worth knowing

- For Persian, `addWarmth` is not idempotent when no context line holds a
  heart: a second application appends a second " ❤️"
  (`Translation.WarmthPersianNotIdempotent`). It is idempotent when some
  context line has one, and the English branch always is.
- "Hi there" into Persian, with Ollama answering "سلام" in 10 ms and
  Google "سلام خداحافظ" in 5 ms: Google scores −0.045 against Ollama's
  −0.05, so Google's answer is the one selected
  (`Translation.HiThereScenario`).
- In the Persian branch the trailing space after "عزیزم" can be trimmed
  away. This happens when the text is all whitespace and a context line
  holds a heart. So the guaranteed prefix is "عزیزم" alone.
- Candidates are in the order their provider calls finished. A tie in
  score therefore goes to the faster provider.
- In `processVoiceMessage`, a translation failure after a transcript
  arrived is caught together with everything else. The transcript is then
  never stored and no update is sent.
- The attachments and reactions tables declare a foreign key to
  `messages`, and the better-sqlite3 build enforces foreign keys. So an
  attachment or reaction whose message does not exist is refused. The
  primary key is checked first, so a taken id is reported before a
  missing message.
- `createMediaMessage` stores the attachments before the message they
  belong to. With at least one file, the first attachment is refused, and
  nothing is stored (see Findings). `addReaction` on an unknown message
  fails the same way.

## Model

| member | source | states |
|---|---|---|
| Text.Trim | server/src/services/translationService.ts:129 | `trim()`: the result is the input's slice after its leading whitespace, with only whitespace cut from the end, and neither end is whitespace |
| Text.TrimKeepsWord | server/src/services/translationService.ts:242 | trimming never removes an occurrence of a word whose first and last characters are not whitespace |
| Text.TrimKeepsSuffix | server/src/services/translationService.ts:241-242 | trimming a text with a non-space character followed by a suffix ending in a non-space keeps that suffix at the end |
| Text.TrimIdempotent | server/src/services/translationService.ts:242 | trimming twice is trimming once |
| Text.MissingChar | server/src/services/translationService.ts:163 | a word cannot occur in a text lacking one of its characters |
| Sorting.SortBy | mobile/app/src/main/java/com/chatkhanavadegi/ui/ChatViewModel.kt:170 | `sortedBy`: the result has the input's length and is ordered by the key |
| Sorting.SortByMultiset | mobile/app/src/main/java/com/chatkhanavadegi/ui/ChatViewModel.kt:170 | the sorted list is a permutation of the input |
| Sorting.SortByStable | mobile/app/src/main/java/com/chatkhanavadegi/ui/ChatViewModel.kt:170 | the sort is stable: elements with equal keys keep their relative order |
| StringOrder.LessTotal | server/src/storage/database.ts:282 | the string order is total, so the ordering of provider names is determined |
| Translation.CandidateOf | server/src/services/translationService.ts:191-216 | a settled call gives a candidate iff it succeeded, and for Google only with a non-empty text; an Ollama answer is trimmed; provider and latency are the call's |
| Translation.Contribution | server/src/services/translationService.ts:58-87 | an attempt adds nothing exactly when it yields no candidate, and otherwise exactly its candidate |
| Translation.CollectCandidates | server/src/services/translationService.ts:53-94 | at most one candidate per attempt, and none exactly when every attempt failed |
| Translation.CollectCandidatesAppend | server/src/services/translationService.ts:53-94 | collecting distributes over concatenation, so candidates keep the order of the attempts |
| Translation.CollectCandidatesOne | server/src/services/translationService.ts:58-87 | one attempt contributes its own candidate when it has one, and nothing otherwise |
| Translation.CandidatesFromAttempts | server/src/services/translationService.ts:58-87 | every candidate is the contribution of one of the settled attempts |
| Translation.AffectionHeuristic | server/src/services/translationService.ts:160-178 | the value is in {0, 1, 1.5, 2.5}; it is ≥ 1.5 iff the target locale's endearment cue occurs, and 1 or 2.5 iff the heart occurs |
| Translation.ContextPrefix | server/src/services/translationService.ts:146 | a context entry's first min(6, length) characters |
| Translation.ScoreCandidate | server/src/services/translationService.ts:129-132 | the score is −∞ exactly when the trimmed text is empty |
| Translation.SlowerScoresLower | server/src/services/translationService.ts:151 | with all else fixed, a slower candidate scores strictly lower, by the latency difference / 1000 |
| Translation.IdentityCostsFive | server/src/services/translationService.ts:142-144 | a trimmed text equal to the source case-insensitively scores exactly 5 less than an otherwise equal one |
| Translation.OllamaBonus | server/src/services/translationService.ts:153-155 | Ollama scores 0.5 more than Google exactly for fa-to-en |
| Translation.ContextBonus | server/src/services/translationService.ts:146-149 | the context adds 0.5 exactly when some non-empty entry's prefix occurs in the trimmed text |
| Translation.FirstMax | server/src/services/translationService.ts:108-119 | the index holds a score no other beats, and every earlier score is strictly lower |
| Translation.SelectedIndex | server/src/services/translationService.ts:104-106 | with exactly one candidate that candidate is taken, unscored |
| Translation.SelectedIsFirstMaximal | server/src/services/translationService.ts:108-119 | with several candidates the selected one has a maximal score and every earlier one scores strictly lower |
| Translation.SelectedHasText | server/src/services/translationService.ts:111-117 | if some candidate has non-empty trimmed text, so does the selected one |
| Translation.SelectStep | server/src/services/translationService.ts:108-119 | one loop step keeps the running best as the first maximum of the scores seen so far: a strictly higher score replaces it, an equal or lower one does not |
| Translation.SelectCandidateStep | server/src/services/translationService.ts:108-119 | the same step stated on the candidates: comparing the next candidate's score keeps the running first maximum |
| Translation.SelectBestCandidate | server/src/services/translationService.ts:97-120 | the loop keeping the first strictly better score returns the candidate at `SelectedIndex` |
| Translation.WarmthEnglish | server/src/services/translationService.ts:245-247 | English: the result holds a heart, and equals the input iff the input already held one |
| Translation.WarmthEnglishIdempotent | server/src/services/translationService.ts:245-247 | English: applying the rule twice equals applying it once |
| Translation.WarmthPersianEndearment | server/src/services/translationService.ts:239-242 | Persian: the result always contains عزیزم |
| Translation.WarmthPersianPrefix | server/src/services/translationService.ts:240-242 | Persian: when عزیزم is absent the result starts with it; when present the text is not prefixed |
| Translation.WarmthPersianClosing | server/src/services/translationService.ts:241-242 | Persian: with no heart in the context the result ends with " ❤️" |
| Translation.WarmthPersianNoClosing | server/src/services/translationService.ts:241-242 | Persian: with a heart in the context nothing is appended, only the softened text is trimmed |
| Translation.WarmthPersianIdempotentWithHeart | server/src/services/translationService.ts:239-242 | Persian with a heart in the context: applying the rule twice equals applying it once |
| Translation.WarmthPersianTwice | server/src/services/translationService.ts:239-242 | Persian without a heart in the context, for a trimmed text lacking عزیزم: once gives "عزیزم <text> ❤️", twice appends a second heart |
| Translation.WarmthPersianNotIdempotent | server/src/services/translationService.ts:239-242 | Persian without a heart in the context: "سلام" becomes "عزیزم سلام ❤️" and then "عزیزم سلام ❤️ ❤️" |
| Translation.NonEmptyLines | server/src/services/translationService.ts:225 | `filter(Boolean)`: exactly the non-empty context entries |
| Translation.PromptContext | server/src/services/translationService.ts:225 | at most five lines, a prefix of the non-empty entries, and all of them when there are at most five |
| Translation.BuildOllamaPrompt | server/src/services/translationService.ts:219-236 | the prompt contains the line "Message: " followed by the text, the sentence naming the source and target languages of the direction, and every context line that is sent |
| Translation.PromptText | server/src/services/translationService.ts:222-235 | the assembled prompt contains the message, the language sentence and each context line |
| Translation.Translation | server/src/services/translationService.ts:19-43 | fails iff there are no candidates; otherwise the locale is the direction's target and the provider a real backend |
| Translation.TranslationOfSelected | server/src/services/translationService.ts:28-43 | the result carries the selected candidate's text and provider, locale fa for en-to-fa and en for fa-to-en, and the tone-adjusted text of the selected text |
| Translation.SingleCandidate | server/src/services/translationService.ts:104-106 | a single candidate is returned even with an empty text |
| Translation.NoSuccessfulAttempt | server/src/services/translationService.ts:23-26 | when no provider call succeeded, `translate` fails |
| Translation.SecondOfTwo | server/src/services/translationService.ts:108-119 | of two candidates the later wins exactly when it scores strictly higher |
| Translation.NoPersianCue | server/src/services/translationService.ts:163 | a text without ز, ج and ه holds no Persian endearment word |
| Translation.PlainPersianScore | server/src/services/translationService.ts:134-157 | a Persian candidate with no cue, heart, context or identity scores minus its length difference / 100 and latency / 1000, plus the provider bonus |
| Translation.HiThereScenario | server/src/services/translationService.ts:19-43 | "Hi there" with Ollama "سلام" in 10 ms and Google "سلام خداحافظ" in 5 ms selects Google's text |
| Translation.Translate | server/src/services/translationService.ts:19-44 | returns `Translation` of its inputs; on success, with a writable table, the table becomes the old one with the selected candidate's provider upserted at its safe latency and the given time; otherwise the table is unchanged |
| ProviderStats.JsRound | server/src/storage/database.ts:287 | `Math.round`: the nearest integer, halves rounded up |
| ProviderStats.SafeLatency | server/src/storage/database.ts:287 | 0 for a non-finite or negative latency, else the rounded latency |
| ProviderStats.SafeLatencyOfInteger | server/src/storage/database.ts:287 | an integer latency is stored as is, a negative one as 0 |
| ProviderStats.Find | server/src/storage/database.ts:275-283 | the row with that provider, or none exactly when no row has it |
| ProviderStats.Upserted | server/src/storage/database.ts:266-273 | the upsert adds at most one row |
| ProviderStats.UpsertedProviders | server/src/storage/database.ts:266-273 | after the upsert every provider is the recorded one or an earlier one |
| ProviderStats.UpsertedAscending | server/src/storage/database.ts:282 | the upsert keeps the rows ordered by provider |
| ProviderStats.UpsertedFind | server/src/storage/database.ts:266-273 | the first record makes count 1 and total the latency; later ones add 1 and the latency and overwrite the time; other providers are unchanged |
| ProviderStats.UpsertedMonotone | server/src/storage/database.ts:270-271 | counts and totals never decrease |
| ProviderStats.RecordAllAdds | server/src/storage/database.ts:286-294 | after n records of a provider the count has grown by n, the total by the sum of safe latencies, and the time is the last record's |
| ProviderStats.ProviderStatsTable.constructor | server/src/storage/database.ts:248-257 | the table starts empty |
| ProviderStats.ProviderStatsTable.Record | server/src/storage/database.ts:286-294 | `record` upserts the safe latency and keeps the rows ordered |
| ProviderStats.ProviderStatsTable.List | server/src/storage/database.ts:295-297 | `list` returns the rows ordered by provider |
| ProviderSummary.RoundedAverage | server/src/routes/translationAnalytics.ts:17 | `Math.round(total / count)` equals the integer (2·total + count) div (2·count) |
| ProviderSummary.AverageLatency | server/src/routes/translationAnalytics.ts:17 | no average exactly when the count is 0, else the rounded mean |
| ProviderSummary.BuildProviderSummary | server/src/routes/translationAnalytics.ts:12-20 | one entry per stat, in order, with provider, count and time copied and the rounded average |
| ProviderSummary.AnalyticsRouteProviders | server/src/routes/analytics.ts:10-15 | the second route's mapping: one entry per stat, in order |
| ProviderSummary.RoutesAgree | server/src/routes/analytics.ts:10-15 | both routes produce the same summary for every list of stats |
| ProviderSummary.FindAt | server/src/storage/database.ts:282 | with providers ordered, a provider is found at its own row |
| ProviderSummary.AverageAfterRecords | server/src/routes/translationAnalytics.ts:14-19 | after n records of a new provider its summary has count n and the rounded mean of the safe latencies |
| ProviderSummary.EmptyTableSummary | server/src/routes/__tests__/messagesRoutes.test.ts:81-84 | with no records the summary is empty |
| ProviderSummary.OllamaScenario | server/src/routes/__tests__/messagesRoutes.test.ts:71-78 | one record of ollama at 42 ms gives count 1 and average 42; a second at 58 ms gives count 2 and average 50 |
| MessageStore.FindRow | server/src/storage/database.ts:93-110 | the row with that id, or none exactly when no row has it |
| MessageStore.FindRowAt | server/src/storage/database.ts:21 | with unique ids, looking up a row's id finds that row |
| MessageStore.MapRows | server/src/storage/database.ts:227-242 | an `UPDATE ... WHERE id` rewrites exactly the rows with that id |
| MessageStore.MapRowsFind | server/src/storage/database.ts:227-242 | an id-preserving update keeps ids unique, finds the same rows, and changes only the targeted one |
| MessageStore.VoiceUpdateEffect | server/src/storage/database.ts:227-242 | `updateVoiceProcessing` writes exactly the seven columns; sender, original locale, audio URL, type, time and id stay; other rows are unchanged |
| MessageStore.UpdateUnknownId | server/src/storage/database.ts:239 | an update of an unknown id changes nothing |
| MessageStore.AudioUrlEffect | server/src/storage/database.ts:220-226 | `updateAudioUrl` changes only the audio URL of the given row |
| MessageStore.AttachmentsOf | server/src/storage/database.ts:112-122 | exactly the attachments of that message |
| MessageStore.AttachmentsOfAppend | server/src/storage/database.ts:300-308 | a new attachment joins its own message's list, at the end, and no other |
| MessageStore.ReactionsOf | server/src/storage/database.ts:124-133 | exactly the reactions of that message |
| MessageStore.ReactionsOfAppend | server/src/storage/database.ts:314-322 | a new reaction joins its own message's list, at the end, and no other |
| MessageStore.NewestFirstOrder | server/src/storage/database.ts:89 | the listing holds the same rows, with creation times cut to whole seconds never increasing |
| MessageStore.NewestFirstTies | server/src/storage/database.ts:89 | rows created within the same second are listed most recently inserted first |
| MessageStore.ListedSecond | server/src/storage/database.ts:89 | `datetime(created_at)` as an order key: a prefix of the timestamp of at most 19 characters, exactly 19 for a full ISO-8601 time |
| MessageStore.PageSlice | server/src/storage/database.ts:90 | a page is the slice at the offset, `limit` rows when that many remain, all remaining rows for a negative limit |
| MessageStore.PagesJoin | server/src/storage/database.ts:90 | two consecutive pages of n rows make the page of 2n rows |
| MessageStore.MessageDatabase.constructor | server/src/storage/database.ts:18-71 | the tables start empty |
| MessageStore.MessageDatabase.Create | server/src/storage/database.ts:199-219 | the insert succeeds iff the id is new, and then appends the row; otherwise nothing changes |
| MessageStore.MessageDatabase.Get | server/src/storage/database.ts:188-198 | null for an unknown id, else that row with its attachments and reactions |
| MessageStore.MessageDatabase.List | server/src/storage/database.ts:180-187 | the page of the newest-first listing, each row with its attachments and reactions |
| MessageStore.MessageDatabase.UpdateAudioUrl | server/src/storage/database.ts:220-226 | rewrites the audio URL of the row with that id and nothing else |
| MessageStore.MessageDatabase.UpdateVoiceProcessing | server/src/storage/database.ts:227-242 | rewrites the seven voice columns of the row with that id and nothing else |
| MessageStore.MessageDatabase.CreateAttachment | server/src/storage/database.ts:300-308 | a taken attachment id gives a duplicate-key outcome, else a missing message an unknown-parent outcome, else the attachment is appended; nothing changes on failure |
| MessageStore.MessageDatabase.CreateReaction | server/src/storage/database.ts:314-322 | a taken reaction id gives a duplicate-key outcome, else a missing message an unknown-parent outcome, else the reaction is appended; nothing changes on failure |
| MessageStore.HasIdAppend | server/src/storage/database.ts:199-219 | after a row is appended its id is present, and every id present before still is |
| MessageStore.MessageDatabase.ListAttachments | server/src/storage/database.ts:309-311 | the message's attachments |
| MessageStore.MessageDatabase.ListReactions | server/src/storage/database.ts:243-245 | the message's reactions |
| MessageService.ContextOf | server/src/services/messageService.ts:44 | one context line per message, in order |
| MessageService.ContextLineSource | server/src/services/messageService.ts:44 | each line is the tone-adjusted text, else the translation, else the original, else "" |
| MessageService.TextDirection | server/src/services/messageService.ts:42 | en-to-fa exactly for Brian |
| MessageService.PersonaLocale | server/src/services/messageService.ts:43 | the original locale is the direction's source |
| MessageService.VoiceDirection | server/src/services/messageService.ts:227 | a recording is translated out of its own locale into the other one |
| MessageService.CaptionLocale | server/src/services/messageService.ts:141 | no locale exactly for a missing or empty caption, else the persona's |
| MessageService.ToPublicUrl | server/src/services/messageService.ts:197-200 | "/media/" followed by the relative path with every backslash turned into "/" |
| MessageService.PublicUrlSlashes | server/src/services/messageService.ts:199 | the URL has no backslash, and a path without one is kept as it is |
| MessageService.MediaAttachments | server/src/services/messageService.ts:143-162 | one attachment per file, in file order, with the file's URL, MIME type and kind |
| MessageService.TextRecord | server/src/services/messageService.ts:48-62 | the original locale is the persona's and the translated locale the result's |
| MessageService.TextRecordFields | server/src/services/messageService.ts:42-62 | a text record keeps the text, carries the translation, locales of both sides and provider, no audio or transcript, type text |
| MessageService.PlaceholderFields | server/src/services/messageService.ts:83-97 | a voice placeholder has only its audio URL and locale, type voice |
| MessageService.EmptyCaption | server/src/services/messageService.ts:141-167 | an empty caption is stored as "" without a locale |
| MessageService.CreateTextMessage | server/src/services/messageService.ts:38-71 | a failed translation stores nothing; otherwise the text record is stored on a new id and returned without media or reactions; the statistics gain the selected provider exactly when the translation succeeded and the table is writable |
| MessageService.CreateVoiceMessage | server/src/services/messageService.ts:73-136 | stores the placeholder and exactly one audio/m4a attachment at its URL, and returns the placeholder with it |
| MessageService.VoiceMessageReadBack | server/src/services/messageService.ts:99-125 | reading a stored voice message back gives the placeholder with exactly its audio attachment |
| MessageService.CreateMediaMessage | server/src/services/messageService.ts:138-187 | as written: succeeds iff the id is new and there are no files; with a file on a new id it fails on the first attachment, storing nothing |
| MessageService.StoreAttachments | server/src/services/messageService.ts:143-162 | inserts one attachment per file in order and stops at the first refused one; all are stored when the message exists and the ids are fresh, none when the message is missing |
| MessageService.CreateMediaMessageRecordFirst | server/src/services/messageService.ts:138-187 | with the record written first, a new id and fresh attachment ids always succeed and store the record and one attachment per file; a taken id changes nothing |
| MessageService.MediaUploadFailsWhenAttachmentsGoFirst | server/src/services/messageService.ts:143-180 | a one-file upload to an empty database fails with an unknown message and stores no message |
| MessageService.MediaUploadSucceedsWhenRecordGoesFirst | server/src/services/messageService.ts:143-180 | the same upload succeeds when the record goes first, with one attachment stored |
| MessageService.AddReaction | server/src/services/messageService.ts:189-195 | a taken id fails as a duplicate, else an unknown message fails as such, changing nothing; otherwise stores and returns the reaction |
| MessageService.NoTranscriptUpdate | server/src/services/messageService.ts:218-246 | without a transcript every text, translation and transcript column is cleared |
| MessageService.TranslatedTranscriptUpdate | server/src/services/messageService.ts:226-246 | a translated transcript becomes the original text, translated into the other locale |
| MessageService.ProcessVoiceMessage | server/src/services/messageService.ts:202-255 | a translation failure writes nothing and calls nobody; otherwise the seven columns are updated and the callback gets the re-read message iff it exists and there is a callback; the statistics gain the selected provider exactly when a transcript was translated and the table is writable |
| Personas.FirstWithId | mobile/app/src/main/java/com/chatkhanavadegi/model/Persona.kt:8 | `firstOrNull`: an entry with that id, or none exactly when no entry has it |
| Personas.FromIdRoundTrip | mobile/app/src/main/java/com/chatkhanavadegi/model/Persona.kt:4-8 | each persona is found by its own id |
| Personas.FromIdKnown | mobile/app/src/main/java/com/chatkhanavadegi/model/Persona.kt:8 | only "khadija" and "brian" are found; null and other strings give null |
| Mappers.MediaTypeOf | mobile/app/src/main/java/com/chatkhanavadegi/model/Mappers.kt:10-14 | video and audio by their lower-cased name, an image otherwise |
| Mappers.MessageTypeOf | mobile/app/src/main/java/com/chatkhanavadegi/model/Mappers.kt:27-31 | voice and media by their lower-cased name, a text otherwise |
| Mappers.KindNamesRoundTrip | mobile/app/src/main/java/com/chatkhanavadegi/model/Mappers.kt:10-31 | the server's names map back to their kinds, and the mapping ignores case |
| Mappers.ToAttachments | mobile/app/src/main/java/com/chatkhanavadegi/model/Mappers.kt:5-16 | attachments keep their count, order, ids, URIs and MIME types, and each kind is the lower-cased name's kind |
| Mappers.ToReactions | mobile/app/src/main/java/com/chatkhanavadegi/model/Mappers.kt:17-25 | `mapNotNull` never adds reactions |
| Mappers.ToReactionsAppend | mobile/app/src/main/java/com/chatkhanavadegi/model/Mappers.kt:17-25 | the mapping distributes over concatenation, so the order is kept |
| Mappers.ToReactionsOne | mobile/app/src/main/java/com/chatkhanavadegi/model/Mappers.kt:18-24 | a reaction is kept, with its persona, exactly when its persona id is known |
| Mappers.ToReactionsAllKnown | mobile/app/src/main/java/com/chatkhanavadegi/model/Mappers.kt:17-25 | with only known personas nothing is dropped |
| Mappers.ToDomain | mobile/app/src/main/java/com/chatkhanavadegi/model/Mappers.kt:4 | the sender is the persona with that id, else Brian |
| Mappers.ToDomainFields | mobile/app/src/main/java/com/chatkhanavadegi/model/Mappers.kt:3-46 | "khadija" maps to Khadija and every other id to Brian; texts, audio URL, transcript and time are copied; the message kind is the lower-cased name's kind; the attachments and reactions are their mapped lists |
| ChatViewModel.Without | mobile/app/src/main/java/com/chatkhanavadegi/ui/ChatViewModel.kt:170 | `filterNot`: no message has the id, and every message with another id keeps its multiplicity |
| ChatViewModel.WithoutAppend | mobile/app/src/main/java/com/chatkhanavadegi/ui/ChatViewModel.kt:170 | filtering distributes over concatenation, so the order is kept |
| ChatViewModel.WithoutOne | mobile/app/src/main/java/com/chatkhanavadegi/ui/ChatViewModel.kt:170 | a single message is dropped exactly when it has the id |
| ChatViewModel.Upsert | mobile/app/src/main/java/com/chatkhanavadegi/ui/ChatViewModel.kt:169-171 | the result is ordered by creation time |
| ChatViewModel.UpsertMultiset | mobile/app/src/main/java/com/chatkhanavadegi/ui/ChatViewModel.kt:170 | the result holds the messages with other ids and the new one once, nothing else |
| ChatViewModel.UpsertNewOnce | mobile/app/src/main/java/com/chatkhanavadegi/ui/ChatViewModel.kt:170 | exactly one message has the new message's id, and it is the new message |
| ChatViewModel.UpsertKeepsOthers | mobile/app/src/main/java/com/chatkhanavadegi/ui/ChatViewModel.kt:170 | every message with another id is kept, with its multiplicity |
| ChatViewModel.UpsertStable | mobile/app/src/main/java/com/chatkhanavadegi/ui/ChatViewModel.kt:170 | messages with equal times keep their order, the new one last among them |
| ChatViewModel.AppendSorted | mobile/app/src/main/java/com/chatkhanavadegi/ui/ChatViewModel.kt:150 | the result is ordered by creation time |
| ChatViewModel.AppendKeepsDuplicates | mobile/app/src/main/java/com/chatkhanavadegi/ui/ChatViewModel.kt:150 | appending keeps every old message, so a message already shown with the same id appears twice |
| ChatViewModel.ApplyReaction | mobile/app/src/main/java/com/chatkhanavadegi/ui/ChatViewModel.kt:93-105 | the reducer maps each message on its own |
| ChatViewModel.ReactionEffect | mobile/app/src/main/java/com/chatkhanavadegi/ui/ChatViewModel.kt:93-105 | only the reaction's message changes, only its reactions, and only by appending the reaction when its persona is known and its id is new |
| ChatViewModel.ReactionIdempotent | mobile/app/src/main/java/com/chatkhanavadegi/ui/ChatViewModel.kt:95-101 | delivering a reaction twice equals delivering it once |
| ChatViewModel.PlayAudioFor | mobile/app/src/main/java/com/chatkhanavadegi/ui/ChatViewModel.kt:67-73 | PlayAudio in "fa" with the spoken text and audio URL iff the phone's persona is Khadija, the sender is Brian and the tone-adjusted or translated text is not blank |
| ChatViewModel.NoPlayAudioForOwnMessages | mobile/app/src/main/java/com/chatkhanavadegi/ui/ChatViewModel.kt:68 | no one hears their own messages, and nothing plays without a persona |
| ChatViewModel.ChatViewModel.constructor | mobile/app/src/main/java/com/chatkhanavadegi/ui/ChatViewModel.kt:36 | the state starts loading, with no persona and no messages |
| ChatViewModel.ChatViewModel.OnPersona | mobile/app/src/main/java/com/chatkhanavadegi/ui/ChatViewModel.kt:49-50 | only the persona changes |
| ChatViewModel.ChatViewModel.OnMessage | mobile/app/src/main/java/com/chatkhanavadegi/ui/ChatViewModel.kt:63-88 | a new or updated message is upserted, and the event is `PlayAudioFor` it |
| ChatViewModel.ChatViewModel.OnReaction | mobile/app/src/main/java/com/chatkhanavadegi/ui/ChatViewModel.kt:91-106 | the messages become `ApplyReaction` of them and stay ordered |
| ChatViewModel.ChatViewModel.LoadMessages | mobile/app/src/main/java/com/chatkhanavadegi/ui/ChatViewModel.kt:111-117 | loading ends and the messages become the fetched list sorted by time, or empty on failure |
| ChatViewModel.ChatViewModel.OnSent | mobile/app/src/main/java/com/chatkhanavadegi/ui/ChatViewModel.kt:125-135 | without a persona nothing changes; a reply to a text or media send is upserted |
| ChatViewModel.ChatViewModel.OnVoiceSent | mobile/app/src/main/java/com/chatkhanavadegi/ui/ChatViewModel.kt:144-154 | without a persona nothing changes; a reply to a voice send is appended and the list re-sorted |

## Findings

| source | as written | input that shows it | evidently intended | confidence | as-written member | corrected member |
|---|---|---|---|---|---|---|
| server/src/services/messageService.ts:143-180 | each attachment is inserted before the message it references, while the attachments table declares a foreign key to `messages` (server/src/storage/database.ts:55) | any media upload with one file: the first attachment insert is refused, and the message is never stored | insert the message record first, then its attachments | not executed | MessageService.CreateMediaMessage, MessageService.MediaUploadFailsWhenAttachmentsGoFirst | MessageService.CreateMediaMessageRecordFirst, MessageService.MediaUploadSucceedsWhenRecordGoesFirst |

## Left out

- Provider and speech I/O: the Ollama and Google HTTP calls, the dynamic import of the Google client, and the Deepgram call with its file read. Their outcomes are inputs: the settled attempts or candidates, and an optional transcript.
- Concurrency: `Promise.allSettled` and the detached `processVoiceMessage`. The candidate order is an input, and `ProcessVoiceMessage` is a separate method that `CreateVoiceMessage` does not call.
- Floating point: scores are exact reals with a separate −∞, latencies are integers and `Number.isFinite` is a `JsNumber` constructor.
- Text.Lower: ASCII letters only. The only comparisons against fixed words are "video", "audio", "voice" and "media", and no non-ASCII character lower-cases to one of their letters, so those comparisons are exact. For the identity penalty and the English cue regex, non-ASCII case is not folded.
- Text.Trim and Text.IsBlank: whitespace is the ECMAScript and Kotlin whitespace sets over code points. String lengths count code points, not UTF-16 units, which changes the length penalty for characters outside the Basic Multilingual Plane.
- StringOrder.Less: ordering is by code point. SQLite's BINARY collation over UTF-8 gives the same order. JavaScript and Kotlin compare UTF-16 units, which differs only for characters outside the Basic Multilingual Plane.
- MessageStore.NewestFirst: `datetime(created_at)` is not parsed. It is taken as the first 19 characters of the ISO-8601 text the service always writes, that is, the time to the whole second; a timestamp SQLite cannot parse, which it lists last, is not modelled. Messages created within the same second tie in SQLite, which leaves their order unspecified; the model lists them in reverse insertion order.
- MessageStore.AttachmentsOf and MessageStore.ReactionsOf: the SQL query order is unspecified, and the model uses insertion order.
- SQLite mechanics: the WAL pragma, the ALTER TABLE migration, `ON DELETE CASCADE` (nothing deletes) and the checks on `NOT NULL` columns are not modelled. Foreign keys are modelled as enforced.
- Generated values: `uuid()` and `new Date().toISOString()` are method parameters.
- MessageService.ToPublicUrl: `path.relative` against the media root is not modelled. The method takes the already relative path.
- Translation.AddWarmth: the third branch, which returns the text unchanged for any other locale, cannot be reached with the two locales and is not modelled.
- Translation.Translate: a failing analytics write is a flag that skips the update. The returned result does not depend on it.
- ChatViewModel: `sendReaction` only calls the server and changes no state, so it has no state transition here. `selectPersona` writes the persona store, whose emission is `OnPersona`. The coroutine plumbing and event flows are left out; the PlayAudio event is `OnMessage`'s result.
- Logging, HTTP routing, validation, socket emission, configuration, and the Android UI and platform code are not modelled.
