# chatdairy core, modelled in Dafny

chatdairy is a browser diary app. The user chats with an AI companion about
the day, and the chat is turned into a diary entry. Entries can also be
written by hand and polished with an AI writing assistant. This project models
the app's data logic: what happens to diaries, chat transcripts, personas, API
connections and the profile when the user acts, and how requests to the model
are shaped. It proves properties of that model. Rendering, browser storage,
network traffic and clocks are not modelled; where they feed the logic, they
become parameters.

Modules, one per part of the program:

- `Common`, `Json`, `Dates`: shared vocabulary.
  - `Common` holds JavaScript's `trim`, `split`, `includes`, `toLowerCase` and truthiness of optional strings.
  - `Json` holds dynamic JavaScript values: truthiness, object spread.
  - `Dates` holds calendar days and their `yyyy-MM-dd` text.
- `DiaryStore`: the diary list of `DiaryContext` and its operations.
- `DiaryOrder`, `Timeline`: the timeline's sort, grouping by day, memories filter, delete confirmation and category colours.
- `ChatMessages`: the day's transcript (send, AI replies, edit, delete, regenerate, clear, load and save keys).
- `ChatRequest`: the message list sent for a chat reply.
  - It covers the context, earlier conversation, rules and latest user block.
  - It also covers the memory gathered from recent diaries, yesterday's messages, and the context for polishing and comments.
- `ReplySplitter`: how an answer becomes chat bubbles.
- `Endpoints`, `ModelListing`: base-URL normalisation, the endpoints used, and the model-list fallback loop.
- `Gemini`: the conversion of a request to Google's format.
- `Registry`: persona and API-connection lists.
  - It covers add, update and delete, with built-in entries protected, plus the obsolete-built-in clean-up.
- `Settings`: the connection editor and the backup export/import of the settings page.
- `Polish`: the writing assistant.
  - It covers tag extraction with the legacy `<polished>` synonym, display cleaning, and the request history of send and reroll.
- `DiffViewer`: per-part accept/reject decisions and the text they rebuild.
- `Profile`: migration of a stored profile and `updateProfile`.
- `ListEditors`: the profile page's tag box, record-list editors, focus list and form normalisation.
- `Categories`: the category picker.
- `DiaryEditor`: editing a diary in the timeline.
- `WritePage`: the writing page.
  - It covers the mode parameter, message selection, the timestamp rule, the future-day lock, the review of a proposed polish, and saving.
- `DiaryGeneration`: `generateDiary`'s code-block extraction and fallback diary, and `generateBriefing`'s fallback.
- `Navigation`: the day page and the small calendar.

Where a comment in the code and the code disagree, the model follows the code:

- The comment at `src/context/AIContext.jsx:403` says a non-404 error stops the model-list loop. The `throw` is inside the loop's `try`, so every failed candidate is recorded and the next one is tried.
- `fetchModels` strips a trailing slash twice (lines 302 and 343). `callAI` strips it once (line 429). Both are modelled as written.

## Model

| member | source | states |
|---|---|---|
| DiaryStore.GetDiaryByDate | src/context/DiaryContext.jsx:62-64 | the diary found is the first in store order with that date; none is found exactly when no diary has it |
| DiaryStore.GetDiaryById | src/context/DiaryContext.jsx:70-72 | the diary found is the first in store order with that id; none is found exactly when no diary has it |
| DiaryStore.GetDiariesByDate | src/context/DiaryContext.jsx:66-68 | a diary is listed exactly when it is stored and has that date |
| DiaryStore.DiariesByDateKeepsOrder | src/context/DiaryContext.jsx:66-68 | the by-date list keeps store order: it distributes over any split of the store |
| DiaryStore.ByDateHeadIsFirst | src/context/DiaryContext.jsx:62-68 | the single by-date lookup finds a diary exactly when the by-date list is non-empty, and finds its head |
| DiaryStore.WithDefaults | src/context/DiaryContext.jsx:78-83 | an added diary keeps its fields; a missing createdAt becomes now; missing comments and chat history become empty lists, while supplied ones are kept |
| DiaryStore.AddDiary | src/context/DiaryContext.jsx:74-86 | exactly one entry is appended at the end and earlier entries are unchanged |
| DiaryStore.AddThenDelete | src/context/DiaryContext.jsx:74-94 | deleting a just-added diary by its unused id gives the store back |
| DiaryStore.AddThenGetById | src/context/DiaryContext.jsx:70-86 | a just-added diary with an unused id is what the by-id lookup returns |
| DiaryStore.Merge | src/context/DiaryContext.jsx:89 | the `{ ...d, ...updates }` spread: keys in the update replace the diary's, every other field stays |
| Json.Spread | src/context/DiaryContext.jsx:89 | object spread: every key of either side, the right side's value winning |
| Json.IndexObject | src/context/UserContext.jsx:44 | an array spread into an object: each item under its decimal index, and no other key |
| Json.DecimalInjective | src/context/UserContext.jsx:44 | different indices have different decimal keys |
| Common.Trim | src/pages/WritePage.jsx:428 | `trim`: the slice of the text between leading and trailing white space, starting and ending with a visible character |
| Common.TrimEmptyIffBlank | src/pages/WritePage.jsx:428 | `s.trim()` is empty exactly when the text is all white space |
| Common.SplitList | src/context/UserContext.jsx:73 | `split(',').map(trim).filter(Boolean)`: exactly the non-empty trimmed comma-separated pieces, none holding a comma |
| DiaryStore.UpdateDiary | src/context/DiaryContext.jsx:88-90 | entries with the id get the merge, every other entry and the length are unchanged |
| DiaryStore.UpdateIdempotent | src/context/DiaryContext.jsx:88-90 | applying the same update twice equals applying it once |
| DiaryStore.DeleteDiary | src/context/DiaryContext.jsx:92-94 | a diary survives exactly when it is stored and has a different id |
| DiaryStore.DeleteKeepsOrder | src/context/DiaryContext.jsx:92-94 | the survivors keep their relative order: deletion distributes over any split of the store |
| DiaryStore.DeleteChatHistory | src/context/DiaryContext.jsx:96-104 | only the chat-history field of the matching entries is removed |
| DiaryStore.AddComment | src/context/DiaryContext.jsx:106-114 | the matching diaries get one comment at the end of their list (a missing list counts as empty), with the given id and date; others are unchanged |
| DiaryStore.DeleteComment | src/context/DiaryContext.jsx:116-126 | the matching diary loses every comment with that id; diaries without a comment list, and all others, are unchanged |
| DiaryStore.AddThenDeleteComment | src/context/DiaryContext.jsx:106-126 | deleting a just-added comment under an unused id restores the diary's comment list |
| DiaryOrder.Insert | src/pages/TimelinePage.jsx:21-28 | one insertion step of the stable sort adds exactly the inserted diary |
| DiaryOrder.PrecedesNotEarlier | src/pages/TimelinePage.jsx:21-28 | when the comparator puts one diary first, it is not on an earlier day |
| DiaryOrder.NotEarlierTransitive | src/pages/TimelinePage.jsx:22 | "not on an earlier day" is transitive |
| DiaryOrder.InsertDescending | src/pages/TimelinePage.jsx:21-28 | insertion keeps a newest-day-first list newest-day-first |
| DiaryOrder.Sort | src/pages/TimelinePage.jsx:21-28 | the sort is a permutation of the diaries, newest day first, for every arrangement the engine may choose among same-day diaries |
| DiaryOrder.SortStrictlyDescendingIsIdentity | src/pages/TimelinePage.jsx:21-28 | a list whose days are strictly decreasing is left as it is |
| DiaryOrder.InsertBeforeSameDay | src/pages/TimelinePage.jsx:21-28 | the date-only comparator inserts a diary before every same-day diary already placed |
| DiaryOrder.InsertKeepsOrder | src/pages/TimelinePage.jsx:21-28 | insertion keeps the relative order of the diaries already placed |
| DiaryOrder.SortByDateIsStable | src/pages/TimelinePage.jsx:21-28 | two same-day diaries come out in their input order |
| DiaryOrder.PrecedesAsymmetric | src/pages/TimelinePage.jsx:21-28 | the timeline comparator never puts each of two diaries before the other |
| DiaryOrder.NotPrecedesTransitive | src/pages/TimelinePage.jsx:21-28 | "not placed before" is transitive through a diary that carries createdAt |
| DiaryOrder.InsertCreatedDescending | src/pages/TimelinePage.jsx:21-28 | with createdAt everywhere, insertion keeps a list in the comparator's order |
| DiaryOrder.SortCreatedDescending | src/pages/TimelinePage.jsx:21-28 | with createdAt everywhere, no diary of the sorted list belongs before an earlier one |
| DiaryOrder.SortByCreatedWithinDay | src/pages/TimelinePage.jsx:24-26 | when every diary carries createdAt, same-day diaries come out newest-created first |
| Timeline.SortDiaries | src/pages/TimelinePage.jsx:21-28 | the timeline order is a permutation, newest day first, and same-day diaries newest-created first when every diary carries createdAt |
| Timeline.AddToGroups | src/pages/TimelinePage.jsx:31-37 | one reduce step: a new day opens a group at the end holding just that diary; a known day keeps the number of groups |
| Timeline.AddToGroupsSpec | src/pages/TimelinePage.jsx:31-37 | the step pushes the diary onto its own day's group and leaves every other group as it was |
| Timeline.GroupByDate | src/pages/TimelinePage.jsx:31-37 | no more groups than diaries; every group is non-empty and holds only diaries of its own day |
| Timeline.GroupKeysStep | src/pages/TimelinePage.jsx:31-37 | the day keys are the distinct days in order of first appearance, one more diary at a time |
| Timeline.GroupListsStep | src/pages/TimelinePage.jsx:31-37 | each group's list grows by the new diary exactly when the diary is on that day |
| Timeline.GroupByDateCorrect | src/pages/TimelinePage.jsx:31-37 | one group per distinct day in first-appearance order, each holding exactly that day's diaries in sorted order |
| Timeline.GroupedDiaries | src/pages/TimelinePage.jsx:19-38 | the page's groups are those of the sorted diaries |
| Timeline.LocalDayOfUtcMidnight | src/pages/TimelinePage.jsx:48-50 | the local day of `new Date('yyyy-MM-dd')` (UTC midnight): the same day at or east of UTC, the day before west of it |
| Timeline.MemoriesAsWritten | src/pages/TimelinePage.jsx:41-53 | the memories filter as written, with the local-day shift of the parsed date |
| Timeline.RecallAsWritten | src/pages/TimelinePage.jsx:47-52 | as written, a diary that does not parse is never recalled; at or east of UTC it is recalled exactly as intended, west of UTC exactly when the day before its date would be |
| Timeline.MemoriesAsWrittenMissesAnniversary | src/pages/TimelinePage.jsx:41-53 | west of UTC, a diary written exactly one year before today is not among the memories |
| Timeline.MemoriesCorrected | src/pages/TimelinePage.jsx:41-53 | a diary is a memory exactly when its written month and day are today's and its year is not |
| Timeline.RecallCorrected | src/pages/TimelinePage.jsx:47-52 | the intended test: never for text that is not a date; otherwise exactly when the date text matches today's after the year and differs in the year |
| Timeline.MemoriesAgreeEastOfUtc | src/pages/TimelinePage.jsx:41-53 | at or east of UTC, the page's memories are the intended ones |
| Timeline.ConfirmDelete | src/pages/TimelinePage.jsx:61-66 | with a pending id, exactly the diaries with that id go and the pending id is cleared; without one, nothing changes |
| Timeline.BorderClass | src/pages/TimelinePage.jsx:81-91 | a known category gets its colour; a name the lookup object inherits (`constructor`, `toString`, …) gets that inherited member; anything else, or none, the light grey default |
| Timeline.InheritedNotColoured | src/pages/TimelinePage.jsx:82-89 | no inherited member name is one of the six coloured categories |
| Timeline.BordersForBuiltIns | src/pages/TimelinePage.jsx:81-91 | a category gets a colour of its own exactly when it is one of the six built-in ones; an inherited member name gets that member; any other category, or none, gets the default border |
| Timeline.BorderColoursDistinct | src/pages/TimelinePage.jsx:81-91 | no two built-in categories share a border colour |
| ChatMessages.SendMessage | src/context/AIContext.jsx:1102-1112 | blank text without an attachment changes nothing; otherwise exactly one user message with that text and attachment is appended |
| ChatMessages.AppendReplies | src/context/AIContext.jsx:1114-1137 | each reply is appended as one AI message, in order, after the unchanged transcript |
| ChatMessages.TypingDelay | src/context/AIContext.jsx:1126 | the pause is 30 ms per character clamped to 800..2000 |
| ChatMessages.EditMessage | src/context/AIContext.jsx:1173-1175 | the messages with that id get the new text; all others and the length are unchanged |
| ChatMessages.EditThenRestore | src/context/AIContext.jsx:1173-1175 | editing a uniquely-identified message back to its old text restores the transcript |
| ChatMessages.DeleteMessages | src/context/AIContext.jsx:1177-1180 | a message survives exactly when its id is not among those deleted |
| ChatMessages.DeleteNothing | src/context/AIContext.jsx:1177-1180 | deleting no ids keeps the transcript |
| ChatMessages.DeleteTwice | src/context/AIContext.jsx:1177-1180 | deleting two batches in turn equals deleting them together |
| ChatMessages.DropTrailingAi | src/context/AIContext.jsx:1144-1148 | the result is a prefix that does not end with an AI message, and everything removed was from the AI |
| ChatMessages.Regenerate | src/context/AIContext.jsx:1139-1150 | it acts exactly when the last message is the AI's; it then removes the maximal trailing run of AI messages and nothing else, otherwise the transcript stays |
| ChatMessages.ClearChat | src/context/AIContext.jsx:1182-1184 | only the greeting remains |
| ChatMessages.LoadTranscript | src/context/AIContext.jsx:147-182 | the day's stored transcript wins; for today a stored legacy transcript is used; otherwise the single greeting; an unreadable day transcript fails the load |
| ChatMessages.SaveTargets | src/context/AIContext.jsx:228-242 | nothing is written unless the transcript was loaded for the active day; then the day key, and for today also the legacy key |
| ChatRequest.RoleOf | src/context/AIContext.jsx:845 | only the `user` sender stays a user; every other sender is the assistant |
| ChatRequest.FormatContent | src/context/AIContext.jsx:810-823 | an image becomes a text part (with a placeholder for empty text) and an image part; any other attachment is noted after the text |
| ChatRequest.LastNonUser | src/context/AIContext.jsx:833-836 | the index of the last message not from the user, or -1; every later message is the user's |
| ChatRequest.MapHistory | src/context/AIContext.jsx:844-847 | the earlier conversation with senders mapped to roles, in order |
| ChatRequest.UserBlock | src/context/AIContext.jsx:855-858 | the latest input block, every message sent as the user, in order |
| ChatRequest.Sandwich | src/context/AIContext.jsx:826-863 | for any split, the history's length + 2 messages: the context prompt first and the rules prompt right after the earlier conversation |
| ChatRequest.SandwichSlot | src/context/AIContext.jsx:826-863 | each history message lands one slot later up to the split and two slots later after it |
| ChatRequest.SandwichShape | src/context/AIContext.jsx:826-863 | the context prompt is first, the rules prompt right after the earlier conversation, and each history message sits at its place |
| ChatRequest.AssembleMessages | src/context/AIContext.jsx:826-863 | the request has the history's length + 2 messages: context first, then the mapped history up to the last non-user message, the rules, then the trailing user block as users; an empty history gives just context and rules |
| ChatRequest.PrevDayKey | src/context/AIContext.jsx:730-736 | the key of the day before the active day, when the active day is a date |
| ChatRequest.CombineHistory | src/context/AIContext.jsx:739-755 | at most the last 20 of yesterday's messages, in order, before today's history; a missing, unreadable or empty list adds nothing |
| ChatRequest.DateBefore | src/context/AIContext.jsx:712-713 | `new Date(a) < new Date(b)`: false when either is not a date, and on real dates the order of the `yyyy-MM-dd` text |
| ChatRequest.SortSameElements | src/context/AIContext.jsx:612 | the date sort keeps exactly the same diaries |
| ChatRequest.PrefixIsNewest | src/context/AIContext.jsx:612-613 | taking the first diaries of a newest-first list leaves out nothing newer |
| ChatRequest.Recent | src/context/AIContext.jsx:610-613 | at most the limit, only the kept diaries, newest day first, none newer left out |
| ChatRequest.RecentForChat | src/context/AIContext.jsx:712-715 | the 7 newest diaries dated strictly before the active day (all of them when fewer), newest first, none left out newer than one taken |
| ChatRequest.RecentForDiary | src/context/AIContext.jsx:894-897 | the 3 newest diaries dated strictly before the active day (all of them when fewer), newest first, none left out newer than one taken |
| ChatRequest.RecentForComment | src/context/AIContext.jsx:987-990 | the 7 newest diaries other than the one commented on (all of them when fewer), newest first, none left out newer than one taken |
| ChatRequest.RecentForChatTakesAllWhenFew | src/context/AIContext.jsx:712-715 | with fewer than 7 such diaries, every diary before the active day is included |
| ChatRequest.Gist | src/context/AIContext.jsx:723 | the summary when there is one, else the first characters of the content |
| ChatRequest.NoteOf | src/context/AIContext.jsx:716-724 | a memory entry shows the AI briefing when there is one (its events, its atmosphere, and its unfinished topics only when non-empty), else title and gist |
| ChatRequest.PolishMessages | src/context/AIContext.jsx:686-689 | the polish request is the persona's prompt followed by the assistant conversation, unchanged |
| ChatRequest.DayChatLog | src/context/AIContext.jsx:627-633 | the chat log of the first diary of the active day, one line per message, when it has a saved chat |
| ChatRequest.DigitPrefix | src/context/AIContext.jsx:1009-1010 | the value and length of the longest run of digits in the given base |
| ChatRequest.ParseInt | src/context/AIContext.jsx:1009-1010 | `parseInt`: leading white space, sign, `0x` prefix, then digits; no digits is NaN |
| ChatRequest.DigitPrefixOfDigits | src/context/AIContext.jsx:1009-1010 | reading a digit string accumulates the number it denotes |
| ChatRequest.NumOfCons | src/context/AIContext.jsx:1009-1010 | a digit string's value is its first digit's place value plus the rest |
| ChatRequest.ParseIntOfDigitString | src/context/AIContext.jsx:1009-1010 | `parseInt` of a decimal digit string is the number it denotes |
| ChatRequest.ParseIntDecimal | src/context/AIContext.jsx:1009-1010 | text starting with a decimal digit (and no `0x`) is read as the digit run from its start |
| ChatRequest.ParseIntOfDigits | src/context/AIContext.jsx:1009-1010 | a number written out in decimal reads back as that number, as the 13-digit timestamp that starts a diary id would when read alone |
| ChatRequest.ChatBeforeDiary | src/context/AIContext.jsx:1003-1014 | as written: the day's messages whose id is below `parseInt` of the diary id, or all of them when that is NaN |
| ChatRequest.DigitPrefixReadsOn | src/context/AIContext.jsx:1009-1010 | a digit run followed by another digit reads to at least ten times the run's value |
| ChatRequest.DigitsReadOn | src/context/AIContext.jsx:1009-1010 | `parseInt` of two or more digits followed by a digit reads past them |
| ChatRequest.StampedIdReadsOn | src/pages/WritePage.jsx:391 | an app id whose random suffix starts with a digit parses to at least ten times its timestamp |
| ChatRequest.ChatBeforeDiaryKeepsLaterMessages | src/context/AIContext.jsx:1003-1014 | as written, such an id lets through a message written after the diary (up to ten times its timestamp) |
| ChatRequest.IdTimestamp | src/pages/WritePage.jsx:391 | the creation time read from the 13 characters an id starts with |
| ChatRequest.IdTimestampOfStampedId | src/pages/WritePage.jsx:391 | an app id yields its timestamp whatever the suffix |
| ChatRequest.ChatBeforeDiaryCorrected | src/context/AIContext.jsx:1003-1014 | the intended cut: the day's messages with an id below the diary's creation time, or all when the id has none |
| ChatRequest.ChatBeforeDiaryCorrectedCutsAtCreation | src/context/AIContext.jsx:1003-1014 | for any app id, the intended cut keeps exactly the messages written before the diary's timestamp |
| ChatRequest.PresentSnippet | src/context/AIContext.jsx:1024-1035 | the last 20 messages of the active day, only when the diary is from another day |
| ReplySplitter.Visible | src/context/AIContext.jsx:868 | the text with every white-space character removed |
| ReplySplitter.VisibleAppend | src/context/AIContext.jsx:868 | removing white space distributes over concatenation |
| ReplySplitter.VisibleEmptyIffBlank | src/context/AIContext.jsx:868 | a line is blank (`trim() === ''`) exactly when nothing visible is left |
| ReplySplitter.ConcatAppend | src/context/AIContext.jsx:868 | writing two lists of lines one after the other is writing their concatenation |
| ReplySplitter.JoinVisible | src/context/AIContext.jsx:868 | splitting on line breaks loses no visible character |
| ReplySplitter.DropBlankVisible | src/context/AIContext.jsx:868 | dropping blank lines loses no visible character |
| ReplySplitter.KeptAreNonBlank | src/context/AIContext.jsx:868 | every kept line is non-blank |
| ReplySplitter.FirstBreak | src/context/AIContext.jsx:874 | the first place where white space follows a sentence end |
| Common.SpaceRunEnd | src/context/AIContext.jsx:874 | the end of the greedy `\s+` run |
| ReplySplitter.SentenceSplit | src/context/AIContext.jsx:874 | the split on white space after `.!?。！？`, one piece more than separators |
| ReplySplitter.SentencePiecesUnbroken | src/context/AIContext.jsx:874 | no piece contains a separator |
| ReplySplitter.SentencePiecesFromLine | src/context/AIContext.jsx:874 | every character of a piece comes from the line |
| ReplySplitter.SentencePiecesEnd | src/context/AIContext.jsx:874 | every piece but the last ends with a sentence end |
| ReplySplitter.SentenceSplitVisible | src/context/AIContext.jsx:874 | only the separators' white space is dropped |
| ReplySplitter.SplitReply | src/context/AIContext.jsx:868-880 | the bubbles are never an empty list |
| ReplySplitter.LinesCorrect | src/context/AIContext.jsx:868 | the non-blank lines: none exactly when the answer is blank, no line break inside, all visible text kept |
| ReplySplitter.SentencesCorrect | src/context/AIContext.jsx:874 | the non-blank sentences: non-blank, made of the line's characters, all visible text kept |
| ReplySplitter.SplitReplyCorrect | src/context/AIContext.jsx:868-880 | a blank answer is one bubble as it is; otherwise every bubble is non-blank without a line break; the bubbles are the lines unless the re-split of one long line gave at least two pieces; together they show exactly the answer's visible text |
| ReplySplitter.ChatReply | src/context/AIContext.jsx:865-885 | a failed request gives one `Error: ` bubble; a reply gives at least one bubble showing its visible text |
| Endpoints.StripSlash | src/context/AIContext.jsx:302 | one trailing slash removed, nothing else |
| Endpoints.StripV1 | src/context/AIContext.jsx:347-349 | a trailing `/v1` removed, nothing else |
| Endpoints.GeminiHostSurvivesStrip | src/context/AIContext.jsx:302-306 | stripping the slash never hides or reveals the Gemini host |
| Endpoints.UsesGemini | src/context/AIContext.jsx:302-306 | Gemini exactly when the provider is `google` or the entered URL names its host |
| Endpoints.ModelsBase | src/context/AIContext.jsx:343-349 | the base is a prefix of the entered URL and cuts off at most slashes and one `/v1`: nothing, `/`, `//`, `/v1`, `/v1/` or `/v1//` |
| Endpoints.ModelCandidates | src/context/AIContext.jsx:339-355 | the model list is tried at base + `/v1/models`, then base + `/models` |
| Endpoints.ChatEndpoint | src/context/AIContext.jsx:517-522 | chat requests go to base + `/v1/chat/completions` |
| Endpoints.EndsWithAppended | src/context/AIContext.jsx:517-522 | after appending a suffix to a bare base, the suffix decides how the string ends |
| Endpoints.ChatEndpointForms | src/context/AIContext.jsx:517-522 | a base entered with or without `/v1` and a trailing slash (stripped at line 429) reaches the same chat URL |
| Endpoints.ModelCandidatesForms | src/context/AIContext.jsx:339-355 | every way of entering the same base (a trailing slash is also stripped at line 302) gives the same two model-list URLs |
| Endpoints.SlashFormsBase | src/context/AIContext.jsx:302-343 | a bare base with up to two trailing slashes keeps the base |
| Endpoints.V1FormsBase | src/context/AIContext.jsx:343-349 | a bare base followed by `/v1` and up to two slashes gives back the base |
| Endpoints.DoubleSlashChatEndpoint | src/context/AIContext.jsx:429 | a base entered with two trailing slashes loses only one before the chat path is appended, so its chat URL is the base, a slash and `/v1/chat/completions`, which differs from the bare base's chat URL |
| Endpoints.GeminiBase | src/context/AIContext.jsx:309-314 | the parsed origin, or the stripped base when it does not parse |
| Endpoints.GeminiModelsUrl | src/context/AIContext.jsx:316 | the Gemini model list URL carries the key |
| Endpoints.ModelOrDefault | src/context/AIContext.jsx:428 | the configured model, or `gpt-3.5-turbo` when it is unset or empty |
| Endpoints.RouteCall | src/context/AIContext.jsx:423-522 | no key refuses the call; otherwise Gemini is used exactly when the provider is `google` or the URL names its host, else the OpenAI-style endpoint |
| ModelListing.FailureOf | src/context/AIContext.jsx:396-411 | a 404, another status or a network failure each become the recorded error for that URL |
| ModelListing.ModelsIn | src/context/AIContext.jsx:383-393 | `data.data`, the body, or `data.list`, whichever is a list first; otherwise an empty list |
| ModelListing.TryCandidates | src/context/AIContext.jsx:362-414 | the first candidate that answers ok gives the list; every failure is recorded and the next is tried; with none ok, the last failure is the error |
| ModelListing.DropModelsPrefix | src/context/AIContext.jsx:332 | the first `models/` removed |
| ModelListing.DropModelsPrefixOfName | src/context/AIContext.jsx:332 | a `models/<id>` name gives back the id |
| ModelListing.GeminiIds | src/context/AIContext.jsx:330-333 | one `{ id }` per model entry, in order; an entry without a string name makes it fail |
| ModelListing.GeminiModels | src/context/AIContext.jsx:318-335 | a failed request is an error; a null body throws; a body without models is an empty list; a model list gives the renamed entries, and anything else throws a `TypeError` |
| ModelListing.FetchModels | src/context/AIContext.jsx:299-420 | one Gemini request, or the OpenAI-style candidates tried in order |
| Gemini.LastMarkerBelow | src/context/AIContext.jsx:455 | the last place where `;base64,` can separate a non-empty type from non-empty data (the greedy group) |
| Gemini.ParseDataUrl | src/context/AIContext.jsx:455 | `/^data:(.+);base64,(.+)$/`: the media type and the data, when the URL has that form |
| Gemini.ParseDataUrlRoundTrip | src/context/AIContext.jsx:455 | a data URL built from a media type and base64 data reads back as the two |
| Gemini.PartOf | src/context/AIContext.jsx:446-470 | text stays text; an image becomes inline data when its URL parses and is dropped otherwise |
| Gemini.PartsOfList | src/context/AIContext.jsx:446-470 | never more parts than given; a single part converts as that part |
| Gemini.PartsOfListAppend | src/context/AIContext.jsx:446-470 | converting distributes over concatenation, so the parts come out in order |
| Gemini.PartsOfListAllText | src/context/AIContext.jsx:446-470 | text parts convert one-to-one, position by position |
| Gemini.GeminiRole | src/context/AIContext.jsx:473-474 | only `user` stays `user`; every other role is `model` |
| Gemini.Contents | src/context/AIContext.jsx:444-478 | the non-system messages, converted, in order |
| Gemini.SystemInstruction | src/context/AIContext.jsx:481-493 | as written: the first system message's content, when there is one |
| Gemini.SystemInstructionAll | src/context/AIContext.jsx:481-493 | every system message's content, in order |
| Gemini.FilterAroundSystem | src/context/AIContext.jsx:444 | dropping the two system messages around a run of others leaves that run |
| Gemini.AssembledWithoutSystem | src/context/AIContext.jsx:826-863 | for any split point, the assembled request without its system messages (the filter at line 444) is the role-mapped earlier conversation followed by the user block |
| Gemini.GeminiContentsOfAssembled | src/context/AIContext.jsx:444-478 | one Gemini content per history message, `user` exactly for the user's earlier messages and for the whole latest block |
| Gemini.GeminiSystemOfAssembled | src/context/AIContext.jsx:481-493 | as written, the system instruction of a chat request is the context prompt |
| Gemini.RulesPromptDropped | src/context/AIContext.jsx:481-493 | as written, with no history the request carries the context prompt and never the rules prompt |
| Gemini.SystemInstructionAllKeepsRules | src/context/AIContext.jsx:481-493 | collecting every system message, the instruction holds both prompts, context first |
| Gemini.SystemInstructionAllSlots | src/context/AIContext.jsx:481-493 | with system messages exactly at 0 and k, the collected instruction is those two |
| Gemini.SystemInstructionAllOne | src/context/AIContext.jsx:481-493 | with exactly one system message, the collected instruction is that one |
| Gemini.SystemInstructionAllNone | src/context/AIContext.jsx:481-493 | with no system message, nothing is collected |
| Registry.Ids | src/context/AIContext.jsx:274 | the ids of the entries, in order |
| Registry.IdIndex | src/context/AIContext.jsx:274 | the position of the first entry with the id; none exactly when no entry has it |
| Registry.FindEntry | src/context/AIContext.jsx:274 | `find` by id (also at line 292): the first entry with it, or none |
| Registry.Add | src/context/AIContext.jsx:263-267 | for personas and, at lines 281-285, connections: one entry appended under the fresh id, never built in, earlier entries unchanged |
| Registry.Update | src/context/AIContext.jsx:269-271 | for personas and, at lines 287-289, connections: entries with the id get the change; ids, flags, order and all other entries stay |
| Registry.UpdateIdempotent | src/context/AIContext.jsx:269-271 | an update whose change settles after one application settles after one update |
| Registry.Delete | src/context/AIContext.jsx:273-279 | for personas and, at lines 291-297, connections: deleting a built-in entry changes nothing; otherwise exactly the entries with the id go, and a deleted selection falls back to the built-in id |
| Registry.BuiltInsSurviveDelete | src/context/AIContext.jsx:273-279 | with unique ids, every built-in entry survives any delete |
| Registry.AddThenDelete | src/context/AIContext.jsx:263-279 | deleting an entry just added under a fresh id gives the list back |
| Registry.Selected | src/context/AIContext.jsx:260-261 | the entry with the selected id, else the first; none only for an empty list |
| Registry.Cleanup | src/context/AIContext.jsx:187-212 | without obsolete built-ins the list is unchanged; otherwise exactly those are removed, or the defaults come back when nothing would be left |
| Registry.CleanupLeavesNoObsolete | src/context/AIContext.jsx:187-212 | after the clean-up no entry is obsolete, so a second one changes nothing |
| Registry.ResetSelectionAsWritten | src/context/AIContext.jsx:216-224 | as written, the selection reset runs on the cleaned list and never changes the selection |
| Registry.ObsoleteCoachStaysSelected | src/context/AIContext.jsx:187-224 | a stored, selected obsolete `coach` persona stays selected after it is removed |
| Registry.ResetSelection | src/context/AIContext.jsx:214-224 | the intended reset: a selection naming an obsolete built-in falls back to `default`; any other selection stays |
| Settings.ProviderById | src/pages/SettingsPage.jsx:13-18 | exactly the four listed providers are found |
| Settings.EditFormOf | src/pages/SettingsPage.jsx:33-41 | old connections get a provider from their type (`official` means OpenAI, else custom); a missing model becomes `gpt-3.5-turbo` |
| Settings.SavedConfig | src/pages/SettingsPage.jsx:45-53 | the typed URL only for a custom provider, the provider's own otherwise; the type is `custom` exactly for a custom provider; an unknown provider cannot be saved |
| Settings.HandleSave | src/pages/SettingsPage.jsx:45-61 | `new` adds a connection, any other id updates it, and the editor closes |
| Settings.SaveTwiceSameAsOnce | src/pages/SettingsPage.jsx:45-61 | saving the same form twice over a connection changes nothing more |
| Settings.ChangeProvider | src/pages/SettingsPage.jsx:75-84 | the URL becomes empty for custom and the provider's otherwise; the name changes only for a new connection |
| Settings.PickFirstModel | src/pages/SettingsPage.jsx:92-100 | the first listed model is picked; an empty list changes nothing |
| Settings.FetchModels | src/pages/SettingsPage.jsx:86-107 | no key asks for one and makes no request; a listing offers its models and picks the first; a failure is shown and the form kept |
| Settings.Export | src/pages/SettingsPage.jsx:314-325 | the backup holds each of the three stored lists under its own name (empty when missing) and each selected id under its own setting |
| Settings.WriteIfTruthy | src/pages/SettingsPage.jsx:352-356 | a key is written only with a truthy value; nothing else changes |
| Settings.Import | src/pages/SettingsPage.jsx:352-356 | every stored key stays; only the five backup keys can be added or changed |
| Settings.ImportWritesTruthyKeys | src/pages/SettingsPage.jsx:352-356 | import writes exactly the backup keys that hold a truthy value and leaves every other stored key |
| Settings.ExportImportRestores | src/pages/SettingsPage.jsx:314-356 | export then import restores the lists and the selected ids wherever they were set |
| Polish.SectionAt | src/components/chat/AIPolishAssistant.jsx:110-111 | the first opening tag and the first closing tag after it, the shortest match; nothing exactly when no opening tag is followed by a closing tag |
| Polish.TagContent | src/components/chat/AIPolishAssistant.jsx:109-113 | the trimmed body of the first section, none without one |
| Polish.NoAngleNoSection | src/components/chat/AIPolishAssistant.jsx:110-112 | text without `<` has no section |
| Polish.OpenOnlyAtEnd | src/components/chat/AIPolishAssistant.jsx:110 | in text before a tag with no `<`, the opening tag occurs only at its place |
| Polish.CloseOnlyAfterBody | src/components/chat/AIPolishAssistant.jsx:110 | a body without `<` ends at the first closing tag |
| Polish.SectionOfLayout | src/components/chat/AIPolishAssistant.jsx:110-111 | in `pre <t>body</t> post` with no `<` before the closing tag, the first match of the tag pattern runs from the opening tag to the first closing tag |
| Polish.TagContentOfSection | src/components/chat/AIPolishAssistant.jsx:109-113 | in `pre <t>body</t> post`, the tag's content is the trimmed body |
| Polish.ContentOf | src/components/chat/AIPolishAssistant.jsx:116 | `<content>`, falling back to `<polished>` when it is absent or empty |
| Polish.TagsOf | src/components/chat/AIPolishAssistant.jsx:118-119 | the `<tags>` body split on commas, trimmed, empties dropped; none when the section is missing or blank |
| Polish.ExtractPolished | src/components/chat/AIPolishAssistant.jsx:107-124 | nothing exactly when no content, title or tag list is found |
| Polish.PlainReplyExtractsNothing | src/components/chat/AIPolishAssistant.jsx:121 | a reply without tags gives nothing to apply |
| Polish.AnglesOfSection | src/components/chat/AIPolishAssistant.jsx:110 | in a one-section reply, `<` occurs only at the two tags |
| Polish.OtherOpenNotAt | src/components/chat/AIPolishAssistant.jsx:110 | another tag's opening does not occur in a one-section reply |
| Polish.OtherTagAbsent | src/components/chat/AIPolishAssistant.jsx:116-118 | in a one-section reply, every other tag name has no section |
| Polish.LegacyPolishedSection | src/components/chat/AIPolishAssistant.jsx:116 | a reply with its text only in `<polished>` still yields it as the content |
| Polish.RemoveSections | src/components/chat/AIPolishAssistant.jsx:129-132 | `replace(/<t>[\s\S]*?<\/t>/g, '')`: sections removed left to right, never longer than the input |
| Polish.CleanForDisplay | src/components/chat/AIPolishAssistant.jsx:126-134 | the four kinds of section removed, then trimmed |
| Polish.CleanPlainReply | src/components/chat/AIPolishAssistant.jsx:126-134 | a reply without tags is shown trimmed |
| Polish.RemoveSingleSection | src/components/chat/AIPolishAssistant.jsx:129-132 | removing the section of `pre <t>body</t> post` leaves `pre + post` |
| Polish.CleanRemovesSection | src/components/chat/AIPolishAssistant.jsx:126-134 | a reply `pre <content>body</content> post` is shown as its surrounding text, trimmed |
| Polish.OnOpen | src/components/chat/AIPolishAssistant.jsx:14-20 | an empty conversation opens with the greeting; otherwise it is kept |
| Polish.TurnsOf | src/components/chat/AIPolishAssistant.jsx:41-43 | role and content of every message except the greeting, in order |
| Polish.ApiHistory | src/components/chat/AIPolishAssistant.jsx:41-51 | exactly one draft-context turn, then every non-greeting message, in order |
| Polish.ApiHistorySnoc | src/components/chat/AIPolishAssistant.jsx:34-51 | one more non-greeting message adds exactly its turn at the end |
| Polish.Send | src/components/chat/AIPolishAssistant.jsx:30-36 | blank text, or text while a request runs, changes nothing; otherwise the user's message is appended |
| Polish.Reroll | src/components/chat/AIPolishAssistant.jsx:68-79 | only a last assistant reply other than the greeting, with nothing running, is removed, and nothing else |
| Polish.RerollActsIff | src/components/chat/AIPolishAssistant.jsx:68-79 | a reroll changes the conversation exactly when it is allowed, and then removes only the last reply |
| Polish.RerollHistory | src/components/chat/AIPolishAssistant.jsx:68-94 | a reroll asks again with the history of the request that produced the removed reply |
| DiffViewer.Next | src/components/ui/DiffViewer.jsx:36-44 | undecided, then rejected, then accepted, then undecided again |
| DiffViewer.Toggle | src/components/ui/DiffViewer.jsx:31-48 | only the clicked index changes, to its next decision |
| DiffViewer.ToggleThrice | src/components/ui/DiffViewer.jsx:31-48 | three clicks bring a decision back and no other decision moves |
| DiffViewer.Contribution | src/components/ui/DiffViewer.jsx:55-65 | unchanged text always counts; an addition unless rejected; a removal only when rejected |
| DiffViewer.Apply | src/components/ui/DiffViewer.jsx:50-69 | the applied text is the parts' contributions in order |
| DiffViewer.ApplyUndecided | src/components/ui/DiffViewer.jsx:50-69 | with no decisions, the result is the rewrite |
| DiffViewer.ApplyAllRejected | src/components/ui/DiffViewer.jsx:55-62 | with every change rejected, the result is the original |
| DiffViewer.AcceptedActsAsUndecided | src/components/ui/DiffViewer.jsx:56-60 | every change accepted gives the same text as no decisions |
| DiffViewer.AcceptedSameAsUndecided | src/components/ui/DiffViewer.jsx:56-60 | switching one part between accepted and undecided never changes the text |
| DiffViewer.ApplyWithoutChanges | src/components/ui/DiffViewer.jsx:50-69 | a diff without changes applies to the original whatever was clicked |
| DiffViewer.Diffs | src/components/ui/DiffViewer.jsx:17-21 | no parts when both texts are empty, else the library's diff |
| DiffViewer.HasAnyChanges | src/components/ui/DiffViewer.jsx:72-75 | shown exactly for a changed part, a new non-empty differing title, or a differing proposed tag list; with neither title nor tags proposed anew, exactly for a changed part |
| DiffViewer.NoContentChangesMeansOriginal | src/components/ui/DiffViewer.jsx:72 | without a changed part, applying gives the original |
| Profile.CarryOver | src/context/UserContext.jsx:47-49 | a field takes its old name's value only when its own is empty and the old one is set |
| Profile.LifeExperience | src/context/UserContext.jsx:52-56 | a non-empty string becomes one `Past` entry; a list stays; anything else becomes empty |
| Profile.LegacyRelationships | src/context/UserContext.jsx:60-65 | when an old field is set: exactly its Family entry, then its Relationships entry, in that order; an Others entry only when neither is set and the text is non-empty |
| Profile.CoreRelationships | src/context/UserContext.jsx:59-69 | a string becomes the legacy entries; a list stays; anything else becomes empty |
| Profile.Strings | src/context/UserContext.jsx:73 | the strings as values, in order |
| Profile.Interests | src/context/UserContext.jsx:72-77 | a string becomes its comma-separated items, trimmed, empties dropped; a list stays; anything else becomes empty |
| Profile.Pets | src/context/UserContext.jsx:79-83 | a non-empty string becomes one pet; a list stays; anything else becomes empty |
| Profile.WithRenamed | src/context/UserContext.jsx:47-49 | the three renamed fields carried over from their old names |
| Profile.LegacyName | src/context/UserContext.jsx:47-49 | each renamed field paired with its old name: `residence`/`location`, `schoolWork`/`workplace`, `identity`/`occupation` |
| Profile.ListValue | src/context/UserContext.jsx:52-83 | each list field's migration gives a list and keeps a list as it is |
| Profile.WithLists | src/context/UserContext.jsx:52-83 | the four list fields made lists, a list kept as it is, and every other field untouched |
| Profile.Migrate | src/context/UserContext.jsx:44-85 | every default key present, stored values over defaults, the four list fields lists |
| Profile.LoadProfile | src/context/UserContext.jsx:37-91 | a stored object is migrated; a stored array is migrated as the object of its index keys; anything else gives the defaults unchanged |
| Profile.LoadArrayKeepsItems | src/context/UserContext.jsx:44 | a stored array keeps every default key and each item under its index |
| Profile.RenamedFieldCarried | src/context/UserContext.jsx:47-49 | a renamed field keeps its own value when set, takes the old one otherwise, and stays empty when neither is set |
| Profile.MigrateIdempotent | src/context/UserContext.jsx:44-85 | migrating a migrated profile changes nothing |
| Profile.UpdateProfile | src/context/UserContext.jsx:98-100 | the shallow merge: updated keys take the new value, every other key stays |
| ListEditors.PressEnter | src/components/ui/TagEditor.jsx:5-14 | the trimmed input is added and the box cleared exactly when it is non-empty and not yet a tag; otherwise nothing changes |
| ListEditors.PressEnterKeepsTagsClean | src/components/ui/TagEditor.jsx:9-10 | adding keeps the tags free of duplicates, each trimmed and non-empty |
| ListEditors.RemoveTag | src/components/ui/TagEditor.jsx:16-18 | every occurrence of the tag goes and the others stay |
| ListEditors.AddThenRemoveTag | src/components/ui/TagEditor.jsx:5-18 | adding a new tag and removing it gives the tags back |
| ListEditors.AddRow | src/pages/ProfilePage.jsx:60-62 | one blank record appended, earlier ones unchanged |
| ListEditors.RemoveRow | src/pages/ProfilePage.jsx:64-67 | exactly the record at that index goes, the rest keep their order; an index past the end removes nothing |
| ListEditors.UpdateRow | src/pages/ProfilePage.jsx:69-73 | one field of one record set; every other record and field unchanged |
| ListEditors.AddThenRemoveRow | src/pages/ProfilePage.jsx:60-67 | adding a blank record and removing it gives the list back |
| ListEditors.UpdateRowUndo | src/pages/ProfilePage.jsx:69-73 | setting a field back to its old value restores the list |
| ListEditors.FocusItems | src/pages/ProfilePage.jsx:267-268 | a stored value that is not a list edits as an empty list |
| ListEditors.UpdateFocus | src/pages/ProfilePage.jsx:277-281 | only the entry at that index is replaced |
| ListEditors.ListOrEmpty | src/pages/ProfilePage.jsx:338-341 | a list is kept, anything else becomes empty |
| ListEditors.GoalsList | src/pages/ProfilePage.jsx:342-344 | a list is kept, a truthy value becomes a one-entry list, a falsy one empty |
| ListEditors.FormOf | src/pages/ProfilePage.jsx:334-346 | every list field a list, every other field as in the profile |
| ListEditors.FormOfIdempotent | src/pages/ProfilePage.jsx:334-346 | building the form from a form changes nothing |
| Categories.CategoryList | src/components/diary/DiaryItem.jsx:48-50 | exactly the set, non-empty categories of the diaries, no more than there are diaries |
| Categories.CategoryListAppend | src/components/diary/DiaryItem.jsx:48-50 | the list follows the diaries' order: it distributes over concatenation |
| Categories.CategoryListSingle | src/components/diary/DiaryItem.jsx:48-50 | one diary contributes its category when set, else nothing |
| Categories.ExistingCategories | src/components/diary/DiaryItem.jsx:48-50 | each category in use exactly once |
| Categories.AllCategories | src/components/ui/CategorySelector.jsx:12-15 | the six built-ins first, then those in use, each once |
| Common.DedupInFirstOrder | src/components/ui/CategorySelector.jsx:15 | `[...new Set(list)]` keeps each value once, in the order of its first occurrence |
| Categories.DedupOfDistinct | src/components/ui/CategorySelector.jsx:15 | a list without duplicates is its own `new Set` |
| Categories.DedupPrefix | src/components/ui/CategorySelector.jsx:15 | the de-duplicated front of a list stays in front when more follows |
| Categories.Filtered | src/components/ui/CategorySelector.jsx:21-24 | all categories when the box is empty or shows the chosen one; otherwise exactly those containing the input, ignoring case |
| Categories.ShowCreate | src/components/ui/CategorySelector.jsx:28 | offered exactly for non-empty input that equals no category, ignoring case |
| Categories.ExactMatchListed | src/components/ui/CategorySelector.jsx:21-28 | when creation is not offered, the named category is in the filtered list |
| Categories.Choose | src/components/ui/CategorySelector.jsx:30-32 | the box follows the chosen category whenever it changes |
| Categories.Select | src/components/ui/CategorySelector.jsx:51-55 | the category chosen and shown, the list closed |
| Categories.Create | src/components/ui/CategorySelector.jsx:57-62 | blank input changes nothing; otherwise the trimmed input is chosen and the list closed |
| Categories.Clear | src/components/ui/CategorySelector.jsx:71-76 | no category and an empty box; whether the list is open stays as it was, since the refocus of the box is left out |
| Categories.ClickOutside | src/components/ui/CategorySelector.jsx:35-43 | the list closes and the box shows the chosen category again |
| Categories.Type | src/components/ui/CategorySelector.jsx:85-88 | the box holds the text and the list opens |
| Categories.CreateSameKeepsSpaces | src/components/ui/CategorySelector.jsx:30-62 | re-creating the chosen category from text that trims to it only closes the list and leaves the untrimmed text in the box, which then filters the list |
| Categories.CreateSameKeepsSpacesExample | src/components/ui/CategorySelector.jsx:30-62 | ` Work ` with `Work` chosen is such a case |
| DiaryEditor.FormOf | src/components/diary/DiaryItem.jsx:20-24 | the form shows the diary, with category `''`, no tags and mood `neutral` when unset |
| DiaryEditor.SavePatch | src/components/diary/DiaryItem.jsx:66-72 | the update carries exactly title, content, trimmed category, tags and mood |
| DiaryEditor.Save | src/components/diary/DiaryItem.jsx:65-74 | the diary with that id takes the form's fields, keeping comments and chat; all others unchanged |
| DiaryEditor.SubmitComment | src/components/diary/DiaryItem.jsx:76-83 | blank text changes nothing; otherwise a `user` comment is added and the box emptied |
| DiaryEditor.SubmittedCommentLast | src/components/diary/DiaryItem.jsx:76-83 | the submitted comment is stored last, untrimmed, under the user |
| WritePage.ModeFromParam | src/pages/WritePage.jsx:54-58 | only `chat` and `manual` switch the mode |
| WritePage.ToggleSelection | src/pages/WritePage.jsx:79-87 | the id's membership flips and no other id's changes |
| WritePage.ShowTimestamp | src/pages/WritePage.jsx:318-323 | the first message shows its time; a later one exactly after a gap over 180000 ms |
| WritePage.IsFutureDate | src/pages/WritePage.jsx:476-480 | no active day is never in the future; otherwise the text comparison with today |
| WritePage.FutureDateIsLater | src/pages/WritePage.jsx:476-480 | on real dates the text comparison is the calendar order |
| WritePage.Preview | src/pages/WritePage.jsx:210-217 | review opens on the current text; the proposal falls back to it; the entry is untouched |
| WritePage.Accept | src/pages/WritePage.jsx:219-232 | the passed text or else the proposal becomes the entry; a proposed title or tags replace the current ones; review closes and pending title and tags clear |
| WritePage.Reject | src/pages/WritePage.jsx:234-238 | review closes and the entry is unchanged |
| WritePage.SavedChat | src/pages/WritePage.jsx:402-408 | id, text, sender and time of every message, in order, no attachment |
| WritePage.SavedChatPrefix | src/pages/WritePage.jsx:402-408 | the projection distributes over concatenation |
| WritePage.SaveDate | src/pages/WritePage.jsx:388 | the active day, or today when none |
| WritePage.SaveGenerated | src/pages/WritePage.jsx:384-425 | with a preview, one diary is appended holding its text, mood, tags, summary, category, briefing and the projected chat, titled `Daily Reflection` when untitled; without one, nothing |
| WritePage.MaySaveManual | src/pages/WritePage.jsx:428 | saving goes ahead exactly when the text or the title has a non-space character |
| WritePage.SaveManual | src/pages/WritePage.jsx:427-454 | an entry with neither text nor title is not saved; otherwise one diary with the editor's text, tags, mood and category, `Untitled Entry` as fallback title, no summary and an empty chat |
| WritePage.BlankEntryNotSaved | src/pages/WritePage.jsx:428 | text and title of only spaces are never saved |
| WritePage.SavedManualFound | src/pages/WritePage.jsx:427-454 | a saved manual entry is found by its id on the day it was saved under |
| DiaryGeneration.StyleOf | src/context/AIContext.jsx:907 | `with_ai_trace` exactly selects that style; anything else writes without AI traces |
| DiaryGeneration.NormalTags | src/context/AIContext.jsx:958-960 | missing or falsy tags become an empty list, a string a one-entry list; every other field unchanged |
| DiaryGeneration.NormalTagsStable | src/context/AIContext.jsx:958-960 | tags already a list are kept, and normalising twice is normalising once |
| DiaryGeneration.TagAtStartsWithAngle | src/context/AIContext.jsx:968 | text matching a tag starts with `<` |
| DiaryGeneration.RemoveTag | src/context/AIContext.jsx:968 | removal never lengthens the text and leaves text without `<` as it is |
| DiaryGeneration.StripPage | src/context/AIContext.jsx:968 | never longer than the reply |
| DiaryGeneration.StripPageUnwraps | src/context/AIContext.jsx:968 | a reply `pre<html>body</body>post` with no other `<` is shown as `pre + body + post`, trimmed |
| DiaryGeneration.StripPlainText | src/context/AIContext.jsx:968 | a reply without `<` is only trimmed |
| DiaryGeneration.RemoveTagPlainPrefix | src/context/AIContext.jsx:968 | text without `<` in front of the rest passes through unchanged |
| DiaryGeneration.RemoveTagSkipsOpen | src/context/AIContext.jsx:968 | an opening tag of the name at the front is removed |
| DiaryGeneration.RemoveTagKeepsOtherClose | src/context/AIContext.jsx:968 | a closing tag of another name is left as it is |
| DiaryGeneration.FallbackDiary | src/context/AIContext.jsx:966-972 | text that does not parse becomes `Generated Diary`, neutral, tagged `generated`, with that text without page tags, trimmed, as content |
| DiaryGeneration.Generate | src/context/AIContext.jsx:949-972 | the parsed object with tags normalised, or the fallback diary built from the text left after the code block is taken out, not from the raw reply |
| Common.SpaceRunStart | src/context/AIContext.jsx:950 | the white space run ending at a point, not reaching back past a bound: blank, and not preceded by white space unless it starts at the bound |
| DiaryGeneration.BlockStart | src/context/AIContext.jsx:950 | the block's text starts past the fence, at the end of the text or at a character that is not white space |
| DiaryGeneration.CodeBlock | src/context/AIContext.jsx:950 | no fence, no block; a block holds no fence and has no white space at either end |
| DiaryGeneration.Unfenced | src/context/AIContext.jsx:950-953 | a non-empty code block replaces the reply; with no block or an empty one the reply is kept |
| DiaryGeneration.UnfencedPlain | src/context/AIContext.jsx:950-953 | a reply without a backtick is parsed as it is |
| DiaryGeneration.UnfencedBlock | src/context/AIContext.jsx:950-953 | a reply `pre` + fence + `json` (any case, or none) + line + body + line + fence + `post`, with no backtick before or inside the body, is parsed as the body |
| DiaryGeneration.FencedFallback | src/context/AIContext.jsx:950-972 | an unparsable reply fenced as `json` shows the text inside the fences as the fallback content |
| DiaryGeneration.FallbackBriefing | src/context/AIContext.jsx:593-597 | the first 100 characters plus `...`, an unknown mood, no unfinished topics |
| DiaryGeneration.Briefing | src/context/AIContext.jsx:586-598 | the parsed note when there is one, else the fallback |
| Navigation.EntryPage | src/pages/DiaryEntryPage.jsx:21-32 | an id wins: that diary under its own day, or nothing; a day alone shows its diaries |
| Navigation.FallbackDate | src/pages/DiaryEntryPage.jsx:35 | the shown day, or today when none |
| Navigation.EntryLabel | src/pages/DiaryEntryPage.jsx:78 | `Entry` exactly for one diary, `Entries` otherwise |
| Navigation.DateClick | src/components/ui/MiniCalendar.jsx:38-56 | the day's page exactly when a diary exists for it, else writing for it; future days are not blocked |
| Navigation.ClickedDayShowsDiaries | src/components/ui/MiniCalendar.jsx:47-51 | a click that leads to a day page leads to one that shows a diary |
| Navigation.Years | src/components/ui/MiniCalendar.jsx:22 | ten consecutive years from five before this year |

## Left out

- Network traffic. `fetch` and the parsing of its JSON are left out: a request's outcome is a parameter (`ModelListing.Attempt`, `DiaryGeneration.Parsed`, the optional briefing).
- Browser storage is a map of parsed values (`Settings.Storage`, `ChatMessages.Stored`). Serialisation, quota errors and the timing of React effects are not modelled.
  - This includes the race between the active day and the loaded day. Only the guard on which keys are written is modelled.
- `Date`, time zones and `date-fns` are left out. Days are `yyyy-MM-dd` strings or (year, month, day) triples. Clocks and `Date.now()`/`Math.random()` ids are parameters.
  - The one exception is the time-zone shift behind the memories finding.
- `new URL(...).origin` is a parameter of the Gemini URL functions.
- Prompt wording is opaque text. So are the greeting text and `DIARY_PROMPTS`.
  - How a style name looks up a prompt object (including inherited object keys) is not modelled. Only the style choice is.
- The `diff` library's `diffWordsWithSpace` is left out. Its output is a given list of parts.
- `src/utils/imageUtils.js` (canvas image compression) is left out. So is the handling of image uploads.
- Rendering, animation, layout, markdown display, mood icons, `CategoriesPage` and `CalendarPage` are left out.
- The first load of the persona and connection lists from storage (`AIContext.jsx:100-133`) is left out. The built-in lists are modelled.
- The export date and version fields of a backup are left out. They are never read back.
- `JSON.parse` is left out: what it makes of the text left after the code block is taken out is a parameter of `generateDiary`'s model.
- String lengths count characters, not UTF-16 code units.
- DiaryGeneration.NormalTags: a truthy `tags` value that is neither a list nor a string is kept as it is, as in the code.
- ChatMessages.LoadTranscript: a stored day transcript that parses to something other than a list is treated as a failed load. The code would put that value in the message state.
- Registry.Update: the change is a function on the payload. The callers always pass every editable field, so the spread replaces them.
- Settings.SavedConfig: an unknown provider gives `None`. The code would throw on the missing provider entry.
- Settings.Export: a stored list that does not parse makes the code throw. Here, each key's parsed value is given.
- Common.Lower: only ASCII letters change case.
- Categories.Clear: the call that focuses the box again (CategorySelector.jsx:75) is left out. Its `onFocus` opens the list only when focus had left the box, which depends on the browser.
- Settings.FetchModels: the listing is given as the entries' ids. The `models[0].id` projection (`SettingsPage.jsx:100`) is not modelled, nor is an entry without a string id, which would set the model to `undefined`.
- Settings.Import: a selected id that is not a string is stored as the parsed value. `localStorage.setItem` would store its string form; JavaScript's `String` conversion is not modelled. A string id, the only kind the app writes, is stored exactly.
- DiaryOrder.Sort: its contract states only the day order. When only some same-day diaries carry `createdAt`, the comparator is not a consistent order and their arrangement depends on the engine. When all of them carry it, DiaryOrder.SortByCreatedWithinDay states the newest-created-first order.
- ChatRequest.ChatBeforeDiary: diary ids are strings, as the app creates them. The branch for a numeric id (AIContext.jsx:1007-1008) is not modelled.
- Polish.RemoveSections: each removal resumes after the previous one, as the regular expression does. A tag spliced together from the two sides of a removed section is not removed again. This is modelled as written, and no claim is made about it.

## Findings

| source | as written | input that shows it | evidently intended | confidence | as-written member | corrected member |
|---|---|---|---|---|---|---|
| src/context/AIContext.jsx:216-224 | The selection check runs as a second updater, on the list already cleaned by the first (187-212). The obsolete persona is no longer in it, so the check never finds it and `currentPersonaId` is never reset. | Stored personas `[coach (isDefault), default]` with `coach` selected. After the clean-up, `coach` is gone but still selected. Since `currentPersona` then falls back to the first entry, the stored id stays stale. | When the selected persona is an obsolete built-in, the selection falls back to `default`. | not executed; medium | Registry.ResetSelectionAsWritten, Registry.ObsoleteCoachStaysSelected | Registry.ResetSelection |
| src/pages/TimelinePage.jsx:41-53 | `new Date('yyyy-MM-dd')` is UTC midnight, but it is read with the local `getMonth`/`getDate`. West of UTC this gives the day before. | On 2024-10-09 at UTC-5, the diary dated 2023-10-09 is read as 2023-10-08 and is not shown as a memory. | A diary is a memory when the month and day written in its date are today's and its year differs. | not executed; high | Timeline.MemoriesAsWritten, Timeline.MemoriesAsWrittenMissesAnniversary | Timeline.MemoriesCorrected, Timeline.RecallCorrected |
| src/context/AIContext.jsx:481-493 | Only the first system message becomes Gemini's `system_instruction`. Every system message is also filtered out of `contents` (444). | A chat request is always `[context, …, rules, …]`. With a Gemini connection, the rules prompt is sent nowhere. | Every system message reaches the model: the context prompt and the rules prompt, in order. | not executed; medium | Gemini.SystemInstruction, Gemini.RulesPromptDropped | Gemini.SystemInstructionAll, Gemini.SystemInstructionAllKeepsRules |
| src/context/AIContext.jsx:1009-1010 | A diary id is `Date.now()` followed by nine random base-36 characters (WritePage.jsx:391). `parseInt` reads every leading digit, so when the random part starts with a digit it reads past the 13-digit timestamp. | A diary made at 1700000000000 whose random part starts with `4` cuts at more than 17000000000000. A message written 5 seconds after the diary still goes into the comment's context. | The cut is at the diary's creation time, the 13-digit timestamp at the front of its id. | not executed; high | ChatRequest.ChatBeforeDiary, ChatRequest.ChatBeforeDiaryKeepsLaterMessages | ChatRequest.ChatBeforeDiaryCorrected, ChatRequest.ChatBeforeDiaryCorrectedCutsAtCreation |
