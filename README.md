# ARCH-LING front end: a Dafny model of its orchestration logic

ARCH-LING is a React front end for archaeological linguistics. A user uploads
a photograph of an inscription; the image goes to Gemini with a fixed Turkish
instruction, the JSON object in the model's answer becomes an `AnalysisResult`,
and a `translations` row is written to the Supabase backend. A community feed
lists the public translations and lets anyone comment on them. A chat panel
forwards questions to Gemini with a domain instruction in front of them. The
home page has a second chat form that only ever answers with a placeholder.

This project models the sequential logic of those pieces. Every network call
(Gemini's `generateContent`, `startChat`/`sendMessage`, every Supabase query,
insert and `auth.getUser`) is replaced by a parameter carrying its answer, and
`JSON.parse` is a partial function `parse: string -> Option<AnalysisResult>`
that yields `None` where it would throw.

| file | module | models |
|---|---|---|
| `wrappers.dfy` | `Wrappers` | `Option` (null/undefined) and `Result` (a value or the error an awaited call threw) |
| `text.dfy` | `Text` | JavaScript's `trim`, `startsWith`, `indexOf`/`lastIndexOf` of a character, `split`/`join` on a character |
| `records.dfy` | `Records` | the row and value shapes of `src/types/index.ts`, chat messages, and `x?.id \|\| null` |
| `query.dfy` | `Query` | what the backend returns for filter + newest-first order + limit |
| `gemini.dfy` | `Gemini` | `src/lib/gemini.ts`: the analysis request, the brace match, the fallback, the chat history mapping |
| `chatbot.dfy` | `ChatBot` | `src/components/ChatBot.tsx` as a class over `messages`, `input`, `loading` |
| `app.dfy` | `App` | `src/App.tsx` as a class over `input`, `messages`, `loading` |
| `community_feed.dfy` | `CommunityFeed` | `src/components/CommunityFeed.tsx`: the feed and comment queries, and a class over its five state fields |
| `image_analysis.dfy` | `ImageAnalysis` | `src/components/ImageAnalysis.tsx`: the payload split, the inserted row, and a class over its state fields |

Points where the code's behaviour is easy to misread; the model follows the
code in each:

- An answer whose matched `{...}` text does not parse makes `analyzeAncientText` throw. It does not fall back. The fallback is used only when no `}` follows a `{`.
- The full answer is never parsed first. Only the regex match is parsed.
- The fallback's script type is the Turkish `Belirlenemedi`.
- Nothing clamps `confidence` to 0..100. The model's number is stored as it is.
- The chat panel passes the log as it stood before the new question was appended. So the history sent never contains the question being asked.
- That history always starts with the greeting, which is sent with role "model" (`ChatBot.GreetingLeadsHistory` proves this). Whether the vendor's chat endpoint accepts a history that starts with "model" is outside this model.
- The image analysis ignores the insert's `{ error }`. The completion callback runs even when the backend rejected the row.
- The declared image MIME type is always `image/jpeg`, whatever type the uploaded file had.

## Model

| member | source | states |
|---|---|---|
| `Text.Trim` | src/components/ChatBot.tsx:22-24 | `trim()` leaves `s[i..j]` where `s[..i]` and `s[j..]` are whitespace and the result neither starts nor ends with whitespace |
| `Text.TrimOfUnique` | src/components/ChatBot.tsx:22-24 | that characterisation of `trim()` determines its result uniquely |
| `Text.TrimEmptyIff` | src/App.tsx:11 | the guard `!input.trim()` holds exactly when the input is all whitespace (both directions) |
| `Text.TrimIdempotent` | src/components/ChatBot.tsx:22-24 | a general property of `trim()`: trimming text that is already trimmed changes nothing |
| `Text.Split` | src/components/ImageAnalysis.tsx:36 | `split(',')` yields at least one piece and no piece contains the separator |
| `Text.JoinSplit` | src/components/ImageAnalysis.tsx:36 | joining the pieces of a split with the separator gives back the original string |
| `Text.SplitAfterSeparator` | src/components/ImageAnalysis.tsx:36 | a separator-free piece followed by the separator is split off as the first piece |
| `Text.SplitJoin` | src/components/ImageAnalysis.tsx:36 | splitting a join of separator-free pieces gives back the pieces |
| `Records.IdOrNull` | src/components/CommunityFeed.tsx:61 | `x?.id \|\| null` is null exactly when there is no object or its id is the empty string, and is the id otherwise |
| `Query.Filter` | src/components/CommunityFeed.tsx:25 | `.eq(...)` keeps every accepted row as often as it occurs and drops every other row |
| `Query.SortDesc` | src/components/CommunityFeed.tsx:26 | `.order(col, { ascending: false })` returns a permutation of its input whose keys never increase |
| `Query.Take` | src/components/CommunityFeed.tsx:27 | `.limit(n)` returns the first `min(n, length)` rows |
| `Query.SelectLeftOut` | src/components/CommunityFeed.tsx:25-27 | an accepted row that filter-order-limit leaves out is no newer than any row it returns |
| `Query.SelectSpec` | src/components/CommunityFeed.tsx:25-27 | filter-order-limit returns exactly min(n, number of accepted rows) accepted rows of the table, newest first; no accepted row left out is newer than a row returned; with at most n accepted rows, all of them are returned |
| `Gemini.AnalysisRequest` | src/lib/gemini.ts:27-35 | the vision request carries the fixed instruction and the payload as it was given, with MIME type always `image/jpeg` |
| `Gemini.BraceMatch` | src/lib/gemini.ts:38 | `/\{[\s\S]*\}/` matches exactly when some `}` follows some `{`; the match is leftmost and greedy: no match starts earlier and none ends later |
| `Gemini.JsonSlice` | src/lib/gemini.ts:38 | `jsonMatch[0]` exists exactly when there is a match, and is the text of the matched span |
| `Gemini.JsonSliceShape` | src/lib/gemini.ts:38 | the matched text starts with `{`, ends with `}`, is a contiguous part of the answer, and no `{` stands before it and no `}` after it |
| `Gemini.BraceMatchAt` | src/lib/gemini.ts:38 | a `{...}` span with no `{` before it and no `}` after it is exactly the match found |
| `Gemini.JsonSliceOfObject` | src/lib/gemini.ts:38 | prose before and after a JSON object is discarded: with no `{` before it and no `}` after it, the matched text is the object, whatever it holds |
| `Gemini.Fallback` | src/lib/gemini.ts:44-52 | the fallback has script type `Belirlenemedi`, empty original text, period and region, confidence 0, and the raw answer as both translation and notes |
| `Gemini.ParseAnswer` | src/lib/gemini.ts:37-52 | with no `}` after a `{` the result is the fallback; otherwise it is `JSON.parse` of the matched text, and a parse failure is a syntax error, never the fallback |
| `Gemini.AnalyzeAncientText` | src/lib/gemini.ts:6-53 | a failed `generateContent` propagates its error unchanged; otherwise the answer is parsed as above, and the only error added is a failed parse |
| `Gemini.VendorRole` | src/lib/gemini.ts:60 | the outbound role is "user" or "model"; it is "user" exactly when the message's role is "user" |
| `Gemini.MapHistory` | src/lib/gemini.ts:59-62 | the history keeps its length and order, and each entry has the translated role and the message content as its single text part |
| `Gemini.MapHistoryAppend` | src/lib/gemini.ts:59-62 | mapping a concatenation gives the concatenation of the mappings |
| `Gemini.ChatRequestFor` | src/lib/gemini.ts:55-69 | one message is sent on a session started from the mapped history with `maxOutputTokens = 1000`; the caller's history is a value and is not changed |
| `ChatBot.ChatBot.constructor` | src/components/ChatBot.tsx:11-19 | the log starts as exactly one assistant greeting, with empty input and not loading |
| `ChatBot.ChatBot.SetInput` | src/components/ChatBot.tsx:103 | typing replaces the input |
| `ChatBot.ChatBot.Send` | src/components/ChatBot.tsx:21-35 | no-op when the trimmed input is empty or a request is loading; otherwise the trimmed question is appended as a user turn, the input is cleared, `loading` is set, and the one request holds the system prompt, `"\n\nKullanıcı sorusu: "` and the question, with the pre-append log as history; the log stays a conversation now awaiting a reply |
| `ChatBot.Ask` | src/components/ChatBot.tsx:22-27 | a question asked while no reply is awaited keeps the log opened by the greeting and alternating, and leaves it awaiting a reply |
| `ChatBot.Answer` | src/components/ChatBot.tsx:36-49 | a reply to an awaited question keeps the log opened by the greeting and alternating, and leaves nothing awaited |
| `ChatBot.GreetingLeadsHistory` | src/components/ChatBot.tsx:11-17 | a log opened by the greeting is sent with the greeting, labelled "model", as the first history entry |
| `ChatBot.ChatBot.Receive` | src/components/ChatBot.tsx:36-49 | exactly one assistant turn is appended, the reply on success and the fixed apology on failure; earlier turns are unchanged and `loading` ends false |
| `App.App.constructor` | src/App.tsx:5-7 | empty input, empty log, not loading |
| `App.App.SetInput` | src/App.tsx:83 | typing replaces the input |
| `App.App.HandleSubmit` | src/App.tsx:9-32 | whitespace-only input is a no-op; otherwise the input is cleared and the log grows by exactly the trimmed user question and the placeholder `Arkeolojik dilbilim analizi yapılıyor...`, earlier turns unchanged; the log stays a sequence of question/placeholder pairs and `loading` ends false |
| `CommunityFeed.PublicFeedSpec` | src/components/CommunityFeed.tsx:19-27 | the feed query returns public rows of the table only, newest first, exactly min(20, number of public rows) of them, and all public rows when there are at most 20; no public row left out is newer than a row shown |
| `CommunityFeed.PublicFeedComplete` | src/components/CommunityFeed.tsx:19-27 | a table of at most 20 rows, all public, is shown in full |
| `CommunityFeed.CommentsQuerySpec` | src/components/CommunityFeed.tsx:40-44 | the comments query returns exactly the comments of that translation, each as often as in the table, newest first |
| `CommunityFeed.CommunityFeed.constructor` | src/components/CommunityFeed.tsx:7-15 | on mount the feed is empty and loading, nothing is selected, no comments, empty input; the load started on mount completes as `LoadPublicTranslations` or `LoadFeedFrom` |
| `CommunityFeed.CommunityFeed.LoadPublicTranslations` | src/components/CommunityFeed.tsx:17-36 | rows replace the feed and a null answer becomes the empty list; an error keeps the feed; `loading` ends false in both outcomes |
| `CommunityFeed.CommunityFeed.LoadFeedFrom` | src/components/CommunityFeed.tsx:17-36 | when the backend evaluates the feed query on a table, the feed field holds public rows of that table only, newest first, exactly min(20, number of public rows) of them, with no public row left out newer than one shown; loading ends false |
| `CommunityFeed.CommunityFeed.LoadComments` | src/components/CommunityFeed.tsx:38-51 | rows replace the comments and a null answer becomes the empty list; an error keeps the previous comments |
| `CommunityFeed.CommunityFeed.LoadCommentsFrom` | src/components/CommunityFeed.tsx:38-51 | when the backend evaluates the comments query on a table, the comments field holds exactly that translation's comments, each as often as in the table, newest first |
| `CommunityFeed.CommunityFeed.SetNewComment` | src/components/CommunityFeed.tsx:206 | typing replaces the comment input |
| `CommunityFeed.CommunityFeed.ToggleComments` | src/components/CommunityFeed.tsx:75-83 | toggling the open translation closes it and empties the comments; toggling another one selects it, keeps the comments, and triggers a reload for that id |
| `CommunityFeed.CommunityFeed.HandleCommentSubmit` | src/components/CommunityFeed.tsx:53-73 | whitespace-only input inserts nothing and changes nothing; otherwise one comment with the given translation id, the trimmed content and the user's id (null when signed out) is inserted; on success the input is cleared and that translation's comments are reloaded; on failure the input is kept |
| `CommunityFeed.ToggleSameTwice` | src/components/CommunityFeed.tsx:75-83 | from nothing selected, toggling the same id twice ends with nothing selected and no comments, whatever the reload in between answered |
| `ImageAnalysis.Payload` | src/components/ImageAnalysis.tsx:36 | `preview.split(',')[1]` is undefined exactly when the preview has no comma; otherwise it is the comma-free text from after the first comma up to the next comma or the end |
| `ImageAnalysis.TranslationRow` | src/components/ImageAnalysis.tsx:48-57 | the row's `original_text`, `translated_text` and `confidence_score` agree with its `analysis_data`, which is the whole result; `image_url` is the full preview; `is_public` is the toggle; `script_id` and `user_id` are null exactly when there is no script or user (or the id is empty) |
| `ImageAnalysis.ImageAnalysis.constructor` | src/components/ImageAnalysis.tsx:12-16 | nothing selected, empty preview, no result, not analysing, `sharePublic` true |
| `ImageAnalysis.ImageAnalysis.HandleFileSelect` | src/components/ImageAnalysis.tsx:18-29 | a file is taken exactly when its MIME type starts with `image/`; then it becomes the selected file and the result is cleared; otherwise nothing changes |
| `ImageAnalysis.ImageAnalysis.OnPreviewRead` | src/components/ImageAnalysis.tsx:23-25 | the completed read's data URL becomes the preview |
| `ImageAnalysis.ImageAnalysis.SetSharePublic` | src/components/ImageAnalysis.tsx:104 | the checkbox sets the share toggle |
| `ImageAnalysis.ImageAnalysis.HandleAnalyze` | src/components/ImageAnalysis.tsx:31-68 | no-op without a selected file and a preview; otherwise the request carries the split payload; on an AI or parse error nothing is stored and the old result stays; on success the result is shown, the lookup pattern is `%scriptType%`, exactly the mapped row is inserted, and the callback runs whether or not the insert failed; `analyzing` is false afterwards on every path |
| `ImageAnalysis.NoJsonAnswer` | src/lib/gemini.ts:38-52 | the answer "I cannot determine the script." yields the fallback with that text as translation and notes |
| `ImageAnalysis.ProseAroundJson` | src/lib/gemini.ts:37-42 | for an answer with prose around a JSON object, the result is `JSON.parse` of the object alone (a syntax error when it does not parse), and the inserted row carries that result's confidence and translation |

## Left out

- Rendering, styling, icons, `alert` and `console` calls, and the locale date formatting. These are presentational only.
- The Gemini SDK calls and every Supabase query, insert and `auth.getUser` call. They are network I/O. Their answers are parameters. The feed and comment queries are also stated as pure functions over an abstract table.
- `JSON.parse` internals. It is an opaque partial function into `AnalysisResult`. A parsed value that is not such an object, lacks fields, or has a non-integer `confidence` is not modelled. JavaScript numbers are modelled as unbounded integers.
- The case-insensitive `ilike('name', '%scriptType%')` lookup and `maybeSingle`. The backend evaluates them, so the model takes the row they return as a parameter. The model also does not capture that `%` and `_` inside the script type act as wildcards.
- The embedded `ancient_scripts` of the feed's select. It is carried as a field of each row; the join itself is not modelled.
- Ordering among rows with equal `created_at`. The backend leaves it unspecified; the model picks one newest-first order.
- `FileReader` internals. The read completing is the separate event `OnPreviewRead`.
- React's batching of state updates, and interleavings of handlers. One example is a late `loadComments` answer overwriting a newer selection. The model runs each handler to completion, and ChatBot's `handleSend` in two steps around its `await`.
- `ChatBot.ChatBot.Receive`: requires a request to be outstanding (`loading`). A reply only arrives for a pending send.
- `e.preventDefault()` in App's submit handler. It is browser behaviour.
- App's `catch` branch. Its `try` block cannot throw, so the branch is dead and is not modelled.
- `src/components/AncientScripts.tsx`. It is one ordered select followed by setting state, with no other logic.
- `src/types/index.ts` and `src/types/database.ts`. They hold only types, used as the shapes of the datatypes.
- Reading the API key from the environment and constructing the SDK client. This is configuration I/O.
