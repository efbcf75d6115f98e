# Content-creator: a verified model of its core

Content-creator is a voice-command browser extension with a marketing home page. The user presses a shortcut or a
popup button. The extension's content script records audio from the microphone. The background worker sends the
audio, with the selected text, to the Gemini API. The answer, cleaned of Markdown fences, either replaces the
selection or goes to the clipboard. The home page reads its blog from Markdown files and syncs them into a
database, once at server start-up when the last sync is older than an hour. It rate-limits its API routes and
shows a feature carousel, pricing cards and a recorder demo.

This project models that core in Dafny, one module per source file:

- `Background` (extension worker): the MIME mapping, the prompt choice and the interpretation of the API reply.
  It also holds the relay with its inject-and-retry recursion and the message listener over the mutable API key
  (class `Coordinator`).
- `ContentScript`: the recorder MIME choice and the session's state machine (class `VoiceSession`). The recorder,
  its callbacks and its timers are events on that class.
- `MarkdownCleanup`: the content script's `cleanMarkdownFormatting`.
- `RateLimit`: the fixed-window limiter, with its store as a class field. The store is a plain JavaScript
  object, so identifiers named like `Object.prototype` properties take their own path.
- `FileBlogPosts`, `BlogPosts`, `SyncFileBlogs` and `StartupSync`: the blog pipeline. Directory listings, parsed
  frontmatter, database calls and clocks are parameters.
- `FeatureCarousel`, `PriceCard` and `RecorderDemo`: the home page's pure rules and the small bits of component
  state.
- `Strings` and `Wrappers`: shared helpers. They cover JavaScript's `trim`, `startsWith`, `endsWith`, `indexOf`,
  `includes`, whitespace `split` and decimal printing, plus `Option` and `Result`.

Browser and server APIs (chrome messaging, `MediaRecorder`, clipboard, `fetch`, the file system, the database)
appear only through their outcomes, given as parameters.

The clean-up is not idempotent; `MarkdownCleanup.CleanNotIdempotent` gives an input.

## Model

| member | source | states |
|---|---|---|
| Background.GeminiMimeType | extension/src/background/index.ts:183-191 | the first of webm, mp4, mpeg contained in the recorder's type decides the API type; anything else is sent as webm |
| Background.EditPrompt | extension/src/background/index.ts:206 | the edit prompt embeds the selected text verbatim right after `Context text: "` |
| Background.ChoosePrompt | extension/src/background/index.ts:204-207 | the edit prompt for a selection with a non-space character, the transcription prompt otherwise |
| Background.PromptChoice | extension/src/background/index.ts:204-207 | the edit prompt (containing the selection) is chosen exactly when the selection has a non-space character; otherwise the transcription prompt |
| Background.InterpretGeminiReply | extension/src/background/index.ts:250-279 | success exactly for a 2xx reply whose candidate text is not blank, giving that text trimmed; 401/403 give the invalid-key message; any other non-2xx status gives 'Gemini API failed: status statusText'; blank text gives 'No text received from Gemini API' |
| Background.InvalidKeyDistinct | extension/src/background/index.ts:258-262 | the invalid-key message differs from every generic API-failure message |
| Background.ProcessAudio | extension/src/background/index.ts:159-191 | a missing key fails first and an empty audio second; only then is a request sent, carrying the key, the mapped MIME type, the audio and the chosen prompt; the reply is the interpreted API text on success and that interpretation's error otherwise |
| Background.SendMessageWithRetry | extension/src/background/index.ts:119-147 | the loop returns what the recursive retry returns; it makes 1 to 3 sends and at most 2 injections, with sends ≤ injections + 1 |
| Background.Relay | extension/src/background/index.ts:119-147 | a delivered attempt answers with its reply; an error that is not a missing receiver is passed on; a missing receiver fails with the injection error before the last attempt and with 'could not be loaded' on it |
| Background.Surface | extension/src/background/index.ts:130-140 | an enclosing injection `catch` keeps successes and turns every failure into the injection error |
| Background.IntendedRelay | extension/src/background/index.ts:119-147 | with the corrected catch, a success is some attempt's reply and a failure is the injection error, the exhaustion error or some attempt's own error |
| Background.RelayUsesThreeAttempts | extension/src/background/index.ts:127-143 | the outcome depends only on the first three sends and first two injections; there is never a fourth attempt |
| Background.RelayFailureOrigin | extension/src/background/index.ts:126-146 | a failure is either the first send's own error that is not a missing receiver, or the injection error; a first send without a receiver can only fail with the injection error |
| Background.RelaySuccessIsDelivered | extension/src/background/index.ts:119-125 | a success carries the reply of one of the three attempts |
| Background.RelayMasksExhaustion | extension/src/background/index.ts:128-143 | three sends without a receiver after two good injections surface as 'Could not inject content script…', never as the 'could not be loaded after multiple attempts' message |
| Background.IntendedRelayReportsExhaustion | extension/src/background/index.ts:141-143 | with the injection's catch around the injection only, exhausted retries report the 'could not be loaded' message |
| Background.IntendedRelayKeepsOtherErrors | extension/src/background/index.ts:144-145 | with the corrected catch, a retried send's own error reaches the caller unchanged |
| Background.VoiceCommandFromPopup | extension/src/background/index.ts:108-157 | no tab at all fails with the TypeError of reading its id; a tab with a missing or zero id gives 'No active tab found'; otherwise the relay's outcome becomes `{success: true, recording}` (recording defaulting to false) or `{success: false, error}`; replaceMode defaults to false |
| Background.OnShortcut | extension/src/background/index.ts:36-94 | only the 'voice-command' command with a tab whose id is truthy relays, with the stored replaceMode defaulting to false |
| Background.Coordinator.constructor | extension/src/background/index.ts:26-34 | the build-time key is both the worker's key and the stored key |
| Background.Coordinator.HandleMessage | extension/src/background/index.ts:96-312 | setGeminiApiKey replaces the key unchecked and acknowledges; no other message changes it; audio uses the key held before the message; an unknown action gets `{status: 'error', message: 'Unknown action'}` |
| ContentScript.PickRecordingMimeType | extension/src/contentScript/index.ts:122-134 | webm when supported; otherwise the first supported of opus-webm, mp4, mpeg; webm when none is; the type is supported exactly when one of the four is |
| ContentScript.RecordingTypeSurvivesUpload | extension/src/contentScript/index.ts:122-134 | whatever type the recorder picks, the worker's mapping sends the matching API type (opus-webm as webm) |
| ContentScript.TotalSizeZero | extension/src/contentScript/index.ts:146-158 | the blob is empty exactly when every chunk is empty |
| ContentScript.ReadAnswer | extension/src/contentScript/index.ts:190-215 | a worker reply with success yields its text; every other reply, or a failed send, becomes 'AI audio processing failed' |
| ContentScript.StopRecorder | extension/src/contentScript/index.ts:288-291 | a recording current recorder becomes inactive and is forgotten; otherwise recorders and reference are unchanged; no other recorder changes |
| ContentScript.VoiceSession.constructor | extension/src/contentScript/index.ts:16-22 | not recording, no selection, no range, no indicator, no recorder |
| ContentScript.VoiceSession.UpdateIndicator | extension/src/contentScript/index.ts:45-49 | the indicator text changes only when an indicator exists; nothing else changes |
| ContentScript.VoiceSession.StopVoiceCommand | extension/src/contentScript/index.ts:285-299 | not recording, no indicator, a recording recorder stopped and forgotten; selection kept |
| ContentScript.VoiceSession.Begin | extension/src/contentScript/index.ts:358-373 | a non-blank selection is captured with its range, a blank one clears both; recording starts with the 'Initializing' indicator |
| ContentScript.VoiceSession.ShowAnswer | extension/src/contentScript/index.ts:385-400 | the cleaned answer replaces the captured range in replace mode when a range exists and is copied otherwise; the indicator shows 'Done' and one stop timer is added |
| ContentScript.VoiceSession.ShowError | extension/src/contentScript/index.ts:401-410 | one error toast with the given message, then the command stops; the selection is untouched |
| ContentScript.VoiceSession.Finish | extension/src/contentScript/index.ts:376-413 | a non-empty answer is cleaned and replaces the range (replace mode with a range) or is copied, and a stop is scheduled; an empty answer or an error shows a toast and stops; the selection is always cleared |
| ContentScript.VoiceSession.HandleVoiceCommand | extension/src/contentScript/index.ts:348-417 | while recording it only stops; otherwise missing APIs, a refused microphone, or a browser supporting none of the four types (the recorder constructor throws, reported as a refused microphone) fail with their toast and stop; else a new recorder with the picked type starts recording, with the selection captured |
| ContentScript.VoiceSession.OnDataAvailable | extension/src/contentScript/index.ts:141-143 | the chunk is appended to that recorder's chunks only |
| ContentScript.VoiceSession.AutoStop | extension/src/contentScript/index.ts:175-181 | after 30 s the current recorder, if still recording, is stopped; otherwise nothing changes |
| ContentScript.VoiceSession.OnRecorderStop | extension/src/contentScript/index.ts:145-165 | the recorder is settled; an empty recording uploads nothing and fails with 'No audio data recorded'; otherwise the size, the current selection and the type are uploaded; an answer with text is cleaned and placed, an answer without text gives 'Failed to process voice command', a failure its own toast; every path states the recorders, reference, indicator and stop timers |
| ContentScript.VoiceSession.OnRecorderError | extension/src/contentScript/index.ts:167-170 | the recorder becomes inactive and settled; the command fails with 'MediaRecorder error occurred', stops (recorders as the stop leaves them) and clears the selection; no stop timer is added |
| ContentScript.VoiceSession.DoneTimer | extension/src/contentScript/index.ts:397-400 | the delayed stop ends recording and removes the indicator |
| ContentScript.VoiceSession.OnMessage | extension/src/contentScript/index.ts:419-437 | only 'voiceCommand' is handled, as the voice command with replaceMode defaulting to false; any other message leaves the whole session unchanged |
| MarkdownCleanup.Unfence | extension/src/contentScript/index.ts:244-254 | the fenced branch before its trim keeps a contiguous piece of its input, no longer than it |
| MarkdownCleanup.UnfenceFenced | extension/src/contentScript/index.ts:244-254 | a block of opening fence, language line, code, line break and closing fence is cut down to the code and that line break |
| MarkdownCleanup.StripFence | extension/src/contentScript/index.ts:243-258 | the fenced branch returns a trimmed contiguous piece of its input |
| MarkdownCleanup.InlineTestMeansSingleWrapped | extension/src/contentScript/index.ts:262 | the inline test holds exactly when the first and last characters are the only two backticks |
| MarkdownCleanup.CleanMarkdownFormatting | extension/src/contentScript/index.ts:229-267 | the result is never longer than the trimmed input |
| MarkdownCleanup.CleanIsSliceOfTrimmed | extension/src/contentScript/index.ts:229-267 | the result is one contiguous piece of the trimmed input |
| MarkdownCleanup.CleanPlainIsTrim | extension/src/contentScript/index.ts:240-266 | an answer that does not start with a backtick is only trimmed |
| MarkdownCleanup.CleanInlineBackticks | extension/src/contentScript/index.ts:260-264 | outside fences, one pair of enclosing backticks is removed exactly when they are the only backticks |
| MarkdownCleanup.CleanFenceWithoutNewline | extension/src/contentScript/index.ts:243-250 | a fence without a line break keeps its opening backticks |
| MarkdownCleanup.CleanFencedAnswer | extension/src/contentScript/index.ts:243-258 | a fenced block with a language line gives back exactly its code |
| MarkdownCleanup.CleanLoneBacktick | extension/src/contentScript/index.ts:262 | a lone backtick is kept |
| MarkdownCleanup.CleanNotIdempotent | extension/src/contentScript/index.ts:262-263 | a backtick pair around padded text leaves the padding, which a second pass removes |
| RateLimit.FirstSegment | homepage/src/utils/rate-limit.ts:94 | a comma-free prefix ending where the first comma is |
| RateLimit.GetIdentifier | homepage/src/utils/rate-limit.ts:90-101 | the first non-empty forwarded-for entry, else a non-empty real IP, else 'anonymous'; never empty |
| RateLimit.Retained | homepage/src/utils/rate-limit.ts:104-112 | exactly the entries whose window ended at most an hour ago stay, unchanged |
| RateLimit.CeilSeconds | homepage/src/utils/rate-limit.ts:51-53 | the whole seconds r with (r-1)·1000 < ms ≤ r·1000 |
| RateLimit.Window | homepage/src/utils/rate-limit.ts:31-44 | a fresh window when none exists or it ended before now, the existing one otherwise; never already over |
| RateLimit.Decide | homepage/src/utils/rate-limit.ts:46-83 | admitted exactly when the count is below the limit, then counted, with remaining = limit − count; a rejection leaves the entry, retries after the seconds to the reset rounded up and says so in its message |
| RateLimit.Step | homepage/src/utils/rate-limit.ts:24-70 | for an identifier that finds its own entry or nothing: the client's entry is the decision on its entry if that survived the sweep; every other entry that survived is kept and no stale one is |
| RateLimit.StepAsWritten | homepage/src/utils/rate-limit.ts:17-47 | an identifier named like an `Object.prototype` property, with no entry of its own, gets no entry, is not counted and reaches the handler; every other identifier takes `Step` |
| RateLimit.InheritedNameNeverLimited | homepage/src/utils/rate-limit.ts:17-73 | for such an identifier every request reaches the handler, however many arrive in one window and whatever the limit |
| RateLimit.StepTouchesOnlyItsClient | homepage/src/utils/rate-limit.ts:24-44 | a request leaves every other live client's entry unchanged |
| RateLimit.StepKeepsCountBound | homepage/src/utils/rate-limit.ts:47-70 | under one configuration no count ever exceeds the limit |
| RateLimit.WindowAdmitsAtMostLimit | homepage/src/utils/rate-limit.ts:40-70 | within one window at most `limit` requests of a client are admitted |
| RateLimit.FreshWindowAdmitsAtMostLimit | homepage/src/utils/rate-limit.ts:31-70 | a client whose first request finds no current window gets at most `limit` admissions up to the end of the window that request opens |
| RateLimit.SharedStoreCrossesPresets | homepage/src/utils/rate-limit.ts:17 | with the shared store, five API requests make the client's first sign-in request fail |
| RateLimit.PresetStep | homepage/src/utils/rate-limit.ts:115-127 | with one store per preset, a request changes only its own preset's store |
| RateLimit.SeparateStoresKeepQuota | homepage/src/utils/rate-limit.ts:120-123 | with separate stores, a first sign-in request is admitted whatever API traffic came before |
| RateLimit.RateLimiter.constructor | homepage/src/utils/rate-limit.ts:17 | the store starts empty |
| RateLimit.RateLimiter.CleanupStore | homepage/src/utils/rate-limit.ts:104-112 | the key-by-key deletion loop leaves exactly the retained entries |
| RateLimit.RateLimiter.Middleware | homepage/src/utils/rate-limit.ts:19-87 | the in-place updates give exactly the store and verdict of one step as written, inherited names included |
| RateLimit.RateLimiter.Count | homepage/src/utils/rate-limit.ts:31-83 | creating or renewing the window and then refusing or counting leave exactly the decision's entry in the store and return its verdict |
| FileBlogPosts.WordCount | homepage/src/features/blog/controllers/get-file-blog-posts.ts:11 | at least one word, even for an empty body |
| FileBlogPosts.ReadingTime | homepage/src/features/blog/controllers/get-file-blog-posts.ts:9-13 | the rounded-up minutes at 200 words a minute, at least one |
| FileBlogPosts.WordsAreNonEmpty | homepage/src/features/blog/controllers/get-file-blog-posts.ts:11 | in a non-blank body the counted words are non-empty and are exactly its non-space characters |
| Strings.SplitOnSpaceCuts | homepage/src/features/blog/controllers/get-file-blog-posts.ts:11 | a whitespace split cuts at the first run of white space and drops the whole run |
| FileBlogPosts.SlugFromFilename | homepage/src/features/blog/controllers/get-file-blog-posts.ts:15-17 | one trailing '.md' is removed; other names are kept |
| FileBlogPosts.SlugRoundTrip | homepage/src/features/blog/controllers/get-file-blog-posts.ts:15-17 | the slug of '<slug>.md' is slug |
| FileBlogPosts.LoadPost | homepage/src/features/blog/controllers/get-file-blog-posts.ts:37-61 | the frontmatter slug or the file's; 'Untitled' exactly when there is no non-empty title; published unless explicitly false; the frontmatter's non-zero reading time, else the computed one (always positive) |
| FileBlogPosts.Load | homepage/src/features/blog/controllers/get-file-blog-posts.ts:27-35 | exactly readable Markdown files give a post |
| FileBlogPosts.Published | homepage/src/features/blog/controllers/get-file-blog-posts.ts:31-69 | only published posts, at most one per file |
| FileBlogPosts.PublishedAppend | homepage/src/features/blog/controllers/get-file-blog-posts.ts:31-69 | collecting is done file by file (a listing split in two gives the concatenation) |
| FileBlogPosts.UnreadableFileSkipped | homepage/src/features/blog/controllers/get-file-blog-posts.ts:66-68 | an unreadable file changes nothing for the others |
| FileBlogPosts.InsertByDate | homepage/src/features/blog/controllers/get-file-blog-posts.ts:71-75 | inserting adds one post |
| FileBlogPosts.InsertByDatePosition | homepage/src/features/blog/controllers/get-file-blog-posts.ts:71-75 | the post goes right after the strictly newer posts at the front, before the first post at most as new; the rest keep their order |
| FileBlogPosts.SortByDate | homepage/src/features/blog/controllers/get-file-blog-posts.ts:71-75 | sorting keeps the length (order, permutation and stability in SortByDateCorrect) |
| FileBlogPosts.InsertByDatePermutes | homepage/src/features/blog/controllers/get-file-blog-posts.ts:71-75 | inserting adds exactly the one post |
| FileBlogPosts.InsertByDateSorted | homepage/src/features/blog/controllers/get-file-blog-posts.ts:71-75 | inserting keeps newest-first order |
| FileBlogPosts.InsertByDateStable | homepage/src/features/blog/controllers/get-file-blog-posts.ts:71-75 | inserting puts the post first among posts of its date |
| FileBlogPosts.SortByDateCorrect | homepage/src/features/blog/controllers/get-file-blog-posts.ts:71-75 | newest first (missing date as 0), a permutation, and stable among equal dates |
| FileBlogPosts.TakeLimit | homepage/src/features/blog/controllers/get-file-blog-posts.ts:77 | a prefix: all posts for a missing or zero limit, at most `limit` for a positive one, all but the last k for −k |
| FileBlogPosts.FileBlogPostsOf | homepage/src/features/blog/controllers/get-file-blog-posts.ts:19-82 | nothing without a directory; never more posts than are published; all of them without a limit |
| FileBlogPosts.FileBlogPostsProperties | homepage/src/features/blog/controllers/get-file-blog-posts.ts:19-82 | the listing is sorted and published, bounded by a positive limit, and without a limit a permutation of all published posts |
| FileBlogPosts.GetFileBlogPosts | homepage/src/features/blog/controllers/get-file-blog-posts.ts:19-82 | the loop's collected posts, sorted and cut, are the listing |
| FileBlogPosts.FindPost | homepage/src/features/blog/controllers/get-file-blog-posts.ts:94-133 | a found post has the slug and comes from the first file with that slug; none found means no loaded file has the slug |
| FileBlogPosts.FirstMatch | homepage/src/features/blog/controllers/get-file-blog-posts.ts:100-127 | the index of the first file from a position on that loads with the slug, or the end |
| FileBlogPosts.FindIgnoresPublication | homepage/src/features/blog/controllers/get-file-blog-posts.ts:100-127 | an unpublished post is still found by its slug |
| FileBlogPosts.GetFileBlogPost | homepage/src/features/blog/controllers/get-file-blog-posts.ts:84-138 | the loop returns the first file with the slug; nothing without a directory |
| FileBlogPosts.SlugsMatchListing | homepage/src/features/blog/controllers/get-file-blog-posts.ts:150-168 | the slug list is the published posts' slugs, in directory order |
| FileBlogPosts.SlugsOfAppend | homepage/src/features/blog/controllers/get-file-blog-posts.ts:150-168 | slugs of a concatenation concatenate |
| FileBlogPosts.GetFileBlogPostSlugs | homepage/src/features/blog/controllers/get-file-blog-posts.ts:140-173 | the loop collects the published slugs in directory order; nothing without a directory |
| BlogPosts.PageKey | homepage/src/features/blog/controllers/get-blog-posts.ts:9 | 'file_' followed by the slug |
| BlogPosts.PageKeyInjective | homepage/src/features/blog/controllers/get-blog-posts.ts:9 | distinct slugs get distinct page keys |
| BlogPosts.OrNull | homepage/src/features/blog/controllers/get-blog-posts.ts:12 | a value only when present and non-empty |
| BlogPosts.FirstOf | homepage/src/features/blog/controllers/get-blog-posts.ts:16-17 | the first non-empty of two values, else null |
| BlogPosts.ConvertFileBlogToDbFormat | homepage/src/features/blog/controllers/get-blog-posts.ts:6-28 | every column: the keys from the slug and the time, the fallbacks of description, images and dates, author and category when non-empty, the tags as loaded, published as loaded |
| BlogPosts.RowIdsDistinguishSlugs | homepage/src/features/blog/controllers/get-blog-posts.ts:8 | at one instant, equal row ids mean equal slugs |
| BlogPosts.ConvertAll | homepage/src/features/blog/controllers/get-blog-posts.ts:33 | one row per post, in order |
| BlogPosts.GetBlogPosts | homepage/src/features/blog/controllers/get-blog-posts.ts:30-41 | the converted file listing, same length and order |
| BlogPosts.GetBlogPost | homepage/src/features/blog/controllers/get-blog-posts.ts:43-60 | a row exactly when a file post has the slug; its keys come from that slug |
| BlogPosts.GetBlogPostSlugs | homepage/src/features/blog/controllers/get-blog-posts.ts:62-73 | the published slugs of the files |
| SyncFileBlogs.SyncRowOf | homepage/src/features/blog/controllers/sync-file-blogs.ts:33-49 | keyed by 'file_' + slug; published-at is the date, else the sync time |
| SyncFileBlogs.WritePost | homepage/src/features/blog/controllers/sync-file-blogs.ts:51-85 | an existing key is updated and a new one created; a failed call leaves the table unchanged and is an error |
| SyncFileBlogs.SyncFrom | homepage/src/features/blog/controllers/sync-file-blogs.ts:30-86 | one action per post |
| SyncFileBlogs.CreatedCountAppend | homepage/src/features/blog/controllers/sync-file-blogs.ts:79 | creations add up over a split run |
| SyncFileBlogs.UpdatedCountAppend | homepage/src/features/blog/controllers/sync-file-blogs.ts:68 | updates add up over a split run |
| SyncFileBlogs.ErrorsOfAppend | homepage/src/features/blog/controllers/sync-file-blogs.ts:66-84 | errors concatenate over a split run |
| SyncFileBlogs.CountsPartition | homepage/src/features/blog/controllers/sync-file-blogs.ts:58-85 | every action is exactly one of created, updated, error |
| SyncFileBlogs.SyncCountsAddUp | homepage/src/features/blog/controllers/sync-file-blogs.ts:30-86 | created + updated + errors equals the posts processed |
| SyncFileBlogs.SyncErrorFree | homepage/src/features/blog/controllers/sync-file-blogs.ts:30-86 | no error exactly when every write succeeded |
| SyncFileBlogs.SyncKeys | homepage/src/features/blog/controllers/sync-file-blogs.ts:30-86 | the table gains exactly the keys of the posts written successfully |
| SyncFileBlogs.RunReport | homepage/src/features/blog/controllers/sync-file-blogs.ts:88-105 | counts add up to the posts processed; success exactly when every write succeeded and no errors are reported |
| SyncFileBlogs.ResultOf | homepage/src/features/blog/controllers/sync-file-blogs.ts:99-105 | success exactly when no write failed; errors listed only then; the counts are the run's |
| SyncFileBlogs.LogOf | homepage/src/features/blog/controllers/sync-file-blogs.ts:89-95 | 'completed' exactly when the result succeeds, else 'completed_with_errors'; the message joins the result's errors with '; '; the counts are the result's |
| SyncFileBlogs.BlogDatabase.constructor | homepage/src/features/blog/controllers/sync-file-blogs.ts:52-74 | the tables as given |
| SyncFileBlogs.BlogDatabase.WriteOne | homepage/src/features/blog/controllers/sync-file-blogs.ts:51-85 | one post's write changes the table as the write specification says and leaves the log |
| SyncFileBlogs.BlogDatabase.WriteAll | homepage/src/features/blog/controllers/sync-file-blogs.ts:26-86 | the loop's counts, errors and table are those of the whole run |
| SyncFileBlogs.BlogDatabase.SyncFileBlogs | homepage/src/features/blog/controllers/sync-file-blogs.ts:7-105 | all file posts are written; the result and one appended log row report the run |
| SyncFileBlogs.SyncWithoutClient | homepage/src/features/blog/controllers/sync-file-blogs.ts:22-24 | without a client the run fails with one error and zero counts |
| SyncFileBlogs.GetLastSyncStatus | homepage/src/features/blog/controllers/sync-file-blogs.ts:129-165 | not configured or a real query error fails with no last sync; no row succeeds with none; a row succeeds iff 'completed', last sync = completion else start |
| SyncFileBlogs.StatusReflectsRun | homepage/src/features/blog/controllers/sync-file-blogs.ts:89-97 | read back, a run's log row reports its success and its completion time |
| StartupSync.ShouldSyncMonotone | homepage/src/features/blog/utils/startup-sync.ts:24-25 | once a sync is due it stays due |
| StartupSync.NotDueWithinHour | homepage/src/features/blog/utils/startup-sync.ts:24-25 | no sync is due within an hour of the last one |
| StartupSync.StartupGuard.constructor | homepage/src/features/blog/utils/startup-sync.ts:3-4 | neither running nor completed |
| StartupSync.StartupGuard.EnsureBlogSync | homepage/src/features/blog/utils/startup-sync.ts:6-46 | nothing after completion or in a browser; otherwise a sync starts exactly when due, and the guard completes; at most one sync per process |
| FeatureCarousel.RelativePosition | homepage/src/components/features/FeatureCarousel.tsx:64-71 | 0, 1, −1 or the raw difference |
| FeatureCarousel.CentreIsActive | homepage/src/components/features/FeatureCarousel.tsx:65-67 | position 0 exactly for the active card |
| FeatureCarousel.SuccessorOnRight | homepage/src/components/features/FeatureCarousel.tsx:68 | the cyclic successor is at 1 |
| FeatureCarousel.PredecessorOnLeft | homepage/src/components/features/FeatureCarousel.tsx:69 | with ≥3 cards the cyclic predecessor is at −1 |
| FeatureCarousel.TwoCardsOtherOnRight | homepage/src/components/features/FeatureCarousel.tsx:68-69 | with 2 cards the other card is successor and predecessor and shows at 1 |
| FeatureCarousel.FarCardsHidden | homepage/src/components/features/FeatureCarousel.tsx:70-93 | any other card keeps its raw difference and is hidden |
| FeatureCarousel.VisibleCards | homepage/src/components/features/FeatureCarousel.tsx:88-93 | only cards of the carousel |
| FeatureCarousel.ThreeCardsVisible | homepage/src/components/features/FeatureCarousel.tsx:88-93 | with ≥3 cards exactly the active card and its two neighbours are shown |
| FeatureCarousel.Carousel.constructor | homepage/src/components/features/FeatureCarousel.tsx:41-42 | first card active, auto-play off |
| FeatureCarousel.Carousel.Tick | homepage/src/components/features/FeatureCarousel.tsx:45-53 | while auto-playing the next card becomes active and the old one sits on the left |
| FeatureCarousel.Carousel.HandleFeatureClick | homepage/src/components/features/FeatureCarousel.tsx:55-62 | clicking the active card changes nothing; another card becomes active, auto-play stops and a resume timer starts |
| FeatureCarousel.Carousel.ResumeTimer | homepage/src/components/features/FeatureCarousel.tsx:61 | a resume timer turns auto-play on |
| FeatureCarousel.Carousel.MouseEnter | homepage/src/components/features/FeatureCarousel.tsx:84 | hovering stops auto-play |
| FeatureCarousel.Carousel.MouseLeave | homepage/src/components/features/FeatureCarousel.tsx:85 | leaving starts auto-play |
| PriceCard.FirstWithInterval | homepage/src/features/pricing/components/price-card.tsx:42 | the first price with the interval; none exactly when no price has it |
| PriceCard.InitialBillingInterval | homepage/src/features/pricing/components/price-card.tsx:24-26 | the given price's interval, else 'month' |
| PriceCard.CurrentPrice | homepage/src/features/pricing/components/price-card.tsx:29-43 | a given price wins; no prices give none; one price is chosen whatever the interval; else the first price of the selected interval, present exactly when one exists |
| PriceCard.AmountFor | homepage/src/features/pricing/components/price-card.tsx:45-46 | the amount of the first price of that interval only, and none when the interval has no price |
| PriceCard.DisplayedAmount | homepage/src/features/pricing/components/price-card.tsx:79-85 | yearly exactly when yearly is selected and its amount is non-zero; else monthly when non-zero; else 'Custom' |
| PriceCard.Action | homepage/src/features/pricing/components/price-card.tsx:100-117 | no button without checkout; 'Get Started' with the offered price, 'Contact Us' without one |
| PriceCard.NoPricesMeansContactUs | homepage/src/features/pricing/components/price-card.tsx:111-115 | a product without prices shows 'Custom' and 'Contact Us' |
| PriceCard.CheckoutPriceIsOffered | homepage/src/features/pricing/components/price-card.tsx:29-43 | checkout uses the given price or one of the product's prices |
| PriceCard.DisplayAgreesWithCheckout | homepage/src/features/pricing/components/price-card.tsx:79-85 | for a subscription, the displayed amount and suffix are those of the price checked out |
| PriceCard.YearlyFallsBackToMonthly | homepage/src/features/pricing/components/price-card.tsx:79-85 | yearly selected without a yearly amount shows the monthly amount or 'Custom' |
| PriceCard.PricingCard.constructor | homepage/src/features/pricing/components/price-card.tsx:24-26 | the selected interval starts at the initial interval |
| PriceCard.PricingCard.HandleBillingIntervalChange | homepage/src/features/pricing/components/price-card.tsx:55-57 | the interval is set; where the switch shows, the offered price follows it |
| RecorderDemo.StripQuotes | homepage/src/components/features/WebpageRecorderDemo.tsx:14 | at most one character removed at each end; the rest is kept as one piece |
| RecorderDemo.UnquotedUnchanged | homepage/src/components/features/WebpageRecorderDemo.tsx:14 | a prompt without end quotes is unchanged |
| RecorderDemo.QuotedRoundTrip | homepage/src/components/features/WebpageRecorderDemo.tsx:14 | quoting a text and stripping gives it back, inner quotes included |
| RecorderDemo.OneQuotePerEnd | homepage/src/components/features/WebpageRecorderDemo.tsx:14 | only one quote per end is removed |
| RecorderDemo.GetTranscriptionText | homepage/src/components/features/WebpageRecorderDemo.tsx:11-31 | a non-empty prompt, stripped, wins; else the page's table entry; else the default text |
| RecorderDemo.FallbackNeverEmpty | homepage/src/components/features/WebpageRecorderDemo.tsx:30 | without a prompt the text is never empty |

## Findings

| source | as written | input that shows it | evidently intended | confidence | as-written member | corrected member |
|---|---|---|---|---|---|---|
| extension/src/background/index.ts:128-143 | the retried send runs inside the injection's `try`, so its failure is rethrown as 'Could not inject content script…' | three sends rejected with 'Receiving end does not exist' while both injections succeed | after the last retry, 'Content script could not be loaded after multiple attempts'; a retried send's own error passed on | high (not executed) | Background.RelayMasksExhaustion | Background.IntendedRelayReportsExhaustion |
| homepage/src/utils/rate-limit.ts:17 | one store serves every preset, so counts and windows of `api`, `auth` and `expensive` mix | five `api` requests then one `auth` request from the same client within a minute: the `auth` request gets 429 | one store per preset, so each preset's limit applies to its own traffic | medium (not executed) | RateLimit.SharedStoreCrossesPresets | RateLimit.SeparateStoresKeepQuota |
| homepage/src/utils/rate-limit.ts:17-47 | the store is a plain object, so a client-chosen identifier such as 'constructor', '__proto__' or 'toString' finds an inherited value: no entry is created, and both `now > undefined` and `undefined >= limit` are false | any number of requests within one minute with the header `x-forwarded-for: constructor`: every one reaches the handler | every identifier limited to `limit` requests per window (a store without a prototype, or a `Map`) | high (not executed) | RateLimit.InheritedNameNeverLimited | RateLimit.FreshWindowAdmitsAtMostLimit |

The handlers (`Background.VoiceCommandFromPopup`, `Background.OnShortcut`, `Background.Coordinator.HandleMessage`) and
the class `RateLimit.RateLimiter` keep the behaviour as written. The corrected definitions are
`Background.IntendedRelay`, `RateLimit.PresetStep` and `RateLimit.Step`, and their properties are proved beside the
as-written ones. `RateLimit.Step` corrects only the inherited names; it still shares one store between presets.

## Left out

- Browser and extension APIs: chrome messaging and storage, `tabs`, `scripting`, `MediaRecorder`, `getUserMedia`,
  `FileReader`, DOM ranges, toasts and clipboard. They appear only as outcome parameters: send results, injection
  results, microphone granted or refused, the message of a refused recorder type, the worker's answer, chunk sizes.
- The audio itself and its base64 encoding: an upload carries the blob's size.
- The clipboard fallback through `execCommand`: a copy is one `CopiedToClipboard` effect whatever path succeeds.
- Indicator labels shown only briefly ('Processing…', 'Sending to AI…', 'Replacing text…', 'Copying to
  clipboard…') and the 500 ms waits: the indicator is modelled as present or absent, with its initial, recording
  and done labels.
- Timers (the 30 s auto-stop, the 1 s delayed stop, the carousel's 5 s interval and 10 s resume): each is an event
  method on its class, invoked when it fires.
- `ContentScript.VoiceSession.OnRecorderStop`: an `onstop` after `onerror` on the same recorder is not modelled
  (the promise is settled once; the requires excludes a second settlement).
- `Background.InterpretGeminiReply`: a reply without candidate text makes the runtime throw a TypeError, whose
  message is represented by a fixed placeholder; a network error's own message is passed on.
- JSON bodies, headers and the generation settings of the Gemini request: only the key, MIME type, audio and prompt
  are modelled.
- `Background.ProcessAudio`: the JavaScript `Error`-versus-other-value distinction in the catch is not modelled;
  every failure carries a message.
- Date strings: frontmatter dates, sync timestamps and `Date.now()` are integers (milliseconds); parsing and
  invalid dates are not modelled.
- `BlogPosts.GetBlogPosts`: one `now` stands for every `Date.now()` / `new Date()` call of a conversion.
- `SyncFileBlogs.WritePost`: the existence lookup never fails in the model; a lookup error counts as "not found",
  as the code treats it.
- `SyncFileBlogs.BlogDatabase.SyncFileBlogs`: the `duration_ms` column, the log insert's own failure and exceptions
  thrown by the database client are not modelled.
- `StartupSync.StartupGuard.EnsureBlogSync`: the `catch` branch is not modelled, because both callees catch every
  error themselves; the module's automatic call one second after import is not modelled.
- `RateLimit.RateLimiter.Middleware`: the handler's own response and header formatting are left out. For an
  inherited name, the side effects of `count++` on the inherited value are not modelled. It writes NaN onto
  `Object`, onto `Object.prototype` (for '__proto__') or onto a prototype method. The TypeError thrown while
  setting the reset header after the handler ran is represented only by the `HandledThenThrew` verdict.
- Asynchronous interleaving: every event handler runs to completion as one step. So
  `StartupSync.StartupGuard.EnsureBlogSync`'s early return while a sync is running can never fire in the model.
  The window in which `ContentScript.VoiceSession.HandleVoiceCommand` awaits `getUserMedia` is not represented
  either, so no other message or timer can run inside it.
- `RecorderDemo.GetTranscriptionText`: page names inherited from JavaScript's object prototype (such as
  'toString') are not modelled as table keys.
- `PriceCard.DisplayedAmount`: the dollar formatting of `cents / 100` is left out; the amount is kept in cents.
- Metadata-driven parts of the price card (button variants, feature lines) and the rest of the home page's UI.
- `Strings.IsSpace`: the ECMAScript WhiteSpace and LineTerminator set that `\s` and `trim` use (U+FEFF and the
  Unicode space separators included) is written out as fixed code points; later Unicode additions are not tracked.
- `Background.VoiceCommandFromPopup`: with no tab found, the runtime's TypeError message is represented by a fixed
  text in V8's wording.
