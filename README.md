# open-knm reading and speech logic in Dafny

open-knm is a small static content site for people preparing the Dutch KNM
exam. Around its pages sit a few pieces of client logic, and this project
models them and proves what they guarantee:

- **Read tracker** (`ArticleTracker`). Viewing an article overwrites the
  `knm-bookmark` record in browser storage. It also appends the article's slug
  to the `knm-read-history` list when the slug is not there yet.
- **Resume check** (`KnmResumeCheck`). On a home page it loads the bookmark.
  While it holds one (Offering), it offers to continue reading. Confirm
  navigates to `/{locale}/articles/{slug}` and dismiss closes the offer. Both
  return to Idle.
- **Article list** (`ArticleList`). It loads the read history once. It shows
  one card per article, linked to the article and marked when the article was
  read, or an empty-state text when there are no articles.
- **Speech hook** (`useWebSpeech`). It reads text aloud with a voice chosen by
  language. It drives speech recognition through numbered sessions whose
  `onstart`, `onresult`, `onerror` and `onend` callbacks update
  `isListening`, `transcript` and `error`.
- **Sitemap** (`sitemap`). It lists six static pages per locale, then every
  article in every locale.

Browser storage is the `Storage.LocalStorage` class: a map from key to string,
where a missing key reads as absent. `JSON.stringify` is modelled by encoders
of the values the site stores, which are strings, integers, lists of strings
and the bookmark object. `JSON.parse` is modelled by a decoder that fails
(`None`) where the real one throws. Calls into the Web Speech platform are
recorded as logs of calls (`Create`, `Start`, `Stop`; `Cancel`, `Queue`), and
the recognition events arrive as method calls. The clock readings
(`Date.now()`, `new Date()`) are parameters.

The recognition callbacks follow the code as written, not the intent that
callbacks of a replaced session are inert. `onend` clears the held session
reference whichever session fired it. `ReadingFlow.LateEndAfterRestart` shows
the result: a restarted session loses its reference to a late `onend` of the
old one, and a later `stopListening` never stops it.

Files: `wrappers.dfy` (Option), `text.dfy` (prefix and `split` helpers),
`json.dfy` (the JSON codec), `storage.dfy` (keys, bookmark, storage),
`routes.dfy` (article paths), one file per component, and `reading_flow.dfy`
(properties across components and whole sequences of calls).

## Model

| member | source | states |
|---|---|---|
| Text.FirstField | src/hooks/useWebSpeech.ts:99 | `lang.split('-')[0]` is the longest prefix without `-`, followed by `-` or the end of the string |
| Text.FirstFieldUnique | src/hooks/useWebSpeech.ts:99 | that prefix is the only one with this property |
| Json.ParseQuote | src/components/content/ArticleTracker.tsx:33 | a string written as JSON parses back to the same string, and the parser stops right after the closing quote |
| Json.ParseIntText | src/components/content/ArticleTracker.tsx:31-33 | the integer timestamp written as JSON parses back to the same integer when no digit follows |
| Json.DecodeEncodeList | src/components/content/ArticleTracker.tsx:37-40 | a list of strings written as JSON parses back to the same list |
| Json.ParseItemsText | src/components/content/ArticleTracker.tsx:40 | the comma-separated items of a written list parse back item by item, in order |
| Storage.DecodeEncodeBookmark | src/components/content/ArticleTracker.tsx:27-33 | a stored bookmark reads back as exactly the bookmark written: slug, title, locale and `updatedAt` |
| Storage.LocalStorage.SetItem | src/components/content/ArticleTracker.tsx:33 | `setItem` replaces the one key and leaves every other key alone |
| Storage.AbsentHistoryIsEmpty | src/components/content/ArticleTracker.tsx:36-37 | an absent or empty history value counts as the empty list |
| Storage.StoredHistoryAfterWrite | src/components/content/ArticleTracker.tsx:40 | a written history reads back as written, whatever else is stored |
| Routes.ArticlePathInjective | src/components/content/KnmResumeCheck.tsx:42 | two article paths are equal exactly when locale and slug are both equal, for locales without `/` |
| ArticleTracker.Track | src/components/content/ArticleTracker.tsx:26-45 | the effect leaves storage exactly as `Tracked` describes: bookmark first, then the history update, with the early exit when the history does not parse |
| ArticleTracker.TrackWritesBookmark | src/components/content/ArticleTracker.tsx:27-33 | after a view the stored bookmark is exactly `{slug, title, locale, updatedAt: now}`, whatever was stored before |
| ArticleTracker.TrackStartsHistory | src/components/content/ArticleTracker.tsx:36-40 | with an absent or empty history, the first view stores the one-element list `[slug]` |
| ArticleTracker.TrackRecordsSlug | src/components/content/ArticleTracker.tsx:38-41 | with a readable history, the new history is the old one when the slug was in it, and otherwise the old one with the slug appended |
| ArticleTracker.TrackKnownSlugWritesOnlyBookmark | src/components/content/ArticleTracker.tsx:38-41 | a slug already in the history causes no history write: only the bookmark changes |
| ArticleTracker.TrackCorruptHistory | src/components/content/ArticleTracker.tsx:33-44 | a history that does not parse stays unchanged, but the bookmark has already been overwritten |
| ArticleTracker.TrackTouchesOnlyItsKeys | src/components/content/ArticleTracker.tsx:33-40 | a view writes no key other than the bookmark and history keys |
| ArticleTracker.HistoryUnaffectedByBookmark | src/components/content/ArticleTracker.tsx:33-37 | the history is read after the bookmark write, which does not change what it reads |
| ArticleTracker.TrackKeepsNoDuplicates | src/components/content/ArticleTracker.tsx:38-40 | a history without duplicates has none after a view |
| ArticleTracker.TrackTwiceSameSlug | src/components/content/ArticleTracker.tsx:38-40 | a second view of the same slug leaves the history unchanged, with the slug in it exactly once |
| ArticleTracker.AddIfAbsent | src/components/content/ArticleTracker.tsx:38-39 | append-if-absent keeps the old list as a prefix, keeps it duplicate-free and adds exactly the slug |
| ArticleTracker.LastVisitWins | src/components/content/ArticleTracker.tsx:33 | after any run of views the bookmark is the last view |
| ArticleTracker.TrackAllStoredHistory | src/components/content/ArticleTracker.tsx:36-41 | a run of views from a readable history adds the visited slugs in order, each only if it is absent |
| ArticleTracker.AddSlugsFacts | src/components/content/ArticleTracker.tsx:38-39 | repeated append-if-absent keeps the old list as a prefix, adds no duplicates and adds exactly the given slugs |
| ArticleTracker.TrackAllHistory | src/components/content/ArticleTracker.tsx:36-41 | after any run of views the old history is a prefix of the new one, the new one has no duplicates, and it holds exactly the old entries and the visited slugs |
| ResumeCheck.LoadBookmark | src/components/content/KnmResumeCheck.tsx:25-31 | an accepted bookmark is the stored text parsed, and has a non-empty slug and locale |
| ResumeCheck.LoadStoredBookmark | src/components/content/KnmResumeCheck.tsx:25-31 | a stored bookmark is accepted exactly when its slug and locale are non-empty |
| ResumeCheck.NoBookmarkNoOffer | src/components/content/KnmResumeCheck.tsx:25-26 | an absent or empty record offers nothing |
| ResumeCheck.PromptMessage | src/components/content/KnmResumeCheck.tsx:52 | the message is the resume text, a space and an opening curly quote, the title, then a closing curly quote |
| ResumeCheck.KnmResumeCheck.constructor | src/components/content/KnmResumeCheck.tsx:19 | the controller starts Idle |
| ResumeCheck.KnmResumeCheck.Mount | src/components/content/KnmResumeCheck.tsx:21-35 | an accepted bookmark makes the controller Offering; an absent, empty, unparseable or incomplete record leaves the state as it was |
| ResumeCheck.KnmResumeCheck.Prompt | src/components/content/KnmResumeCheck.tsx:37-52 | nothing is rendered while Idle; while Offering the prompt carries the bookmark's title |
| ResumeCheck.KnmResumeCheck.Confirm | src/components/content/KnmResumeCheck.tsx:41-44 | the target is built from the bookmark's own locale and slug, and the controller returns to Idle |
| ResumeCheck.KnmResumeCheck.Dismiss | src/components/content/KnmResumeCheck.tsx:46-48 | the controller returns to Idle; no target is produced |
| ArticleList.Cards | src/components/ArticleList.tsx:34-39 | one card per article |
| ArticleList.Render | src/components/ArticleList.tsx:24-34 | the empty state is shown exactly when there are no articles, with the locale's text; otherwise the grid has one card per article |
| ArticleList.CardsAt | src/components/ArticleList.tsx:34-46 | card `i` is keyed by article `i`, links to `/{locale}/articles/{slug}`, is read exactly when the slug is in the history, and then shows the locale's badge |
| ArticleList.CardLinksDistinct | src/components/ArticleList.tsx:39 | articles with distinct slugs get distinct links |
| ArticleList.ArticleListView.constructor | src/components/ArticleList.tsx:10 | the read history starts empty |
| ArticleList.ArticleListView.LoadHistory | src/components/ArticleList.tsx:12-22 | a present, non-empty history that parses replaces the state; an absent, empty or unparseable one leaves it |
| ReadingFlow.ListHistoryAgrees | src/components/ArticleList.tsx:14-21 | the list reads the history as the tracker does, and reads an unparseable one as empty |
| ReadingFlow.MountList | src/components/ArticleList.tsx:10-22 | a freshly mounted list holds the stored history, or the empty list when it is absent or does not parse |
| ReadingFlow.ViewedArticleShowsRead | src/components/ArticleList.tsx:35 | after a view over a readable history, a freshly loaded list marks that article read and keeps everything read before |
| ReadingFlow.ResumeAfterView | src/components/content/KnmResumeCheck.tsx:25-31 | after a view, the resume check offers exactly that article when its slug and locale are non-empty |
| ReadingFlow.ViewThenResume | src/components/content/KnmResumeCheck.tsx:41-44 | viewing then confirming navigates to the viewed article in the locale it was read in, which is its card's link |
| ReadingFlow.ResumeAfterDismiss | src/components/content/KnmResumeCheck.tsx:41-48 | dismiss does not touch storage, so the next mount offers the same bookmark again |
| WebSpeech.FindVoice | src/hooks/useWebSpeech.ts:98-99 | `find` yields the first matching voice, and none only when no voice matches |
| WebSpeech.SelectVoice | src/hooks/useWebSpeech.ts:96-103 | the chosen voice is in the list and shares the primary subtag; an exact language match is always preferred; no voice exactly when none shares the subtag |
| WebSpeech.SelectVoiceExact | src/hooks/useWebSpeech.ts:98 | the first voice whose lang equals `lang` is chosen |
| WebSpeech.SelectVoiceFallback | src/hooks/useWebSpeech.ts:99 | with no exact match, the first voice whose lang starts with the primary subtag is chosen |
| WebSpeech.PlayingAfterSpeak | src/hooks/useWebSpeech.ts:90-107 | after cancel and queue, only the new utterance is left to play |
| WebSpeech.TranscriptAppend | src/hooks/useWebSpeech.ts:141-148 | the transcript of two runs of results is the two transcripts concatenated |
| WebSpeech.TranscriptIgnoresFinality | src/hooks/useWebSpeech.ts:142-146 | finality does not change the transcript |
| WebSpeech.CollectTranscript | src/hooks/useWebSpeech.ts:140-149 | the loop builds the first alternatives of `results[resultIndex..]`, concatenated in order |
| WebSpeech.ErrorMessage | src/hooks/useWebSpeech.ts:155-161 | `no-speech` gives no update, `not-allowed` the fixed message, any other code itself |
| WebSpeech.SpeechHook.constructor | src/hooks/useWebSpeech.ts:53-61 | the state starts not listening, with an empty transcript, unsupported and without error |
| WebSpeech.SpeechHook.Mount | src/hooks/useWebSpeech.ts:63-85 | the synthesiser is kept when present; `isSupported` records whether recognition exists, with the fixed message when it does not |
| WebSpeech.SpeechHook.Speak | src/hooks/useWebSpeech.ts:87-109 | with a synthesiser, speech is cancelled and then one utterance is queued with the selected voice, the language and the rate; without one nothing happens |
| WebSpeech.SpeechHook.StopListening | src/hooks/useWebSpeech.ts:111-117 | the held session, if any, is stopped and released and listening ends; with no session only listening ends |
| WebSpeech.SpeechHook.StartListening | src/hooks/useWebSpeech.ts:119-176 | without support nothing happens; otherwise the held session is stopped, then a new continuous, interim, `nl-NL` session is created, held and started, with the failure message when the platform throws |
| WebSpeech.SpeechHook.OnStart | src/hooks/useWebSpeech.ts:136-138 | listening begins and the error clears |
| WebSpeech.SpeechHook.OnResult | src/hooks/useWebSpeech.ts:140-150 | the transcript becomes the concatenated first alternatives of the pending results |
| WebSpeech.SpeechHook.OnError | src/hooks/useWebSpeech.ts:152-163 | `no-speech` changes nothing; any other code ends listening and sets the normalised message |
| WebSpeech.SpeechHook.OnEnd | src/hooks/useWebSpeech.ts:165-168 | listening ends and the held session is cleared, whichever session fired |
| ReadingFlow.SpeakTwice | src/hooks/useWebSpeech.ts:88-107 | two `speak` calls leave only the second utterance to be heard |
| ReadingFlow.LateEndAfterRestart | src/hooks/useWebSpeech.ts:125-171 | a late `onend` of a replaced session clears the reference to the new one, which is never stopped |
| Sitemap.RouteEntries | src/app/sitemap.ts:14-21 | one entry per static route |
| Sitemap.StaticEntriesLength | src/app/sitemap.ts:13-22 | six static entries per locale |
| Sitemap.LocaleEntries | src/app/sitemap.ts:26-33 | one entry per locale for an article |
| Sitemap.ArticleEntriesLength | src/app/sitemap.ts:25-34 | one article entry per article and locale |
| Sitemap.Sitemap | src/app/sitemap.ts:7-37 | the result is all static entries, locale by locale, followed by all article entries, article by article |
| Sitemap.PushStaticEntries | src/app/sitemap.ts:11-22 | the first nested loop appends the static entries of each locale, route by route, after what is already there |
| Sitemap.PushArticleEntries | src/app/sitemap.ts:25-34 | the second nested loop appends the entries of each article, locale by locale, after what is already there |
| Sitemap.SitemapLength | src/app/sitemap.ts:11-34 | there are `|locales| * 6 + |articles| * |locales|` entries |
| Sitemap.StaticEntryAt | src/app/sitemap.ts:13-20 | entry `6 * i + j` is route `j` of locale `i`: URL `BASE_URL/{locale}{route}`, weekly, priority 1.0 for the root route and 0.8 otherwise |
| Sitemap.RouteEntryAt | src/app/sitemap.ts:14-20 | the static entries of a locale follow the route list in order |
| Sitemap.ArticleEntryAt | src/app/sitemap.ts:25-32 | entry `a * |locales| + l` is article `a` in locale `l`: URL `BASE_URL/{locale}/articles/{slug}`, monthly, priority 0.6 |
| Sitemap.LocaleEntryAt | src/app/sitemap.ts:26-32 | an article's entries follow the locale list in order |
| Sitemap.ArticleBlockAt | src/app/sitemap.ts:30 | every article entry is monthly |
| Sitemap.SitemapStaticFirst | src/app/sitemap.ts:13-34 | all static entries come before all article entries |
| Sitemap.StaticRoutesShape | src/app/sitemap.ts:11 | the six routes are distinct, each is empty or starts with `/`, and none is an article path |
| Sitemap.StaticUrlInjective | src/app/sitemap.ts:16 | a static URL determines its locale and route, for locales without `/` |
| Sitemap.ArticleUrlInjective | src/app/sitemap.ts:28 | an article URL determines its locale and slug, for locales without `/` |
| Sitemap.StaticNotArticleUrl | src/app/sitemap.ts:16-28 | no static URL is an article URL |
| Sitemap.StaticUrlsDistinct | src/app/sitemap.ts:13-16 | with distinct locales without `/`, every static entry has its own URL |
| Sitemap.ArticleUrlsDistinct | src/app/sitemap.ts:25-28 | with distinct slugs and distinct locales without `/`, every article entry has its own URL |
| Sitemap.StaticArticleUrlsDistinct | src/app/sitemap.ts:16-28 | no article entry repeats a static entry's URL |

## Left out

- JSON layout: the decoder accepts only the layout `JSON.stringify` writes. That means no whitespace, bookmark members in the order the tracker writes them, integer timestamps, and a history that is an array of strings. Any other text that `JSON.parse` would accept is treated as not parsing.
- ArticleList.ArticleListView.LoadHistory: the source stores whatever `JSON.parse` returns, even a non-array. The model only stores a list of strings and treats anything else as not parsing.
- Json.ParseChars: `\u` escapes that encode UTF-16 surrogate halves are treated as not parsing, because Dafny characters are Unicode scalar values.
- Storage writes that throw (quota exceeded, storage disabled) are not modelled. Only a parse failure reaches the `catch` blocks.
- The `typeof window` server-side guards are not modelled. Every effect runs in a browser.
- WebSpeech.SpeechHook.Mount: the `setTimeout(…, 0)` deferral of the capability check is modelled as an immediate update.
- WebSpeech.SpeechHook.Speak: the speech rate is an opaque real (the default is 0.85). The audio itself, voice loading and `getVoices()` timing are not modelled; the voice list is a parameter.
- WebSpeech.SpeechHook.OnResult: results without a first alternative are excluded by its precondition, because the source would throw there.
- Recognition and synthesis objects are not modelled beyond the calls made on them. `Stop(id)` does not itself fire `onend`; the platform's events are separate method calls.
- Sitemap.Sitemap: one clock value `now` is used for every entry; the source reads `new Date()` once per entry.
- Sitemap priorities are integer tenths (10, 8, 6) rather than floating point.
- React semantics are not modelled: re-renders, `useEffect` dependency re-runs, `useCallback` memoisation, batched `setState`. Each effect and handler is one call.
- `console.error` logging is not modelled.
- JSX markup, CSS classes, `uiTexts` lookups and `router.push` are not modelled. Localised prompt texts are parameters, and confirm returns its target path.
- `ResumePrompt.tsx` and `AiDisclaimer.tsx` are presentation only and not part of this model.
