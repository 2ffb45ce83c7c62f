# Study-guide assistant: a verified model of its sequential core

The system turns an uploaded PDF or Word document into a study guide. A
generative model writes the guide, translates it and answers questions about
it. The web client reads the guide aloud through the browser's speech service
and offers a multiple-choice quiz. This project models four small pieces of
that system's logic in Dafny and proves what they promise.

- **Narration hook** (`narration.dfy`, module `Narration`). The `useTTS` hook
  is a class `Narrator` with its two flags `isSpeaking` and `isPaused`. The
  speech service is the log of commands the hook sends to it: cancel, submit
  an utterance, pause and resume. The service's start, end and error
  notifications are methods that the environment may call in any order, for
  any utterance it has been given. The voice is the first one in list order
  that passes a three-way test.
- **Quiz dialog** (`quiz.dfy`, module `Quiz`). The dialog is a class
  `QuizModal` holding the question list, the cursor, the selected option, the
  score and the result flag. A ghost history of the answers given ties the
  score to the answers. Its invariant shows the score never exceeds the
  number of questions answered.
- **Study-guide view** (`studyguide.dfy`, module `StudyGuide`). The four
  `.replace` calls that prepare the text for narration are scanning
  functions, one per regular expression. The lang-code choice is a function.
  The translation cache, the session-storage slot and the listen/stop toggle
  make up the class `Guide`.
- **Web service** (`backend.dfy`, module `Backend`). It covers:
  - the three-attempt retry loop around every model call;
  - the in-memory `documents` table, kept in the class `Server`;
  - upload validation;
  - chat lookup and its apology answer;
  - the choice of the quiz's source text;
  - the regular expression that un-indents generated headings.

  The model, the file extractors and the id generator are parameters: the
  model is `ai: nat -> AiOutcome` (what attempt i does) and the extractor is
  `FileKind -> Either<string, string>`.
- `text.dfy` (module `Text`) holds the shared helpers. These are the option
  and result types, prefix and substring tests, and the whitespace classes of
  JavaScript and Python regular expressions. It also has Python's
  `str.strip()`.

The model keeps to what the code does, including these points:

- The narration hook has no text chunking, no utterance queue and no session
  token. It has no language-aware voice choice either. `speak` submits the
  whole text as one utterance, and the voice test ignores the language the
  caller asks for.
- The study-guide view computes a lang code (`hi-IN` for Hindi, otherwise
  `en-US`) and passes it to `speak`, but `speak` takes one argument and drops
  it. `StudyGuide.Guide.HandleSpeak` returns the code so that this is visible.
- Because no token ties a notification to its utterance, a late end or error
  from a superseded utterance clears the flags of the narration that replaced
  it. `Narration.StaleEndClearsNewNarration` shows this.
- `handleTranslate` switches the language before its request settles. While
  the request is in flight the cache holds no entry for the language shown,
  and `handleSpeak` calls `.replace` on `undefined` and throws. The model
  splits the handler into `TranslateStart` and `TranslateDone`, and
  `HandleSpeak` returns `ok == false` in that window and sends nothing.
  `StudyGuide.SpeakWhileTranslating` shows this.
- Any model error whose text contains "429" is retried. That includes a JSON
  parse error of the quiz reply, because the parse runs inside the retried
  block.
- Upload first checks the extension case-sensitively. It then picks the
  extractor with `filename.lower()`. For a name that has passed the first
  check, the lower-cased test picks the same extractor as a case-sensitive
  one, so `Backend.KindOf` uses the case-sensitive test.

## Model

| member | source | states |
|---|---|---|
| Narration.Preferred | frontend/src/hooks/useTTS.js:25-29 | the voice test: the name contains "Google US English" or "Microsoft David", or the language starts with "en-" |
| Narration.FirstPreferred | frontend/src/hooks/useTTS.js:25-29 | the index found holds a voice that passes the test, and no earlier voice passes it; None exactly when no voice passes |
| Narration.PickVoice | frontend/src/hooks/useTTS.js:24-33 | no voice (the service default) exactly when no voice in the list passes the test; otherwise a voice from the list that passes it |
| Narration.PickVoiceIsFirst | frontend/src/hooks/useTTS.js:25-29 | the voice picked is the first in list order that passes the test, whatever follows it |
| Narration.ListOrderBeatsName | frontend/src/hooks/useTTS.js:25-29 | an "en-" voice listed before a "Google US English" voice is picked: list order decides, not which test matched |
| Narration.Narrator.constructor | frontend/src/hooks/useTTS.js:4-6 | both flags start false, with no utterance and no command sent |
| Narration.Narrator.Speak | frontend/src/hooks/useTTS.js:15-53 | empty text sends nothing; other text sends one cancel, then one submit of the whole text with the picked voice; the flags never change and the invariant isPaused ==> isSpeaking holds |
| Narration.Narrator.OnStart | frontend/src/hooks/useTTS.js:35-38 | for any submitted utterance, speaking and not paused afterwards |
| Narration.Narrator.OnEnd | frontend/src/hooks/useTTS.js:40-43 | for any submitted utterance, current or older, both flags false afterwards |
| Narration.Narrator.OnError | frontend/src/hooks/useTTS.js:45-49 | for any submitted utterance and any error, both flags false afterwards |
| Narration.Narrator.Cancel | frontend/src/hooks/useTTS.js:55-59 | from any state, sends one cancel and leaves both flags false |
| Narration.Narrator.Pause | frontend/src/hooks/useTTS.js:61-66 | only when speaking and not paused: sends pause and sets isPaused; otherwise nothing is sent and the flag is unchanged |
| Narration.Narrator.Resume | frontend/src/hooks/useTTS.js:68-73 | only when speaking and paused: sends resume and clears isPaused; otherwise nothing is sent and the flag is unchanged |
| Narration.Narrator.Unmount | frontend/src/hooks/useTTS.js:8-13 | teardown sends one cancel to the service |
| Narration.CancelTwice | frontend/src/hooks/useTTS.js:55-59 | a second cancel leaves the flags as the first one left them |
| Narration.StaleEndClearsNewNarration | frontend/src/hooks/useTTS.js:35-53 | after two narrations, the end notification of the first one clears the flags while the second one is current |
| Quiz.QuizPayload | frontend/src/components/QuizModal.jsx:25-28 | the request is sent by doc id when there is one, else by text; there is nothing to send exactly when both are empty |
| Quiz.CountCorrect | frontend/src/components/QuizModal.jsx:51-59 | the number of right answers never exceeds the number of answers recorded |
| Quiz.CountCorrectSnoc | frontend/src/components/QuizModal.jsx:56-58 | one more answer adds one to the count exactly when it is the question's correct answer |
| Quiz.QuizModal.constructor | frontend/src/components/QuizModal.jsx:8-14 | the initial state: no question, cursor 0, no selection, score 0, no result |
| Quiz.QuizModal.OptionClick | frontend/src/components/QuizModal.jsx:51-59 | a click on an answered question changes nothing; the first click records the option and raises the score by one exactly when it is right; the invariant score <= answered <= number of questions holds |
| Quiz.QuizModal.ResetQuestion | frontend/src/components/QuizModal.jsx:46-49 | the selection and the answered flag are cleared and nothing else changes |
| Quiz.QuizModal.Next | frontend/src/components/QuizModal.jsx:61-68 | before the last question the cursor moves up by one and the selection is cleared; at the last one the result is shown and the cursor stays; the score never changes and the cursor stays on the list |
| Quiz.QuizModal.Fetch | frontend/src/components/QuizModal.jsx:22-44 | the payload is the one QuizPayload gives; on success the list is replaced and cursor, score, result and selection are reset; with no payload or a failed request the dialog closes and the quiz is kept; loading ends false |
| Quiz.QuizModal.SetOpen | frontend/src/components/QuizModal.jsx:16-20 | a fetch happens exactly when the dialog opens with no question loaded; without it only `isOpen` changes; with it, success replaces the list and resets cursor, score, result and selection, and failure or a missing payload closes the dialog with the quiz kept |
| Quiz.QuizModal.Restart | frontend/src/components/QuizModal.jsx:70-72 | a fresh fetch with the payload QuizPayload gives: success replaces the list and resets cursor, score, result and selection; failure or a missing payload closes the dialog with the quiz kept |
| StudyGuide.RemoveSymbols | frontend/src/components/StudyGuide.jsx:24 | no markdown symbol is left |
| StudyGuide.RemoveSymbolsChars | frontend/src/components/StudyGuide.jsx:24 | every character left comes from the input |
| StudyGuide.RemoveSymbolsPlain | frontend/src/components/StudyGuide.jsx:24 | a text without symbols is left as it is |
| StudyGuide.RemoveSymbolsAppend | frontend/src/components/StudyGuide.jsx:24 | the removal works character by character: it distributes over concatenation |
| StudyGuide.LinkPrefix | frontend/src/components/StudyGuide.jsx:25 | a match is `[`, a non-empty label free of `]`, `](`, a non-empty target free of `)`, then `)` |
| StudyGuide.LinkPrefixOf | frontend/src/components/StudyGuide.jsx:25 | every such link is matched, whatever follows it |
| StudyGuide.ReplaceLinks | frontend/src/components/StudyGuide.jsx:25 | the output is never longer than the input; ReplaceLinksOfLink and ReplaceLinksPrefix say a link becomes its label, ReplaceLinksNoMatch that any other character is kept |
| StudyGuide.ReplaceLinksChars | frontend/src/components/StudyGuide.jsx:25 | the output uses only characters of the input |
| StudyGuide.ReplaceLinksOfLink | frontend/src/components/StudyGuide.jsx:25 | a link `[label](target)` becomes its label and the rest is processed on its own |
| StudyGuide.ReplaceLinksPlain | frontend/src/components/StudyGuide.jsx:25 | a text without `[` is left as it is |
| StudyGuide.ReplaceLinksPrefix | frontend/src/components/StudyGuide.jsx:25 | text before the first `[` is copied, so a link anywhere after it is replaced as at the front |
| StudyGuide.ReplaceLinksNoMatch | frontend/src/components/StudyGuide.jsx:25 | a `[` that opens no link is kept and scanning goes on after it |
| StudyGuide.ReplaceLinksNoClose | frontend/src/components/StudyGuide.jsx:25 | a text without `]` holds no link and is left as it is, `[` included |
| StudyGuide.StrayBracketKept | frontend/src/components/StudyGuide.jsx:25 | "[a]b" is left as it is |
| StudyGuide.BulletAt | frontend/src/components/StudyGuide.jsx:26 | a match is blanks, one `-` or `+`, then a whole non-empty run of blanks |
| StudyGuide.BulletAtShape | frontend/src/components/StudyGuide.jsx:26 | every text of that shape at the index is the match found |
| StudyGuide.BulletAtNone | frontend/src/components/StudyGuide.jsx:26 | there is no match only when no text of that shape starts at the index |
| StudyGuide.StripBulletsFrom | frontend/src/components/StudyGuide.jsx:26 | the output is never longer than the text scanned; BulletRemoved says a bullet at a line start is dropped, StripBulletsNoMatch that any other character is kept |
| StudyGuide.StripBulletsNoMatch | frontend/src/components/StudyGuide.jsx:26 | where no bullet opens, the character is kept and the scan goes on from the next one |
| StudyGuide.StripBulletsChars | frontend/src/components/StudyGuide.jsx:26 | the output uses only characters of the input |
| StudyGuide.BulletRemoved | frontend/src/components/StudyGuide.jsx:26 | at a line start, the indentation, one `-` or `+` and the whitespace after it are dropped, and the text goes on after them |
| StudyGuide.StripBulletsPlain | frontend/src/components/StudyGuide.jsx:26 | a text without `-` and `+` is left as it is |
| StudyGuide.StripBulletsKeepsAll | frontend/src/components/StudyGuide.jsx:26 | where no line start opens a bullet, nothing is removed |
| StudyGuide.OneLineKept | frontend/src/components/StudyGuide.jsx:26 | a single line that starts with a character other than a blank, `-` or `+` loses nothing |
| StudyGuide.HyphenInWordKept | frontend/src/components/StudyGuide.jsx:26 | "well-known" keeps its hyphen |
| StudyGuide.CollapseNewlines | frontend/src/components/StudyGuide.jsx:27 | no newline is left |
| StudyGuide.CollapseNewlinesChars | frontend/src/components/StudyGuide.jsx:27 | every character left is a space or comes from the input |
| StudyGuide.CollapseRun | frontend/src/components/StudyGuide.jsx:27 | each maximal run of newlines becomes exactly one space, and the text on each side is collapsed on its own |
| StudyGuide.CollapsePlain | frontend/src/components/StudyGuide.jsx:27 | a text without newlines is left as it is |
| StudyGuide.NarrationText | frontend/src/components/StudyGuide.jsx:23-27 | the narrated text holds no `#`, `*`, `_`, `~` or backtick, and no newline |
| StudyGuide.LangCode | frontend/src/components/StudyGuide.jsx:30 | `hi-IN` exactly for "Hindi", `en-US` for every other language |
| StudyGuide.Cached | frontend/src/components/StudyGuide.jsx:85 | a cache hit: the language has an entry and the entry is not the empty text |
| StudyGuide.SavedFor | frontend/src/components/StudyGuide.jsx:44-47 | the saved cache exists and its English entry equals the content |
| StudyGuide.Guide.constructor | frontend/src/components/StudyGuide.jsx:15-16 | mounting starts in English with the cache `{English: content}` and then runs the content effect |
| StudyGuide.Guide.ContentChanged | frontend/src/components/StudyGuide.jsx:38-58 | the saved cache is reused exactly when its English entry equals the new content; otherwise the cache and the saved slot become `{English: content}` and the language becomes English |
| StudyGuide.Guide.TranslateStart | frontend/src/components/StudyGuide.jsx:81-96 | the language shown switches at once; a request is sent exactly when the cache has no text for the language, and the cache is untouched |
| StudyGuide.Guide.TranslateDone | frontend/src/components/StudyGuide.jsx:98-112 | for a language asked for: success adds exactly that key, keeps the others and saves the cache; failure reverts to English with the cache unchanged; the translating flag ends false |
| StudyGuide.SpeakWhileTranslating | frontend/src/components/StudyGuide.jsx:19-33 | listening while a translation is in flight sends nothing and fails, because the new language has no cache entry yet |
| StudyGuide.Guide.HandleSpeak | frontend/src/components/StudyGuide.jsx:19-33 | while speaking, cancel only; otherwise speak the narration text of the current language with lang code `hi-IN` or `en-US`; with no cache entry for the language nothing is sent |
| Text.Strip | backend/main.py:282 | the result is the input with its leading and trailing whitespace removed: a slice of the input, with only whitespace before and after it, and neither starting nor ending with whitespace |
| Text.StripEmptyIffBlank | backend/main.py:282 | `not text.strip()` holds exactly for text made only of Python whitespace, the empty text included |
| Backend.Retry | backend/main.py:98-118 | how the loop ends from a given attempt on; its properties are stated by RetryPolicy |
| Backend.RetryPolicy | backend/main.py:98-118 | at most three attempts; every attempt but the last raised an error containing "429"; the result is the last reply, or the last error when it lacks "429" or no attempt is left |
| Backend.NoRetryWithout429 | backend/main.py:112-118 | an error without "429" is raised after the first attempt |
| Backend.CallWithRetry | backend/main.py:98-118 | the loop ends as the retry policy says, after 1 to 3 attempts, having waited 1 then 2 seconds between them |
| Backend.IndentedHeadingAt | backend/main.py:109 | a match is one or more whitespace characters then `#` |
| Backend.IndentedHeadingAtNone | backend/main.py:109 | there is no match only when every `#` after the index has a non-whitespace character before it |
| Backend.UnindentFrom | backend/main.py:109 | the clean-up never lengthens the text |
| Backend.UnindentNoMatch | backend/main.py:109 | where no indented heading opens, the character is kept and the scan goes on from the next one |
| Backend.UnindentHeadings | backend/main.py:109 | the result is never longer, and only whitespace is removed; HeadingUnindented and UnindentNoMatch say what goes and what stays at each step |
| Backend.UnindentKeepsText | backend/main.py:109 | only whitespace is removed: the other characters are kept, in order |
| Backend.HeadingUnindented | backend/main.py:109 | at a line start, whitespace running up to a `#` is dropped and the `#` run kept |
| Backend.UnindentPlain | backend/main.py:109 | a text without `#` is left as it is |
| Backend.UnindentKeepsAll | backend/main.py:109 | where no line start opens an indented heading, nothing is removed |
| Backend.UnindentOneLine | backend/main.py:109 | a single line that does not start with whitespace is left as it is |
| Backend.MidLineHashKept | backend/main.py:109 | "x  # C" keeps its spaces |
| Backend.GenerateGuide | backend/main.py:71-122 | no client gives 500; otherwise the reply with its headings un-indented, or 500 "AI generation failed: " with the error |
| Backend.TranslateText | backend/main.py:222-257 | no client gives 500; otherwise the reply, or 500 "Translation failed: " with the error |
| Backend.AcceptedExtension | backend/main.py:263-264 | the upload check: the name ends in ".pdf" or ".docx", case-sensitively |
| Backend.ExtensionIsCaseSensitive | backend/main.py:263-264 | ".pdf" and ".docx" are accepted, ".PDF" and ".Docx" are refused |
| Backend.KindOf | backend/main.py:273-279 | the PDF extractor exactly for names ending in ".pdf", the Word one otherwise |
| Backend.QuizSource | backend/main.py:351-357 | the stored text when the doc id is known, else the given text when non-empty, else 400; 400 exactly when neither is usable |
| Backend.Server.constructor | backend/main.py:35 | the document table starts empty |
| Backend.Server.Upload | backend/main.py:259-300 | a bad extension gives 400, an extractor error gives 500, and blank text gives 400, all storing nothing; otherwise exactly one entry id to text is added, the others are kept, and the study guide's outcome is returned |
| Backend.Server.Chat | backend/main.py:302-344 | an unknown id gives 404; no client gives 500; otherwise always an answer: the reply, or the fixed apology when the model fails |
| Backend.Server.GenerateQuiz | backend/main.py:349-393 | no usable source gives 400; no client gives 500 with detail "500: Gemini client not initialized"; otherwise the reply, or 500 with the error's text |
| Backend.UploadThenQuiz | backend/main.py:286-287 | after an upload of non-blank text, the quiz made from the new id uses exactly that text |

## Left out

- Rendering: the JSX, styling, the quiz progress bar (a floating-point percentage) and the PDF export.
- The browser speech service itself. It is replaced by the command log, and its notifications are methods with no timing.
- React's render timing. Handlers read state from the render they were created in; the model applies each update to the current state. In particular, `TranslateDone` adds the new entry to the cache as it is when the reply arrives, not to the copy captured when the request was sent.
- StudyGuide.Guide.Valid: it keeps only that the English entry is cached, not that it equals the content. A request for English, sent when the content is empty, that settles after the content has changed overwrites that entry, as the code does.
- Network and I/O: HTTP routing and CORS, the model client, the PDF and Word extractors, the id generator, logging and the sleeps. The sleeps are kept only as the wait values.
- Prompt construction and the truncation of the text placed in each prompt. The model's reply is an oracle, so they do not affect the modelled outcomes.
- The quiz reply's JSON decoding. A decode failure is one of the errors the model oracle may raise.
- The review, share and contact endpoints, and the database and console scripts (`backend/database.py`, `backend/manage_reviews.py`, `backend/manage_contacts.py`). They do SQL and console I/O.
- Session storage is one slot holding the decoded cache. Storage written by other views and JSON decode errors are not modelled.
- JavaScript's `null` and `undefined` are folded into the empty string wherever the code tests for a falsy value.
- StudyGuide.RemoveSymbols: its own contract says only that no symbol is left, and RemoveSymbolsChars that nothing is added; the exact output is pinned down by RemoveSymbolsPlain and RemoveSymbolsAppend.
- StudyGuide.ReplaceLinks: its own contract bounds only the length and ReplaceLinksChars says which characters can appear; the output is pinned down by LinkPrefix and LinkPrefixOf (what a match is) with ReplaceLinksOfLink (a match becomes its label) and ReplaceLinksNoMatch (anything else is kept).
- StudyGuide.StripBulletsFrom: its own contract bounds only the length; BulletAt, BulletAtShape and BulletAtNone say what a match is, and BulletRemoved (a match at a line start is dropped) with StripBulletsNoMatch (any other character is kept) pin down the output step by step.
- StudyGuide.CollapseNewlines: its own contract and CollapseNewlinesChars say only which characters can appear; the exact output is pinned down by CollapseRun and CollapsePlain.
- Backend.UnindentFrom: its own contract bounds only the length; IndentedHeadingAt and IndentedHeadingAtNone say what a match is, UnindentKeepsText that only whitespace goes, and HeadingUnindented (a match at a line start loses its whitespace) with UnindentNoMatch (any other character is kept) pin down the output step by step.
