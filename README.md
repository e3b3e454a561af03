# Teachers portal: a verified model of its core logic

The teachers portal lets teachers create exams and lets students sit them in a
proctored browser session. This project models the parts of it that decide
things, and proves properties about them:

- **Exam grading** (`grading.dfy`, module `ExamGrading`). When an exam is
  created, the stored type of a choice question depends on how many correct
  choices it has. When an attempt is submitted, each answer gets a verdict
  according to its question's type: multiple choice, multi-select,
  true/false, fill-in-the-blank (with or without a clue) or matching. The
  grading loop adds up the score and collects the answer records to store.
- **The proctoring hook** (`anticheat.dfy`, module `AntiCheat`). The hook
  counts strikes when the tab is hidden, the window loses focus, the page is
  hidden or fullscreen is left. It boots the student in three cases: the
  strikes reach the limit, the 10-second warning countdown runs out, or the
  student stays away 10 seconds. The transition rules are pure functions
  over a `Monitor` state. Class `AntiCheatHook` holds the same state in
  fields, and each of its methods is proved to follow the matching rule.
- **The avatar generator** (`avatar.dfy`, module `Avatar`). This covers the
  32-bit string hash (a loop, written as a method), its decimal digit
  helper, and the colour and offset of each marble element.
- **Helpers**:
  - `utils.dfy`, module `Utils`: the flag emoji, slugify and truncate.
  - `geo.dfy`, module `Geo`: client IP extraction from proxy headers.
  - `jstext.dfy`, module `JsText`: the JavaScript string operations these
    rely on, namely `trim`, ASCII case mapping and UTF-16 code units.
- **The request proxy** (`proxy.dfy`, module `Proxy`). It adds origin and
  URL headers to each request. Signed-in users are redirected away from the
  sign-in and sign-up routes. The teacher panel is protected.
- **The sidebar resizer** (`sidebar.dfy`, module `Sidebar`): a class whose
  width follows the mouse only while resizing, and only inside
  200..480 pixels.
- **The navigation link** (`navlink.dfy`, module `NavLink`). It decides when
  a click starts the progress bar, and in which order a click's effects run.

`wrappers.dfy` holds the `Option` type, with JavaScript's `??` on it.
`headers.dfy`, module `HttpHeaders`, holds the request headers shared by
`Geo` and `Proxy`.

Notes on how the model reads the code:

- JavaScript truthiness is written out wherever the code tests a value. For
  example, an empty header value counts as absent, and an away timestamp of
  0 counts as unset.
- The proxy matches the paths `/sign-in` and `/sign-up` exactly. The app's
  own sign-in and sign-up pages live at `/signin` and `/signup`, so signed-in
  users are not redirected away from those pages. The model follows the code.
- Multi-select grading compares the selection's length with the number of
  correct ids, then checks that every selected id is correct. It does not
  check that the selection is free of duplicates. The model keeps this
  behaviour, and `DuplicateSelectionPasses` exhibits it.
- After the first warning countdown, the hook never nulls its interval ref.
  So no later strike starts a new countdown, and the same holds after the
  effect re-runs. `NoSecondCountdown` states this.

## Model

| member | source | states |
|---|---|---|
| ExamGrading.CountCorrectAboveZero | src/server/routers/exam.ts:35-37 | the count of correct choices is positive exactly when some choice is correct |
| ExamGrading.CountCorrectAboveOne | src/server/routers/exam.ts:35-38 | the count of correct choices exceeds one exactly when two distinct choices are correct |
| ExamGrading.StoredTypeRule | src/server/routers/exam.ts:31-43 | a question declared multiple choice or multi-select is stored as multi-select iff it has choices with at least two correct, and otherwise as multiple choice |
| ExamGrading.StoredType | src/server/routers/exam.ts:31-43 | types other than the two choice types are stored as declared |
| ExamGrading.FindChoice | src/server/routers/exam.ts:297-299 | finds no choice iff no choice has the id; a found choice is in the list, has the id, and sits at an index before which no choice has the id, so the first match wins |
| ExamGrading.ChoiceCorrect | src/server/routers/exam.ts:296-302 | no selection is wrong; a correct verdict means some choice with the selected id is correct; when the first choice has the id, its flag decides; an id no choice has is wrong |
| ExamGrading.ChoiceCorrectIff | src/server/routers/exam.ts:296-302 | with distinct ids, a multiple-choice answer is correct iff the selected id names a correct choice; no selection is never correct |
| ExamGrading.CorrectIds | src/server/routers/exam.ts:307-309 | the ids listed are exactly those of the correct choices, none when no choice is correct; with distinct choice ids, the list holds no id twice |
| ExamGrading.SelectionCorrect | src/server/routers/exam.ts:303-316 | passes iff the selection (a missing one counts as empty) has as many ids as there are correct choices and each selected id is the id of a correct choice, both directions, so repeats of a correct id pass; selecting exactly the correct ids passes |
| ExamGrading.SelectionCorrectIffSameSet | src/server/routers/exam.ts:307-316 | for a selection without duplicates, full marks iff the selected set equals the set of correct ids; a strict subset or superset fails |
| ExamGrading.NoSelection | src/server/routers/exam.ts:310-316 | a missing selection counts as empty and is correct iff no choice is correct |
| ExamGrading.DuplicateSelectionPasses | src/server/routers/exam.ts:312-314 | the selection ["a","a"] passes when "a" and "b" are both correct |
| ExamGrading.BooleanCorrect | src/server/routers/exam.ts:317-320 | correct iff an answer was given and equals the stored value |
| ExamGrading.BlankText | src/server/routers/exam.ts:327-329 | a missing or empty text answer is read as "[]"; any other text as itself |
| ExamGrading.BlanksCorrect | src/server/routers/exam.ts:330-345 | passes iff the answer decoded to a list as long as the stored one and every blank equals its stored answer after trim and lower-case, both directions; the stored list itself passes |
| ExamGrading.BlanksAllOrNothing | src/server/routers/exam.ts:330-345 | one blank that differs from its stored answer after trim and lower-case fails the whole answer |
| ExamGrading.MalformedBlanksWrong | src/server/routers/exam.ts:326-346 | text that does not decode to a list of strings is graded wrong |
| ExamGrading.EmptyBlankText | src/server/routers/exam.ts:327-343 | a missing or empty text answer is correct iff the question stores no blanks |
| ExamGrading.BlanksIgnoreCaseAndSpace | src/server/routers/exam.ts:334-341 | blanks typed with the stored letters up to ASCII case and padded with white space are all accepted |
| ExamGrading.PairsCorrect | src/server/routers/exam.ts:347-373 | no answer object is wrong; a passing answer sends every pair id to itself; an answer that sends every key to itself and covers every pair id passes |
| ExamGrading.PairsCorrectLocal | src/server/routers/exam.ts:360-371 | the matching verdict depends only on the answers given for the question's own pair ids; no pairs is always correct; a missing answer object is wrong |
| ExamGrading.SwappedPairsWrong | src/server/routers/exam.ts:363-369 | swapping two right-hand options makes a three-pair answer wrong |
| ExamGrading.GradeMatching | src/server/routers/exam.ts:360-371 | the loop that stops at the first mismatching pair returns the matching verdict |
| ExamGrading.IsCorrect | src/server/routers/exam.ts:296-373 | per question type, with its record present, the verdict is that type's rule; without the type's record the answer is never correct |
| ExamGrading.GradeAnswer | src/server/routers/exam.ts:293-375 | the per-answer branch computes the verdict of IsCorrect |
| ExamGrading.FindQuestion | src/server/routers/exam.ts:290-291 | no question iff no question has the id; a found one is in the exam and has the id; with FindQuestionFirst, it is the first question with the id |
| ExamGrading.FindQuestionFirst | src/server/routers/exam.ts:290-291 | the question found for an id is the one at the first index holding that id |
| ExamGrading.ChoiceIds | src/server/routers/exam.ts:379-384 | the stored choice ids are the non-empty list if given, else the single id if given and non-empty, else empty |
| ExamGrading.Award | src/server/routers/exam.ts:290-377 | an entry for an unknown question earns 0; for a known question it earns the question's points iff its verdict is correct, else 0; a non-zero award is the points of a question with the entry's id |
| ExamGrading.Score | src/server/routers/exam.ts:285-377 | no entries score 0 and a single entry scores its award; with ScoreAppend, the score is the sum of the entries' awards |
| ExamGrading.Records | src/server/routers/exam.ts:386-392 | no entries store no record, and a single entry stores its record iff its question exists; with ScoreAppend, the records of a list are those of its entries in order |
| ExamGrading.ScoreAppend | src/server/routers/exam.ts:285-393 | score, possible points and answer records all distribute over concatenating answer lists |
| ExamGrading.SingleEntry | src/server/routers/exam.ts:289-392 | one entry scores its award and stores one record iff its question exists |
| ExamGrading.UnknownEntryIgnored | src/server/routers/exam.ts:289-291 | an entry for an unknown question adds no points and no record, wherever it stands in the list |
| ExamGrading.RepeatedEntryCounted | src/server/routers/exam.ts:289-392 | an entry submitted twice is scored twice and stored twice |
| ExamGrading.MissingTypeRecordScoresZero | src/server/routers/exam.ts:293-375 | a question without its type's record awards nothing |
| ExamGrading.ScoreBounds | src/server/routers/exam.ts:375-377 | with positive points, the score lies between 0 and the points of the answered questions, and reaches the top iff every known entry is correct |
| ExamGrading.RecordsCount | src/server/routers/exam.ts:386-392 | one record is stored per entry whose question exists |
| ExamGrading.RecordsOrder | src/server/routers/exam.ts:386-392 | when every entry's question exists, the records are the entries' records in submission order |
| ExamGrading.GradeAttempt | src/server/routers/exam.ts:285-400 | the grading loop returns the score, the records and the stored strikes (0 when absent) given by the functions above |
| JsText.Trim | src/lib/utils.ts:29 | the result keeps every non-space character, ends with no space at either end, and draws only characters of the input |
| JsText.TrimNoSpace | src/lib/geo.ts:13 | trimming text without white space leaves it unchanged |
| JsText.ToLower | src/lib/utils.ts:28 | same length, each character mapped by the ASCII lower-case mapping |
| JsText.Utf16 | src/lib/utils.ts:21 | the code units are all below 0x10000, at least one per character, and exactly one per character in the basic plane |
| JsText.Utf16Bmp | src/lib/utils.ts:21 | in the basic plane, the i-th code unit is the i-th character's code |
| Utils.GetFlag | src/lib/utils.ts:17-23 | one code point per UTF-16 unit of the upper-cased code, shifted by 127397 |
| Utils.GetFlagLetters | src/lib/utils.ts:17-23 | a code of ASCII letters maps letter by letter onto the regional indicator symbols U+1F1E6..U+1F1FF |
| Utils.GetFlagIgnoresCase | src/lib/utils.ts:18-19 | lower-casing the code first does not change the flag |
| Utils.SpacesToHyphen | src/lib/utils.ts:30 | no white space remains, every character is "-" or from the input, and text without white space is unchanged |
| Utils.SpacesToHyphenRun | src/lib/utils.ts:30 | after a prefix without white space, a maximal run of white space becomes exactly one "-" and the rest of the text is processed the same way |
| Utils.KeepWordChars | src/lib/utils.ts:31 | only word characters and hyphens of the input survive, every one of them appears, and text made only of them is unchanged |
| Utils.KeepWordCharsAppend | src/lib/utils.ts:31 | the filter works character by character: filtering a concatenation concatenates the filtered parts |
| Utils.KeepWordCharsOne | src/lib/utils.ts:31 | a single character is kept iff it is a word character or a hyphen, and is otherwise dropped |
| Utils.CollapseHyphens | src/lib/utils.ts:32 | no two hyphens remain adjacent, every character is from the input, the first character is kept, and text without double hyphens is unchanged |
| Utils.CollapseHyphensRun | src/lib/utils.ts:32 | after a prefix that has no double hyphen and does not end in one, a maximal run of hyphens becomes exactly one "-" and the rest of the text is processed the same way |
| Utils.Slugify | src/lib/utils.ts:25-32 | a slug holds only word characters and hyphens, with no double hyphen |
| Utils.SlugifyIdempotent | src/lib/utils.ts:25-32 | slugifying a slug gives it back |
| Utils.Truncate | src/lib/utils.ts:34-40 | null iff the text is missing or empty; text within the limit is returned as is; longer text keeps its first max characters followed by "..." |
| Utils.TruncateDefault | src/lib/utils.ts:34-40 | with the default limit, text of up to 100 characters is kept and longer text becomes 103 characters with its first 100 unchanged |
| Geo.GetIp | src/lib/geo.ts:5-32 | a non-empty cf-connecting-ip wins; the result is null iff no header gives a value and the forwarded header has no for= match |
| Geo.GetIpByPriority | src/lib/geo.ts:8-31 | the result comes from the first truthy header in the order cf-connecting-ip, x-forwarded-for, x-real-ip, true-client-ip, fastly-client-ip, forwarded, each read its own way |
| Geo.BeforeComma | src/lib/geo.ts:13 | the first comma-separated element is the longest prefix without a comma |
| Geo.XForwardedForFirstElement | src/lib/geo.ts:11-14 | when cf-connecting-ip is unset, the address is the first comma-separated element of x-forwarded-for with its surrounding white space removed, even when that element is empty |
| HttpHeaders.Get | src/lib/geo.ts:8 | a header value is read iff the header is present, and it is the stored value |
| Geo.MatchAt | src/lib/geo.ts:27 | a match starts with "for=" and captures a non-empty run free of ';' and '"'; the capture is the longest such run after "for=" and an optional quote; "for=" followed by a non-empty run always matches |
| Geo.ForwardedFor | src/lib/geo.ts:25-29 | no capture iff the pattern matches nowhere; otherwise the capture is that of a match position |
| Geo.ForwardedCommaExample | src/lib/geo.ts:25-29 | "for=a,for=b" captures "a,for=b": a comma does not end the value |
| Geo.ForwardedQuotedExample | src/lib/geo.ts:25-29 | a quoted value is captured without its quotes |
| Geo.ForwardedWithoutFor | src/lib/geo.ts:25-31 | a forwarded header without "for=" gives no address |
| Sidebar.NextWidth | src/hooks/useSidebarResizer.ts:21-31 | the width becomes the pointer position iff resizing and the position is in 200..480; a width in the band stays in it |
| Sidebar.MovesOutsideBandIgnored | src/hooks/useSidebarResizer.ts:23-27 | moves while not resizing, or outside the band, leave the width alone |
| Sidebar.SidebarResizer.constructor | src/hooks/useSidebarResizer.ts:5-7 | starts at 280 pixels, not resizing |
| Sidebar.SidebarResizer.StartResizing | src/hooks/useSidebarResizer.ts:9-13 | turns resizing on and changes nothing else |
| Sidebar.SidebarResizer.StopResizing | src/hooks/useSidebarResizer.ts:15-19 | turns resizing off and changes nothing else |
| Sidebar.SidebarResizer.Resize | src/hooks/useSidebarResizer.ts:21-31 | sets the width by NextWidth and keeps it in the band |
| NavLink.IsModifiedEvent | src/components/link.tsx:13-26 | any modifier key or the middle button makes a click modified, and so does a target other than empty and "_self"; a click is unmodified exactly when none of these holds |
| NavLink.ShouldTriggerStartEvent | src/components/link.tsx:28-41 | the progress bar starts iff the click is unmodified, the origin is the same and the path or query differs |
| NavLink.HashIgnored | src/components/link.tsx:33-40 | the fragment never matters, so a link to the current page with another hash starts nothing |
| NavLink.ClickEffects | src/components/link.tsx:43-61 | a click starts progress iff the href is a local path and the start rule holds, calls the caller's handler iff there is one, and starts progress first |
| Proxy.HostHeader | src/proxy.ts:36-37 | the x-forwarded-host value when present, else the host value when present, else "null" |
| Proxy.Proto | src/proxy.ts:38 | the x-forwarded-proto value when present, else "http" |
| Proxy.Origin | src/proxy.ts:36-40 | over the raw headers: the protocol, "://" and the x-forwarded-host value, else the host value; with neither it ends in "://null"; without x-forwarded-proto it starts with "http://", otherwise with that value and "://" |
| Proxy.FullUrl | src/proxy.ts:36-39 | the full URL starts with the origin and continues with exactly the request path |
| Proxy.ForwardHeaders | src/proxy.ts:41-43 | the request headers plus the origin and URL headers, every other header unchanged |
| Proxy.Decide | src/proxy.ts:34-73 | a redirect home iff signed in on a sign-in or sign-up route; a redirect to sign-in with callbackUrl iff anonymous on the teacher panel; a rewrite to not-found iff a non-staff user is on the panel; otherwise pass through; every response carries the forwarded headers |
| Proxy.PassThroughCases | src/proxy.ts:49-72 | an anonymous visitor of /sign-in, and teachers or admins on the panel, pass through |
| Avatar.ToInt32 | src/app/avatar/route.tsx:139 | the 32-bit signed wrap of x lies in range, differs from x by a multiple of 2^32, and is x when x is in range |
| Avatar.HashStep | src/app/avatar/route.tsx:138-139 | one step of the loop body yields a signed 32-bit integer |
| Avatar.HashStepIs31Hash | src/app/avatar/route.tsx:138-139 | the shift-and-subtract step is 31·h + c wrapped to 32 bits |
| Avatar.HashAcc | src/app/avatar/route.tsx:135-140 | the accumulator after any number of code units is a signed 32-bit integer |
| Avatar.Hash | src/app/avatar/route.tsx:134-142 | the hash of a name lies in 0..2^31 |
| Avatar.HashAccSteps | src/app/avatar/route.tsx:134-142 | the hash of no units is 0 and each unit extends it by the 31-step |
| Avatar.HashCode | src/app/avatar/route.tsx:134-142 | the loop over the name's UTF-16 units returns the absolute value of the 32-bit hash, in 0..2^31 |
| Avatar.TruncRem | src/app/avatar/route.tsx:149 | the JavaScript remainder has the dividend's sign and a magnitude below the divisor's |
| Avatar.GetDigit | src/app/avatar/route.tsx:144-146 | for a non-negative number, the k-th decimal digit in 0..9 |
| Avatar.GetUnit | src/app/avatar/route.tsx:148-154 | the remainder, negated exactly when an index is given and that digit is even |
| Avatar.GetRandomColor | src/app/avatar/route.tsx:156-162 | the colour at number mod the palette size; none for an empty palette |
| Avatar.GenerateColors | src/app/avatar/route.tsx:42-55 | three elements: element i takes colour (hash + i) mod palette size, offsets in -7..7 and rotation in -359..359 |
| AntiCheat.StrikeStep | src/hooks/useAntiCheat.ts:29-63 | ignored while auto-submitting; otherwise one more strike with the reason. At the limit it boots and closes the warning; below the limit it opens the warning and starts a 10-second countdown only if none was ever started |
| AntiCheat.AwayStartStep | src/hooks/useAntiCheat.ts:68-83 | apart from the away fields the result is exactly the strike; afterwards the away timeout ref is set and an away time is recorded |
| AntiCheat.BackStep | src/hooks/useAntiCheat.ts:85-99 | only boots, the warning and the away fields change; afterwards no away time and no away timeout ref remain; it boots at most once, closing the warning when it does and leaving the warning as it was when it does not |
| AntiCheat.TickStep | src/hooks/useAntiCheat.ts:46-58 | only the seconds, the running flag, boots and the warning change; it boots iff the countdown runs at one second or less, and then stops it at 0 with the warning closed; above one second a running countdown loses one second |
| AntiCheat.AwayTimeoutStep | src/hooks/useAntiCheat.ts:74-77 | it boots iff the away timeout is pending and due, and otherwise changes nothing; when it fires, the timeout is no longer pending and the warning closes, and every other field (the reason, the countdown, the away time, the ref) stays |
| AntiCheat.TeardownStep | src/hooks/useAntiCheat.ts:133-142 | the listeners are gone; from a valid state no timer is left running; every field other than the listeners and the two running flags, `violation` included, is unchanged |
| AntiCheat.EffectStep | src/hooks/useAntiCheat.ts:65-143 | from a valid state no timer of the last run is left running; every field other than the listeners and the two running flags (the warning, the reason, the seconds, the away time, the refs, strikes, boots) is unchanged |
| AntiCheat.Step | src/hooks/useAntiCheat.ts:65-131 | strikes change only on a strike signal while the listeners are installed; without listeners, listener events change nothing |
| AntiCheat.Run | src/hooks/useAntiCheat.ts:29-143 | a run of events without a strike signal leaves the strikes unchanged |
| AntiCheat.StepProperties | src/hooks/useAntiCheat.ts:29-142 | every event keeps the state valid, adds at most one strike, never lowers strikes or boots, and keeps a countdown handle set |
| AntiCheat.StrikesNeverDecrease | src/hooks/useAntiCheat.ts:34-62 | over any run of events strikes never go down, rise by at most one per event, and the state stays valid |
| AntiCheat.FinalStrikeBoots | src/hooks/useAntiCheat.ts:36-38 | the strike that reaches the limit boots at once, closes the warning, and starts no countdown |
| AntiCheat.CountdownCountsDown | src/hooks/useAntiCheat.ts:46-58 | a running countdown loses a second per tick, without booting, while above one |
| AntiCheat.CountdownRunsOut | src/hooks/useAntiCheat.ts:47-55 | the tick at one second stores 0, stops the countdown, closes the warning and boots once |
| AntiCheat.TenthTickBoots | src/hooks/useAntiCheat.ts:44-58 | a fresh 10-second countdown does not boot in nine ticks and boots on the tenth |
| AntiCheat.NoSecondCountdown | src/hooks/useAntiCheat.ts:43-59 | once a countdown has stopped, no event sequence restarts it or changes its seconds |
| AntiCheat.ThreeFullscreenExitsBoot | src/hooks/useAntiCheat.ts:117-121 | with the limit 3, three fullscreen exits give three strikes and one boot, with the warning closed |
| AntiCheat.AwayStartKeepsFirst | src/hooks/useAntiCheat.ts:68-83 | an away signal keeps the first away time, arms the away timeout only if none is armed, and records a strike unless auto-submitting |
| AntiCheat.AwayTimeoutBoots | src/hooks/useAntiCheat.ts:73-78 | hiding the tab arms a timeout that boots and closes the warning when it fires 10000 ms later |
| AntiCheat.BackBootsWhenTooLate | src/hooks/useAntiCheat.ts:85-99 | coming back boots iff more than 10000 ms passed since the first away signal, and clears the away time and the timeout |
| AntiCheat.BackWhenNotAway | src/hooks/useAntiCheat.ts:85-99 | coming back when not away changes nothing |
| AntiCheat.FullscreenExitLeavesAwayTimer | src/hooks/useAntiCheat.ts:117-121 | leaving fullscreen is a plain strike and leaves the away state alone |
| AntiCheat.ListenersOnlyWhileActive | src/hooks/useAntiCheat.ts:65-131 | after the effect runs, the listeners are installed iff the stage is active |
| AntiCheat.QuietAfterTeardown | src/hooks/useAntiCheat.ts:133-142 | after cleanup no timer is left running, and no event short of the effect running again changes the state |
| AntiCheat.AntiCheatHook.constructor | src/hooks/useAntiCheat.ts:17-27 | no strikes, no violation, 10 seconds, warning closed, no timers, no listeners; the state is valid |
| AntiCheat.AntiCheatHook.RecordStrike | src/hooks/useAntiCheat.ts:29-63 | updates the fields as StrikeStep does |
| AntiCheat.AntiCheatHook.HandleAwayStart | src/hooks/useAntiCheat.ts:68-83 | updates the fields as AwayStartStep does |
| AntiCheat.AntiCheatHook.HandleBack | src/hooks/useAntiCheat.ts:85-99 | updates the fields as BackStep does |
| AntiCheat.AntiCheatHook.HandleVisibilityChange | src/hooks/useAntiCheat.ts:101-107 | hidden is an away signal "Tab switching detected.", visible is coming back |
| AntiCheat.AntiCheatHook.HandleBlur | src/hooks/useAntiCheat.ts:109-111 | an away signal "Window focus lost." |
| AntiCheat.AntiCheatHook.HandleFocus | src/hooks/useAntiCheat.ts:113-115 | coming back |
| AntiCheat.AntiCheatHook.HandleFullscreenChange | src/hooks/useAntiCheat.ts:117-121 | a strike "Exited Fullscreen mode." when no element is fullscreen |
| AntiCheat.AntiCheatHook.HandlePageHide | src/hooks/useAntiCheat.ts:123-125 | an away signal "Page hidden (Mobile/Tab switch)." |
| AntiCheat.AntiCheatHook.IntervalTick | src/hooks/useAntiCheat.ts:46-58 | updates the fields as one countdown tick does |
| AntiCheat.AntiCheatHook.AwayTimeoutFires | src/hooks/useAntiCheat.ts:74-77 | updates the fields as the away timeout firing does |
| AntiCheat.AntiCheatHook.Teardown | src/hooks/useAntiCheat.ts:133-142 | removes the listeners and clears both timers, keeping the refs |
| AntiCheat.AntiCheatHook.RunEffect | src/hooks/useAntiCheat.ts:65-143 | cleans up the previous run, then installs the listeners iff the stage is active |
| AntiCheat.AntiCheatHook.Unmount | src/hooks/useAntiCheat.ts:133-142 | runs the last cleanup |
| AntiCheat.AntiCheatHook.Boot | src/hooks/useAntiCheat.ts:7 | one call of `onBoot` adds one to the boot count |

## Left out

- Persistence and authentication. The Prisma queries and the session lookup
  are not modelled. Questions and the session user become parameters,
  `Proxy.Decide`'s `session` among them. A missing exam (the 404 reply) is
  not modelled.
- Exam creation is modelled only through its type rule. The random
  six-character exam code is randomness. Building the nested records is
  database I/O.
- The other exam routes (fetching an exam, listing its results) are database
  reads.
- `JSON.parse` is a parameter of the grading functions (`JsonDecoder`), not a JSON
  parser.
- The matching answer is `t.Any()` in the source. The model represents it as
  a map of string lookups, with every falsy value as None.
  `StudentMatching.tsx` is not part of this model.
- Points and scores are unbounded integers. The source's floating-point
  arithmetic is not modelled.
- In `useAntiCheat.ts`, real timers, `Date.now()`, the DOM and React's
  scheduler are left out. Timer callbacks and clock readings become events.
  `onBoot` is counted in `boots` rather than performed.
- React state-updater batching and StrictMode's double invocation are not
  modelled. The hook's `setStrikes` export is not modelled either.
- `maxStrikes` is fixed per hook instance. The model does not capture a new
  limit arriving while the hook is mounted.
- Sidebar.NextWidth: `clientX` is a whole number of pixels. A mouse event's
  `clientX` is a double, so fractional widths are not modelled.
- The avatar's SVG text, `crypto.randomUUID()` and the HTTP handler are
  output and randomness.
- The avatar's `scale` property is floating point and left out.
- Avatar.GetDigit: the source's floating-point division and `Math.floor`
  are modelled as exact integer arithmetic.
- Avatar.GetUnit: requires a positive range. Every caller passes 8, 4 or
  360. The source's NaN result for a zero range is not modelled.
- `encodeBtoa`, `decodeAtob` and `getSevenDaysAgo` in `utils.ts` are base64
  and URI coding, JSON and the clock.
- `getGeoFromIP` in `geo.ts` is a network call.
- JsText.ToLower: it (and `ToUpper`) covers only ASCII case mapping. Unicode
  case mapping is not modelled.
- Utils.Truncate: counts characters, not UTF-16 code units. For text
  outside the basic plane, `length` and `substring` differ from the model.
- Proxy.Decide:
  - URL resolution (`new URL`) and the `config.matcher` filter are Next.js
    runtime behaviour.
  - The two header names come from the configuration module, which is not
    part of this model, so they are parameters.
  - `headers.set` replaces a header case-insensitively. The model takes
    lower-case names.
- NavLink.ShouldTriggerStartEvent: takes the current and target URLs as
  already resolved. `getURL`'s `addBasePath` and `new URL` are not modelled.
  Neither are `href` objects (only string hrefs).
- The sidebar's cursor and text-selection styles, and adding and removing
  the window listeners, are DOM side effects.
- The `Link` component's rendering is not modelled. Only the order of the
  click handler's effects is.
