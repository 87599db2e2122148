# A verified model of the Mindful Journal app's logic

Mindful Journal is a React Native journaling app. A signed-in user writes an
entry. A keyword scorer assigns it a mood, and the entry is saved to a
database and listed by mood. Password-recovery links open the app through
deep links. This project models the logic of that app in Dafny and proves
properties of the model:

- the deep-link session resolver of `hooks/useDeepLinking.ts`, which:
  - tries the authorization-code exchange (the PKCE pattern of RFC 7636);
  - falls back to the implicit-flow tokens of the fragment (section 4.2.2 of
    RFC 6749), parsed with the `application/x-www-form-urlencoded` rules of
    section 5.1 of the WHATWG URL Standard;
  - then navigates to the password-update flow for `recovery` links;
- its cold-start, subscribe and teardown lifecycle;
- the keyword mood scorer of `lib/moodAnalyzer.ts`;
- the journal store of `store/journalStore.ts`;
- the logic embedded in the screens and components:
  - the mood filter and filter label;
  - word and character counts;
  - snippet truncation;
  - the form rules and the submit sequencing of the sign-in, password-reset
    and new-entry screens.

One module per source file:

| module | file |
|---|---|
| `Wrappers` | `Option`, for the source's `null`/`undefined` |
| `Text` | the JavaScript string built-ins used (`indexOf`, `includes`, `split`, `trim`, `toLowerCase`), over ASCII whitespace and ASCII case |
| `LinkParams`, `DeepLinking` | `hooks/useDeepLinking.ts` |
| `MoodAnalyzer` | `lib/moodAnalyzer.ts` |
| `JournalStore` | `store/journalStore.ts` |
| `JournalList` | `screens/JournalListScreen.tsx` |
| `JournalDetail` | `screens/JournalDetailScreen.tsx` |
| `JournalCard` | `components/JournalCard.tsx` |
| `ResetPassword` | `screens/ResetPasswordScreen.tsx` |
| `AuthForm` | `components/AuthForm.tsx` |
| `NewEntry` | `screens/NewEntryScreen.tsx` |

Collaborators are parameters carrying their answer. This covers the Supabase
auth calls, the database queries, the router and the alert dialog. The calls,
navigations and alerts a handler makes come back as a trace of `Effect`
values, in the order they are made.

State that the source keeps in React `useState` or the zustand store is the
field of a class. A flag's value while an awaited call is outstanding is
returned as an out-parameter (`loadingAtQuery`, `busyAtInsert`, …).

## Model

| member | source | states |
|---|---|---|
| Text.IndexOf | hooks/useDeepLinking.ts:22 | the result is -1 exactly when the character is absent; otherwise it is a position holding it with no earlier occurrence |
| Text.Split | hooks/useDeepLinking.ts:43 | `split` gives at least one piece and no piece contains the separator |
| Text.JoinSplit | hooks/useDeepLinking.ts:43 | joining the pieces of a split with the separator gives back the string |
| Text.SplitJoin | hooks/useDeepLinking.ts:43 | splitting a join of separator-free pieces gives back the pieces |
| Text.ToLower | lib/moodAnalyzer.ts:69 | lowercasing keeps the length and lowercases every character |
| Text.Contains | lib/moodAnalyzer.ts:75 | `includes` holds only for a text at least as long as the substring; the empty string and every prefix of the text are included |
| Text.Trim | screens/NewEntryScreen.tsx:20 | the trimmed text neither starts nor ends with whitespace, and is empty exactly when the text is all whitespace |
| Text.TrimIsInfix | screens/NewEntryScreen.tsx:40 | the trimmed text is the part of the text between a whitespace prefix and a whitespace suffix |
| LinkParams.SplitPair | hooks/useDeepLinking.ts:25 | a piece splits at its first `=`: the name holds no `=`, name + `=` + value is the piece, and a piece without `=` names an empty value |
| LinkParams.PairsOf | hooks/useDeepLinking.ts:25 | at most one pair per piece, no name holds `=`, and pieces free of `&` give pairs free of `&` |
| LinkParams.FormPairs | hooks/useDeepLinking.ts:25 | the pairs of any body hold no `&` and no `=` in a name; an empty body has no pairs |
| LinkParams.SearchParams | hooks/useDeepLinking.ts:25 | the constructor's pairs hold no `&` and no `=` in a name; an empty text or a lone `?` gives no pairs |
| LinkParams.FormPairsSerialize | hooks/useDeepLinking.ts:25 | parsing a serialized list without `&` and without `=` in names gives back the list |
| LinkParams.SearchParamsSerialize | hooks/useDeepLinking.ts:25 | a serialized list without `#` survives the constructor's leading-`?` strip and holds no `#` |
| LinkParams.GetFirst | hooks/useDeepLinking.ts:43 | `get` is absent exactly when no pair has the name; otherwise it is the value of the first pair with that name |
| LinkParams.GetLast | hooks/useDeepLinking.ts:25 | absent exactly when no pair has the name; otherwise the value of the last pair with that name |
| LinkParams.FromEntries | hooks/useDeepLinking.ts:25 | `Object.fromEntries` holds exactly the names of the list, each mapped to its last value |
| LinkParams.AfterFirstHash | hooks/useDeepLinking.ts:22-24 | absent exactly when the link has no `#`; otherwise the link is a `#`-free prefix, `#`, and the fragment |
| LinkParams.SecondPiece | hooks/useDeepLinking.ts:43 | `split("#")[1] ?? ""` is empty without `#`; otherwise it is the `#`-free prefix of the fragment, ending at its end or at a second `#` |
| LinkParams.BeforeHash | hooks/useDeepLinking.ts:22-24 | the part of a link before its first `#`: a `#`-free prefix of the link that is either all of it or ends where a `#` begins |
| LinkParams.QueryText | hooks/useDeepLinking.ts:40 | a link has a query exactly when a `?` occurs before its first `#`; the query is what follows the first such `?`, up to that `#`, and holds no `#` |
| LinkParams.QueryType | hooks/useDeepLinking.ts:40-42 | a query type is the value of a `type` pair of the link's query; it is absent exactly when there is no query or no pair of it is named `type` |
| LinkParams.SelectedType | hooks/useDeepLinking.ts:41-43 | the query's type when there is one; otherwise absent exactly when no pair of the text after the first `#` (up to a second one) is named `type`, and when present the value of the first such pair |
| LinkParams.QueryTypeWins | hooks/useDeepLinking.ts:41-43 | a `type` in the query is the selected type whatever the fragment holds |
| LinkParams.FragmentTypeWithoutQuery | hooks/useDeepLinking.ts:43 | without a query, the selected type is the first `type` of the text between the first and the second `#` |
| LinkParams.QueryOnlyLink | hooks/useDeepLinking.ts:22-43 | a link with a query and no fragment has the query's `type` and no fragment |
| LinkParams.FragmentTokens | hooks/useDeepLinking.ts:22-27 | tokens are found exactly when the link has a `#` and the last `access_token` and `refresh_token` of its fragment are both non-empty, and they are those values |
| LinkParams.FragmentLink | hooks/useDeepLinking.ts:22-43 | for a link `base#fragment` whose fragment serializes a list: the fragment is found, the type is the list's first `type`, and the tokens are the list's last non-empty token values |
| LinkParams.FragmentLinkTokens | hooks/useDeepLinking.ts:24-31 | such a link with both tokens non-empty yields exactly those tokens |
| LinkParams.FragmentLinkType | hooks/useDeepLinking.ts:43 | such a link's type is the list's first `type` |
| DeepLinking.Steps | hooks/useDeepLinking.ts:15-47 | the exchange is the first call and the only exchange; `setSession` is second, exists exactly when the exchange failed and tokens were found, and carries those tokens; the navigation exists exactly for recovery, is last, and goes to the update route |
| DeepLinking.LinkEffects | hooks/useDeepLinking.ts:10-47 | a null or empty link has no effects; otherwise as `Steps`, with the tokens read from the link and the navigation exactly when the selected type is `recovery` |
| DeepLinking.Restoration | hooks/useDeepLinking.ts:15-34 | the session comes from the code exactly when the exchange returned a session and no error; it comes from the tokens exactly when the exchange failed, tokens were found and `setSession` succeeded |
| DeepLinking.ReadFragmentTokens | hooks/useDeepLinking.ts:22-27 | the step-by-step fallback reads the same tokens as `FragmentTokens` |
| DeepLinking.HandleUrl | hooks/useDeepLinking.ts:10-48 | `handleUrl` makes exactly the calls of `LinkEffects` and reaches the outcome of `Restoration` |
| DeepLinking.Listener.Activate | hooks/useDeepLinking.ts:50-54 | activation handles the cold-start link once and subscribes |
| DeepLinking.Listener.Receive | hooks/useDeepLinking.ts:53-54 | while subscribed, a foreground link is handled once and its effects are appended; after teardown nothing changes |
| DeepLinking.Listener.Teardown | hooks/useDeepLinking.ts:56 | teardown unsubscribes and keeps what was handled |
| DeepLinking.ColdStartThenForeground | hooks/useDeepLinking.ts:50-56 | the cold-start link and a foreground link are each handled once, in that order, and a link after teardown is not handled |
| DeepLinking.CodeLinkScenario | hooks/useDeepLinking.ts:15-19 | a code link whose exchange succeeds makes only the exchange call and restores the session from the code |
| DeepLinking.RecoveryTokenLink | hooks/useDeepLinking.ts:15-47 | a recovery link with tokens whose exchange fails makes the exchange, installs the tokens, then navigates |
| DeepLinking.TokenLinkScenario | hooks/useDeepLinking.ts:15-47 | the same for every implicit-flow link `base#…` that carries tokens and `type=recovery` |
| DeepLinking.TokenLinkRestoration | hooks/useDeepLinking.ts:27-34 | on such a link the session is restored exactly when `setSession` succeeds |
| DeepLinking.BareRecoveryScenario | hooks/useDeepLinking.ts:39-47 | a recovery link with no code and no tokens restores nothing and still navigates |
| MoodAnalyzer.ScoreExtremes | lib/moodAnalyzer.ts:73-78 | a score is 0 exactly when no keyword occurs, and equals the number of keywords exactly when every keyword occurs |
| MoodAnalyzer.ScoreCountsPresent | lib/moodAnalyzer.ts:73-78 | for a keyword list without repeats, the score is the number of distinct keywords occurring in the text |
| MoodAnalyzer.ScoreDependsOnPresence | lib/moodAnalyzer.ts:74-76 | two texts containing the same keywords score the same, however often each keyword occurs |
| MoodAnalyzer.TableKeywordsDistinct | lib/moodAnalyzer.ts:9-16 | no mood of the table lists a keyword twice |
| MoodAnalyzer.Pick | lib/moodAnalyzer.ts:70-83 | the best has a score no other mood exceeds; every earlier mood scores strictly less; it stays at Neutral with score 0 exactly when every score is 0 |
| MoodAnalyzer.Confidence | lib/moodAnalyzer.ts:91 | `min(score / 3, 1)` lies in (0, 1] for a positive score and is 1 exactly when the score is at least 3 |
| MoodAnalyzer.CountKeywords | lib/moodAnalyzer.ts:73-78 | the inner loop's count is the mood's score |
| MoodAnalyzer.AnalyzeWithKeywords | lib/moodAnalyzer.ts:68-93 | the nested loops return the keyword verdict |
| MoodAnalyzer.KeywordVerdict | lib/moodAnalyzer.ts:85-92 | the verdict's confidence always lies in (0, 1] |
| MoodAnalyzer.AllMoods | lib/moodAnalyzer.ts:111-113 | `getAllMoods` lists the table's names in table order |
| MoodAnalyzer.AllMoodsInOrder | lib/moodAnalyzer.ts:111-113 | those names are Happy, Sad, Angry, Fear, Surprised, Neutral |
| MoodAnalyzer.MoodNamesDistinct | lib/moodAnalyzer.ts:9-16 | the table's names are distinct |
| MoodAnalyzer.VerdictNamesAMood | lib/moodAnalyzer.ts:85-92 | the verdict is always one of the six names |
| MoodAnalyzer.VerdictIsFirstMaximum | lib/moodAnalyzer.ts:72-92 | all scores 0 is the same as the verdict Neutral at 0.5; otherwise the winner has the maximum score, positive, with every earlier mood scoring strictly less, and confidence `min(score / 3, 1)` |
| MoodAnalyzer.MoodScoreCountsMatches | lib/moodAnalyzer.ts:69-78 | each mood's score is the number of its distinct keywords found in the lowercased text |
| MoodAnalyzer.VerdictConfidence | lib/moodAnalyzer.ts:89-92 | the confidence lies in (0, 1] and is 1 exactly when the winning score is at least 3 |
| MoodAnalyzer.CaseInsensitive | lib/moodAnalyzer.ts:69 | texts differing only in ASCII letter case get the same verdict |
| MoodAnalyzer.FindMood | lib/moodAnalyzer.ts:107 | `find` returns the first entry with the name, or none when no entry has it |
| MoodAnalyzer.MoodEmoji | lib/moodAnalyzer.ts:106-109 | `getMoodEmoji` gives the table's emoji for a listed name and the fallback emoji otherwise |
| JournalStore.Store.constructor | store/journalStore.ts:13-15 | the store starts with no entries, not loading and not loaded |
| JournalStore.Store.AddEntry | store/journalStore.ts:36-38 | the new entry goes first and the old entries follow in order; only `entries` changes |
| JournalStore.Store.FetchEntries | store/journalStore.ts:17-34 | `loading` is up during the query; rows replace the entries, null rows empty them, and a failure keeps them; afterwards the store is not loading and is loaded |
| JournalList.FilterOptions | screens/JournalListScreen.tsx:22 | the options are `All` followed by the table's names in order |
| JournalList.FilterOptionsInOrder | screens/JournalListScreen.tsx:22 | the options are All, Happy, Sad, Angry, Fear, Surprised, Neutral |
| JournalList.WithMood | screens/JournalListScreen.tsx:30 | an entry is shown exactly when it is in the list and has the mood, as many times as it occurs there; entries of other moods never |
| JournalList.WithMoodKeepsOrder | screens/JournalListScreen.tsx:30 | the mood filter keeps the store's order |
| JournalList.FilteredEntries | screens/JournalListScreen.tsx:29-30 | `All` shows the entries unchanged; any other mood shows exactly the entries with that mood |
| JournalList.FilteredKeepsOrder | screens/JournalListScreen.tsx:29-30 | every filtered list is an order-preserving subsequence of the entries |
| JournalList.FilterLabel | screens/JournalListScreen.tsx:67 | the label is `All Entries` for `All`, and otherwise the mood's emoji (or the fallback emoji), a space and the mood |
| JournalList.ShouldFetch | screens/JournalListScreen.tsx:25-26 | a fetch is made exactly when there is a user |
| JournalList.ListScreen.constructor | screens/JournalListScreen.tsx:18-20 | the screen starts on `All`, with the modal closed and not refreshing |
| JournalList.ListScreen.OpenFilter | screens/JournalListScreen.tsx:65 | the filter button opens the modal and changes nothing else |
| JournalList.ListScreen.SelectMood | screens/JournalListScreen.tsx:55-58 | selecting a mood sets it and closes the modal |
| JournalList.ListScreen.Refresh | screens/JournalListScreen.tsx:32-39 | with a user, `refreshing` is up during a fetch and down after it; rows replace the entries, null rows empty them, a failure keeps them, and the store is loaded; without one, nothing changes |
| JournalList.OnUserOrLoaded | screens/JournalListScreen.tsx:24-27 | the mount effect fetches exactly when there is a user, whatever `loaded` holds: rows replace the entries, null rows empty them, a failure keeps them; without a user the entries and both flags are unchanged |
| JournalList.MountThenLoaded | screens/JournalListScreen.tsx:24-27 | as written, mounting for a signed-in user with the store not loaded fetches twice, because the first fetch sets `loaded` and re-runs the effect; the store keeps the second fetch's rows |
| JournalList.ShouldFetchOnMount | screens/JournalListScreen.tsx:25-26 | the intended guard fetches only with a user, and only when the store is not loaded yet |
| JournalList.OnUserOrLoadedChecked | screens/JournalListScreen.tsx:24-27 | with that guard, the effect fetches exactly when there is a user and the store was not loaded, with the same effect on the store as a fetch |
| JournalList.MountThenLoadedChecked | screens/JournalListScreen.tsx:24-27 | with that guard, the same mount fetches once, and the store keeps that fetch's rows |
| JournalDetail.ContentOf | screens/JournalDetailScreen.tsx:19 | a missing entry shows empty content; a present one shows its content |
| JournalDetail.SplitOnSpaceRuns | screens/JournalDetailScreen.tsx:20 | the split gives at least one piece, no piece holds whitespace, and whitespace-free content is its own single piece |
| JournalDetail.SplitFirstPiece | screens/JournalDetailScreen.tsx:20 | the first piece is non-empty when the content starts with a non-whitespace character |
| JournalDetail.SplitPiecesNonEmpty | screens/JournalDetailScreen.tsx:20 | only the first and the last piece can be empty |
| JournalDetail.NonEmpty | screens/JournalDetailScreen.tsx:20 | the filter keeps exactly the non-empty pieces, and never more pieces than it was given |
| JournalDetail.WordCount | screens/JournalDetailScreen.tsx:20 | `wordsCount` is the number of maximal non-whitespace runs of the content |
| JournalDetail.WordCountIsRuns | screens/JournalDetailScreen.tsx:20 | the split-and-filter word count is the number of maximal non-whitespace runs |
| JournalDetail.RunsZeroIffBlank | screens/JournalDetailScreen.tsx:20 | there are no runs exactly when the content is all whitespace |
| JournalDetail.BlankHasNoWords | screens/JournalDetailScreen.tsx:20 | the word count is 0 exactly when the content is empty or all whitespace |
| JournalDetail.CharacterCount | screens/JournalDetailScreen.tsx:64 | the characters passed to the statistics are the content's length, never fewer than its words |
| JournalDetail.PaddingKeepsWordCount | screens/JournalDetailScreen.tsx:20 | whitespace added around the content does not change the word count |
| JournalCard.Snippet | components/JournalCard.tsx:23-25 | content up to 100 characters, 100 included, is unchanged; longer content gives its first 100 characters then `...`; the snippet is at most 103 long |
| JournalCard.SnippetKeepsPrefix | components/JournalCard.tsx:24 | the snippet's first min(length, 100) characters are the content's |
| ResetPassword.IsUpdateMode | screens/ResetPasswordScreen.tsx:26-33 | update mode holds exactly when `mode` is `update`; an absent mode is the request mode |
| ResetPassword.RequestEmailPatternMeaning | screens/ResetPasswordScreen.tsx:113 | `/\S+@\S+\.\S+/` matches exactly the strings containing a whitespace-free `a@b.c` with a, b and c non-empty |
| ResetPassword.RequestEmailError | screens/ResetPasswordScreen.tsx:110-115 | the email's message is `Email is required` exactly when it is empty; there is no message exactly when it is non-empty and matches the pattern |
| ResetPassword.UpdateFieldsError | screens/ResetPasswordScreen.tsx:131-150 | the update form passes exactly when both fields are non-empty; an empty new password is reported as `New password is required` |
| ResetPassword.ErrorText | screens/ResetPasswordScreen.tsx:62 | the alert shows the error's message, or `Unexpected error occurred` when that is empty |
| ResetPassword.OnRequestReset | screens/ResetPasswordScreen.tsx:54-64 | `resetPassword(email)` is called first; on success the sent alert is followed by going back; on error the error alert appears and there is no going back; the whole trace is `RequestResetTrace` |
| ResetPassword.OnUpdatePassword | screens/ResetPasswordScreen.tsx:66-86 | the mismatch check runs first, then the length check; `updatePassword(newPassword)` is called exactly when both pass; the journal opens exactly when that call also succeeds; the whole trace is `UpdatePasswordTrace` |
| ResetPassword.Submit | screens/ResetPasswordScreen.tsx:166-169 | fields that fail their rules give no effect at all; fields that pass give exactly the trace of the mode's handler (`RequestResetTrace` or `UpdatePasswordTrace`); the request mode never updates and the update mode never requests |
| AuthForm.LoginEmailPatternMeaning | components/AuthForm.tsx:51 | `/^[^\s@]+@[^\s@]+\.[^\s@]+$/` matches exactly the strings with no whitespace, exactly one `@`, a non-empty local part, and a `.` in the domain with text on both sides |
| AuthForm.EmailError | components/AuthForm.tsx:49-52 | the message is `Email is required` exactly when the email is empty; there is no message exactly when it is well formed |
| AuthForm.PasswordError | components/AuthForm.tsx:59-62 | the message is `Password is required` exactly when the password is empty; there is no message exactly when it has at least 6 characters |
| AuthForm.FailureTitle | components/AuthForm.tsx:26 | the failure title is `Login Failed` exactly for login and `Registration Failed` exactly for register |
| AuthForm.CredentialsText | components/AuthForm.tsx:26 | the failure alert shows the error's message, or `Invalid credentials` when that is empty |
| AuthForm.Call | components/AuthForm.tsx:23 | login calls `signIn` and register calls `signUp`, with the form's email and password |
| AuthForm.SubmitTrace | components/AuthForm.tsx:22-33 | one run of `onSubmit` is the call and then one or two effects: the navigation to `/journal` exactly on success, the success alert exactly on register success, and otherwise one alert that is not the success alert |
| AuthForm.AuthFormState.constructor | components/AuthForm.tsx:14 | the form starts not loading |
| AuthForm.AuthFormState.Submit | components/AuthForm.tsx:20-37 | login calls `signIn` and register calls `signUp`; `loading` is up during the call and down afterwards; an error gives the kind's failure alert and no navigation; a throw gives the generic alert; only success navigates to `/journal`, and only register success alerts success; on success the trace is exactly the call, register's success alert, and the navigation; in every case the trace is `SubmitTrace` for the reply |
| AuthForm.AuthFormState.Press | components/AuthForm.tsx:65-69 | a button does nothing when either field fails its rules; otherwise its trace is exactly one run of `onSubmit` for its kind (`SubmitTrace`), and loading ends down |
| NewEntry.SaveDisabled | screens/NewEntryScreen.tsx:89 | the save button is disabled exactly when the content is all whitespace or `loading` is up |
| NewEntry.GuardMessage | screens/NewEntryScreen.tsx:20-27 | blank content is rejected first, then a missing user; the handler proceeds exactly when the content is not blank and there is a user |
| NewEntry.SaveFailedMessage | screens/NewEntryScreen.tsx:50 | the failure text carries the error's message, or `Unknown error` when that is empty |
| NewEntry.SavedMessage | screens/NewEntryScreen.tsx:56 | the success text names the mood after its table emoji, or after the fallback emoji for a name outside the table |
| NewEntry.UnexpectedMessage | screens/NewEntryScreen.tsx:60 | the text of a thrown `Error` carries its message; anything else thrown gives `Unknown error` |
| NewEntry.ReportAsWritten | screens/NewEntryScreen.tsx:47-60 | as written, every answered insert first hands its data to the store and then alerts failure (error set) or success (no error); a thrown insert alerts the unexpected error |
| NewEntry.ReportChecked | screens/NewEntryScreen.tsx:47-60 | corrected, only a row returned without error reaches the store, before the success alert; an error alerts failure only |
| NewEntry.AsWrittenHandsOverEveryAnswer | screens/NewEntryScreen.tsx:47-58 | as written, the store receives something exactly when the insert answered, and success is reported exactly when there was no error |
| NewEntry.CheckedHandsOverOnlyRows | screens/NewEntryScreen.tsx:47-58 | corrected, the store receives exactly the returned row and only when there is no error; success is still reported exactly when there was no error |
| NewEntry.CorrectionKeepsSuccess | screens/NewEntryScreen.tsx:47-58 | on a successful insert the corrected handler reports the same as the original |
| NewEntry.FailedInsertAddsNull | screens/NewEntryScreen.tsx:47-52 | as written, an insert answering an error and no row hands null to the store; corrected, it does not |
| NewEntry.AnalyzeAndInsert | screens/NewEntryScreen.tsx:33-60 | past the guards: the content is analysed, the row of the user's id, the trimmed content and the analysed mood is inserted, then the report as written |
| NewEntry.AnalyzeAndInsertChecked | screens/NewEntryScreen.tsx:33-60 | the same with the corrected report |
| NewEntry.HandOver | screens/NewEntryScreen.tsx:47 | the corrected `addEntry` prepends the returned row exactly when it was returned without error |
| NewEntry.NewEntryScreen.constructor | screens/NewEntryScreen.tsx:15-17 | the screen starts empty with both flags down |
| NewEntry.NewEntryScreen.Edit | screens/NewEntryScreen.tsx:80 | typing replaces the content and leaves the flags |
| NewEntry.HandOverAsWritten | screens/NewEntryScreen.tsx:47 | `addEntry` as written prepends any row an answered insert returned, whether or not it also reported an error |
| NewEntry.NewEntryScreen.SaveAndAnalyze | screens/NewEntryScreen.tsx:19-65 | a guard failure gives only its error alert and leaves the flags and the store; past the guards, both flags are up during the insert and down afterwards, the calls are the analysis, the insert and the report as written, and the store gains any row the insert answered, error or not |
| NewEntry.NewEntryScreen.SaveAndAnalyzeChecked | screens/NewEntryScreen.tsx:19-65 | the same with the corrected report, and the store gains the returned row exactly when the guards passed and the insert returned it without error |

## Left out

- The internals of the Supabase auth calls and database queries. Each is a parameter holding its answer.
- `exchangeCodeForSession`, `setSession`, `resetPassword`, `updatePassword`, `signIn`, `signUp` and the `journal_entries` insert and select are therefore not modelled beyond their answers.
- The `eq`/`order` of the fetch query: the returned rows are taken as given.
- `lib/supabase.ts` holds client configuration and the `JournalEntry` row type; only the row type is modelled (`JournalStore.JournalEntry`).
- `analyzeMoodWithOpenAI` (lib/moodAnalyzer.ts:19-65) is a network call that `analyzeMood` never makes.
- `analyzeMood`'s one-second delay and its console log (lib/moodAnalyzer.ts:95-104): the model's analysis is the keyword verdict directly.
- Console logging everywhere.
- Concurrency: overlapping `handleUrl` runs, the promise order of the cold-start link against foreground links, and a second press while a save is outstanding.
- The listener handles links one at a time, in the order received.
- DeepLinking.Listener: the effect depends on `[router]` (hooks/useDeepLinking.ts:57). A router whose identity changed would tear the listener down and activate it again, which handles the cold-start link a second time. The model takes the router as stable, so activation happens once.
- `Linking.parse` from expo-linking is not part of this model. The query is taken to be the text after the first `?` that precedes any `#`, split on `&` and `=`.
- A `type` key repeated in the query, which `Linking.parse` would turn into an array, is not modelled; the first occurrence is taken.
- Percent and `+` decoding in `URLSearchParams`: names and values are the raw text.
- Unicode: whitespace is the ASCII set, `toLowerCase` is ASCII only, and lengths count characters rather than UTF-16 code units.
- MoodAnalyzer.Confidence: an exact `real` stands for the floating-point `score / 3`.
- The emoji literals of `MOODS` are stored as mis-decoded UTF-8 text. Five of them decode to a code point, and the model uses that code point.
- Neutral's literal and `getMoodEmoji`'s fallback literal are truncated in the stored text: the byte that would pick the code point is missing. Both are taken to be U+1F610, the neutral face. The model thus keeps only the fact that the two literals are the same text.
- ResetPassword.UpdateFieldsError: react-hook-form keeps its own error for each field, and the screen renders none of them. The model keeps one message for the form, which only decides whether the submit handler runs.
- DeepLinking.HandleUrl: `exchangeCodeForSession` and `setSession` are modelled as calls that answer. There is no try/catch around them (hooks/useDeepLinking.ts:15, 28), so a rejected call would end `handleUrl` before the fallback, the type lookup and the navigation. "The navigation happens whatever the session outcome" therefore holds only for calls that answer.
- Locale date formatting (`formatDate` in components/JournalCard.tsx and screens/JournalDetailScreen.tsx).
- The entry lookup by a loosely compared id (screens/JournalDetailScreen.tsx:18): the detail model starts from the found entry or its absence.
- `handleLogout` and `handlePressEntry` of screens/JournalListScreen.tsx and screens/JournalDetailScreen.tsx, `handleForgotPassword` of components/AuthForm.tsx, and the empty deep-link effect of screens/ResetPasswordScreen.tsx:47-52: navigation only, or no logic.
- Rendering and the presentational components.
- `app/_layout.tsx` only mounts the hook.
- `app/index.tsx` redirects on state held in an authentication context that is not part of this model.
- `isSubmitting` of screens/ResetPasswordScreen.tsx, which react-hook-form maintains.
- NewEntry.NewEntryScreen.SaveAndAnalyze: the screen's `loading` and `analyzing` flags are one field holding both (`Busy`), since they are always set together.
- NewEntry.NewEntryScreen.SaveAndAnalyze: `addEntry(data)` with a null `data` is recorded in the trace as `AddEntry(None)` and does not reach the store, because the store's entries cannot hold null. A returned row does reach the store.
- `router.back()` after the success alert's OK button is not modelled: it depends on the user pressing the button.
- JournalStore.Store.FetchEntries: does not model the intermediate renders between its three `set` calls; only the flag during the query and the final state are stated.

## Findings

| source | as written | input that shows it | evidently intended | confidence | as-written member | corrected member |
|---|---|---|---|---|---|---|
| screens/NewEntryScreen.tsx:47-52 | `addEntry(data)` runs before `error` is checked | an insert that answers `data = null` and an error: the store is handed `null`, then the failure alert appears | add the entry only when the insert returned a row without error | not executed | NewEntry.FailedInsertAddsNull | NewEntry.CheckedHandsOverOnlyRows |
| screens/JournalListScreen.tsx:24-27 | the guard `if (!user && loaded) return;` only concerns the no-user case, where nothing is fetched anyway, and `loaded` is a dependency of the effect | a signed-in user whose store is not loaded: the first fetch sets `loaded`, the effect runs again and fetches a second time, against the comment "fetch only if store empty" | fetch on mount only while the store is not loaded yet | not executed | JournalList.MountThenLoaded | JournalList.MountThenLoadedChecked |

`NewEntry.NewEntryScreen.SaveAndAnalyze` and `NewEntry.ReportAsWritten` model the handler as written. `NewEntry.NewEntryScreen.SaveAndAnalyzeChecked` and `NewEntry.ReportChecked` are the corrected handler.

`JournalList.OnUserOrLoaded` models the mount effect as written. `JournalList.OnUserOrLoadedChecked`, with `JournalList.ShouldFetchOnMount`, is the effect with the intended guard. `JournalList.ShouldFetch` stays the guard of `onRefresh`, where a refresh is meant to fetch again.
