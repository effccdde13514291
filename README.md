# Sadakat memorial site: a Dafny model of its logic

The site remembers deceased persons. It has pages with Quran recitations, radio streams, a prayer-bead
counter and an administration area. This project models the parts of the site that carry logic
rather than presentation. Each source file of that core becomes one Dafny module:

- `Reciters` (`reciters.dfy`): the reciter and read records, and `parseSuras`. `parseSuras` expands a
  read's surah list such as `"1,3-5,9"`. The module keeps the JavaScript `Number` behaviour that the
  parser inherits: an empty token is 0, `"-5"` is the range 0..5, and only the first two parts of
  `"3-5-7"` count.
- `ReciterSurahList` (`reciter_surah_list.dfy`) covers three things:
  - merging the surah lists of a reciter's reads (de-duplicated and sorted);
  - choosing the first read that covers a surah, and building its audio URL;
  - the handlers that move the component's own marker and the shared "currently playing" marker.
- `AudioContext`, `CairoQuranRadio`, `ApiRadioStations` and `MarkerSharing` cover the shared marker.
  It is one nullable string that every audio widget under the provider reads and writes. Each radio
  claims the marker on play, and gives it back on pause or end only while the marker still names it.
  The station list's play handler pauses every other registered player.
- `Persons` and `PersonStorage` cover the built-in list of persons, merged with the records stored in
  the browser, and the lookup by id. They also cover the store's operations:
  - adding a record under an id derived from the name;
  - updating, deleting and checking for a record;
  - the password flag.
- `AuthForm`: the five password checks, and the sign-up guard that refuses a weak password.
- `Tasbih`: the prayer-bead counter.
- `ExtractRoutes`: the build-time extraction of sitemap routes from the router's `<Route path="…">`
  elements.
- `PersonForm`: the add/edit form. It normalises the record it submits and loads the fields from the
  person being edited.
- `AdminPage`: which screen the administration page shows, how the role check sets the admin flag,
  and the person-editing handlers.

`Wrappers`, `Text` and `Collections` hold shared vocabulary. This covers the JavaScript string
primitives the code uses (`trim`, `split`, `Number` on decimal strings, `toString`, `padStart`,
`toLowerCase` on A–Z, U+212A and U+0130). It also covers "keep the first occurrence" de-duplication and subsequences.

Parts of the code that change state step by step are classes with `modifies` clauses. This includes
React component state, the storage entries and the shared marker. Each event handler is one method.
The loops of the source are methods with loop invariants, proved against specification functions:
- the token loop of `parseSuras`;
- the merge loop of `handleSelectReciter`;
- the `regex.exec` loop of route extraction;
- the pause-others loop of the station list.

Anything the code receives from outside is a parameter. This covers what a fetch resolved to,
whether `play()` was rejected, what the role query returned, and the route file's content.

Some behaviours of the code are easy to miss, and the model keeps each of them:
- An empty token counts as 0, because `Number("")` is 0. So `"1,2,"` gives `[1, 2, 0]`; see
  `Reciters.TrailingComma`.
- The radios clear the shared marker only while it names them. The surah list's `pause`/`ended`
  listeners and `handlePauseSurah` clear it unconditionally, even when a radio holds it; see
  `ReciterSurahList.SurahListView.OnTrackPause`.
- The counter's display reads "/ 33", but each phrase lasts 32 presses and a count of 33 is never
  shown; see `Tasbih.RoundIs32Presses`.

## Model

| member | source | states |
|---|---|---|
| Reciters.Interval | src/lib/reciters.ts:63-65 | the range a..b has b−a+1 elements, the k-th being a+k; it is empty when a > b |
| Reciters.PushRange | src/lib/reciters.ts:63-65 | the counting loop appends exactly start, start+1, …, end to the list it was given |
| Reciters.ParseSuras | src/lib/reciters.ts:50-80 | the token loop returns the token-by-token specification; an empty input gives []; every pushed id is ≥ 0 |
| Reciters.PushToken | src/lib/reciters.ts:58-73 | one iteration of the token loop appends exactly the token's contribution |
| Reciters.TokensIdsAppend | src/lib/reciters.ts:55-75 | the contributions of two token lists concatenate, with no sorting and no de-duplication |
| Reciters.ParseConcat | src/lib/reciters.ts:55-75 | the result for "x,y" is the result for x followed by the result for y |
| Reciters.SingleToken | src/lib/reciters.ts:55-58 | a string without commas is parsed as one token |
| Reciters.PaddedToken | src/lib/reciters.ts:59 | white space around a token never changes what it contributes |
| Reciters.RangeToken | src/lib/reciters.ts:60-66 | a token "a-b" contributes exactly a, a+1, …, b when a ≤ b, and nothing when a > b |
| Reciters.RangeFirstTwoParts | src/lib/reciters.ts:61 | only the first two '-'-separated parts are read: "a-b-rest" contributes what "a-b" does |
| Reciters.LeadingHyphen | src/lib/reciters.ts:61-65 | a token "-b" has an empty first part, which reads as 0, so it is the range 0..b |
| Reciters.TokenOfParts | src/lib/reciters.ts:60-62 | a trimmed token with '-' is the range between the numbers read from its first two parts |
| Reciters.MalformedRange | src/lib/reciters.ts:61-62 | a range with a non-numeric side, or with reversed bounds, contributes nothing |
| Reciters.NumberToken | src/lib/reciters.ts:67-71 | a token that is a number contributes exactly that number |
| Reciters.NonNumericToken | src/lib/reciters.ts:67-71 | a token without '-' that is not a number contributes nothing |
| Reciters.EmptyToken | src/lib/reciters.ts:68-70 | an empty token contributes [0] |
| Reciters.TrailingComma | src/lib/reciters.ts:55-75 | "1,2," parses to [1, 2, 0] |
| Reciters.ReversedRangeExample | src/lib/reciters.ts:62 | "5-2" parses to [] |
| Reciters.MixedExample | src/lib/reciters.ts:55-75 | "1,3-5,9" parses to [1, 3, 4, 5, 9] |
| Text.TrimSplits | src/lib/reciters.ts:59 | `trim()` splits its input into leading white space, the result and trailing white space |
| Text.TrimPadded | src/lib/reciters.ts:59 | trimming a trimmed core padded with white space gives back the core |
| Text.SplitJoin | src/lib/reciters.ts:55 | joining the parts of `split(sep)` with `sep` gives back the string |
| Text.SplitAppend | src/lib/reciters.ts:55 | splitting distributes over one occurrence of the separator |
| Text.SplitCount | src/lib/reciters.ts:55-61 | `split` gives at least two parts iff the separator occurs |
| Text.SplitPartsFree | src/lib/reciters.ts:55-61 | no part of `split` holds the separator |
| Text.NumberRoundTrip | src/lib/reciters.ts:61 | `Number` reads back the decimal text of any natural number |
| Text.ToNumber | src/lib/reciters.ts:61-68 | `Number` of a token is a number iff the trimmed token is all decimal digits, and a blank token reads as 0 |
| Text.LeadingZeros | src/components/person-detail/ReciterSurahList.tsx:106 | leading zeros do not change the value of a digit string |
| ReciterSurahList.AppendNew | src/components/person-detail/ReciterSurahList.tsx:57-61 | the inner loop that appends ids not yet collected leaves the first-occurrence de-duplication of everything seen so far |
| ReciterSurahList.MergeSurahIds | src/components/person-detail/ReciterSurahList.tsx:54-65 | the merged list holds exactly the ids some read's list names, each once, in strictly ascending order |
| ReciterSurahList.MergedMembers | src/components/person-detail/ReciterSurahList.tsx:54-65 | the sorted de-duplicated merge is strictly ascending and holds exactly the ids named by some read |
| ReciterSurahList.SortAscending | src/components/person-detail/ReciterSurahList.tsx:65 | numeric sort: the result is ascending and a permutation of the input |
| ReciterSurahList.SortedDistinct | src/components/person-detail/ReciterSurahList.tsx:57-65 | sorting a list without repeats gives a strictly ascending list |
| ReciterSurahList.StrictlyAscendingUnique | src/components/person-detail/ReciterSurahList.tsx:54-65 | two strictly ascending lists with the same elements are equal, so the merge is determined by its elements |
| ReciterSurahList.AllParsedMembers | src/components/person-detail/ReciterSurahList.tsx:55-56 | an id occurs in the parsed stream iff some read's list names it |
| Collections.FlattenMembers | src/components/person-detail/ReciterSurahList.tsx:55-56 | an element is in the concatenation of lists iff some list holds it |
| ReciterSurahList.OverlappingReadsMerge | src/components/person-detail/ReciterSurahList.tsx:54-65 | reads "1-3" and "3-5" merge into [1, 2, 3, 4, 5] |
| ReciterSurahList.TwoRangesMerge | src/components/person-detail/ReciterSurahList.tsx:54-65 | two reads whose lists are ranges a..b and c..d merge into a strictly ascending list holding exactly the union |
| ReciterSurahList.UnionOfRanges | src/components/person-detail/ReciterSurahList.tsx:57-65 | de-duplicating and sorting two concatenated ranges gives a strictly ascending list of exactly their union |
| ReciterSurahList.FirstCoveringSpec | src/components/person-detail/ReciterSurahList.tsx:90-93 | the chosen read covers the surah and no earlier read does; none is chosen iff no read covers it |
| ReciterSurahList.ListedSurahIsFound | src/components/person-detail/ReciterSurahList.tsx:54-98 | every surah the merged list offers is found by the lookup |
| ReciterSurahList.FirstReadWins | src/components/person-detail/ReciterSurahList.tsx:90-93 | with reads "1-5" and "3-10", surah 4 plays from the first read |
| ReciterSurahList.SurahNotCovered | src/components/person-detail/ReciterSurahList.tsx:95-98 | surah 114 is not found among reads covering 1..10 |
| ReciterSurahList.SurahFieldDigits | src/components/person-detail/ReciterSurahList.tsx:106 | the padded surah field has at least three digits and reads back as the surah number |
| ReciterSurahList.AudioUrlParts | src/components/person-detail/ReciterSurahList.tsx:106 | the audio URL is the read's base URL, then the padded field, then ".mp3" |
| ReciterSurahList.AudioUrlInjective | src/components/person-detail/ReciterSurahList.tsx:106 | two surahs of one read never share an audio URL |
| ReciterSurahList.AudioUrlExample | src/components/person-detail/ReciterSurahList.tsx:106 | base "https://x/" and surah 2 give "https://x/002.mp3" |
| ReciterSurahList.PlayFromSingleRead | src/components/person-detail/ReciterSurahList.tsx:90-106 | a single read 1 at "https://x/" covering "1-2" plays surah 2 from read 1 at "https://x/002.mp3" |
| ReciterSurahList.LocalLabelRoundTrip | src/components/person-detail/ReciterSurahList.tsx:111 | the local marker splits back into the read id and the surah number |
| ReciterSurahList.LabelsInjective | src/components/person-detail/ReciterSurahList.tsx:112 | different (read, surah) pairs of integer ids, negative ones included, never share a shared-marker value |
| ReciterSurahList.StartTrack | src/components/person-detail/ReciterSurahList.tsx:107-143 | a fresh element for the URL, with listeners for the read and surah; a rejected `play()` leaves it paused with its listeners removed |
| ReciterSurahList.SurahListView.constructor | src/components/person-detail/ReciterSurahList.tsx:45-73 | nothing is selected, nothing plays, and the page starts loading |
| ReciterSurahList.SurahListView.SelectReciter | src/components/person-detail/ReciterSurahList.tsx:45-73 | the reciter is selected, loading ends and the error is cleared; the reads are what the catalogue answered, and a failed request gives no reads, an empty surah list and no error message; the surah list is always the merge of the reads |
| ReciterSurahList.SurahListView.ShowReads | src/components/person-detail/ReciterSurahList.tsx:51-66 | the reads are stored and the surah list becomes their sorted, de-duplicated merge; nothing else changes |
| ReciterSurahList.SurahListView.BackToReciters | src/components/person-detail/ReciterSurahList.tsx:75-85 | selection, reads and surah list are cleared, an existing element is paused and dropped, and both markers become null |
| ReciterSurahList.SurahListView.PlaySurah | src/components/person-detail/ReciterSurahList.tsx:87-143 | not found: the error is set and nothing else changes; found: the old element is paused and a new one plays the first covering read's URL; a rejected play sets the play error |
| ReciterSurahList.SurahListView.SwitchTrack | src/components/person-detail/ReciterSurahList.tsx:101-143 | the old element is paused; a fresh element for the URL and the (read, surah) pair becomes current; a rejected `play()` leaves it paused, not listening, with the play error set |
| ReciterSurahList.SurahListView.PauseSurah | src/components/person-detail/ReciterSurahList.tsx:151-157 | with an element, it is paused and both markers become null; without one nothing changes |
| ReciterSurahList.SurahListView.OnTrackPlay | src/components/person-detail/ReciterSurahList.tsx:110-113 | while listening, the local marker is "<read>-<surah>" and the shared one "surah-<read>-<surah>" |
| ReciterSurahList.SurahListView.OnTrackPause | src/components/person-detail/ReciterSurahList.tsx:115-118 | while listening, both markers become null, whoever holds the shared one |
| ReciterSurahList.SurahListView.OnTrackEnded | src/components/person-detail/ReciterSurahList.tsx:120-123 | the same transition as pause |
| AudioContext.PlaybackMarker.constructor | src/contexts/AudioContext.tsx:11 | the marker starts as null |
| AudioContext.PlaybackMarker.SetCurrentlyPlayingId | src/contexts/AudioContext.tsx:11-14 | the marker becomes exactly the given value, null included |
| AudioContext.UseAudio | src/contexts/AudioContext.tsx:20-25 | outside a provider the hook throws its message; inside it yields the provider's marker |
| CairoQuranRadio.AfterPause | src/components/person-detail/CairoQuranRadio.tsx:21-25 | after pause the marker is null iff it was null or "cairo"; otherwise it is unchanged |
| CairoQuranRadio.CairoRadioView.constructor | src/components/person-detail/CairoQuranRadio.tsx:8 | the panel starts expanded |
| CairoQuranRadio.CairoRadioView.ToggleCollapse | src/components/person-detail/CairoQuranRadio.tsx:12-14 | the collapsed flag flips |
| CairoQuranRadio.CairoRadioView.HandlePlay | src/components/person-detail/CairoQuranRadio.tsx:16-19 | the marker becomes "cairo", whatever it held |
| CairoQuranRadio.CairoRadioView.HandlePause | src/components/person-detail/CairoQuranRadio.tsx:21-25 | the marker is cleared iff it is "cairo" |
| CairoQuranRadio.CairoRadioView.HandleEnded | src/components/person-detail/CairoQuranRadio.tsx:66-68 | the end event runs the pause transition |
| ApiRadioStations.AfterPause | src/components/person-detail/ApiRadioStations.tsx:51-55 | after pause of station i the marker is null iff it was null or "api-i"; otherwise it is unchanged |
| ApiRadioStations.ApiLabelInjective | src/components/person-detail/ApiRadioStations.tsx:48 | different station indices give different marker values |
| ApiRadioStations.PauseKeepsOtherStation | src/components/person-detail/ApiRadioStations.tsx:51-55 | pausing station i leaves a marker that names station j ≠ i |
| ApiRadioStations.ApiRadioView.constructor | src/components/person-detail/ApiRadioStations.tsx:18-19 | the panel starts collapsed with no registered players |
| ApiRadioStations.ApiRadioView.ToggleCollapse | src/components/person-detail/ApiRadioStations.tsx:57-59 | the collapsed flag flips |
| ApiRadioStations.ApiRadioView.SetRef | src/components/person-detail/ApiRadioStations.tsx:163 | the ref callback stores the element at its list index; other slots are kept and holes stay empty |
| ApiRadioStations.ApiRadioView.HandlePlay | src/components/person-detail/ApiRadioStations.tsx:39-49 | every registered player in another slot is paused, a player only in slot i is untouched, and the marker becomes "api-i" |
| ApiRadioStations.ApiRadioView.HandlePause | src/components/person-detail/ApiRadioStations.tsx:51-55 | the marker is cleared iff it names this station |
| MarkerSharing.OwnerLabelsDistinct | src/contexts/AudioContext.tsx:11 | the values written by the Cairo radio, the station list and the surah list never coincide |
| MarkerSharing.RadioPauseKeepsOtherOwners | src/components/person-detail/CairoQuranRadio.tsx:21-25 | a radio's pause leaves a marker that names any other widget unchanged |
| MarkerSharing.SharedCell | src/contexts/AudioContext.tsx:14 | two widgets under one provider write one cell: the Cairo pause after station 2 starts leaves "api-2" |
| Persons.GetAllPersons | src/data/persons.ts:62-70 | the built-in list comes first, in order, followed by the stored records; missing or unreadable storage gives exactly the built-in list |
| Persons.FirstIndexWithId | src/data/persons.ts:74 | `find` by id: the first position holding the id; none iff no person has it |
| Persons.GetPersonById | src/data/persons.ts:72-75 | a found person has the id and belongs to the merged list; none is found iff no person of the merged list has the id |
| Persons.StaticShadowsStored | src/data/persons.ts:72-75 | a built-in person shadows a stored record with the same id |
| Persons.FindByIdPrefix | src/data/persons.ts:74 | a match found in a list is still the match after more records are appended |
| Persons.FindByIdSuffix | src/data/persons.ts:74 | an id absent from a prefix is looked up in the rest |
| Persons.StoredFoundWhenNotBuiltIn | src/data/persons.ts:72-75 | an id no built-in person has is looked up among the stored records |
| PersonStorage.GetCustomPersons | src/lib/personStorage.ts:9-16 | the stored list, or [] when the entry is missing or unreadable |
| PersonStorage.AllPersonsAreStaticThenCustom | src/data/persons.ts:62-70 | the merged list is the built-in list followed by what the store reads |
| PersonStorage.DashSpaceRuns | src/lib/personStorage.ts:23 | the result holds no white space |
| PersonStorage.KeepSlugChars | src/lib/personStorage.ts:24 | the result holds only letters, digits, '_', Arabic-block characters and '-' |
| PersonStorage.SlugChars | src/lib/personStorage.ts:21-24 | an id holds only permitted characters, no white space and no upper-case ASCII letter |
| PersonStorage.SlugIdempotent | src/lib/personStorage.ts:21-24 | deriving an id from an id gives it back |
| PersonStorage.SlugExample | src/lib/personStorage.ts:21-24 | "A  b" and "a b!" both give the id "a-b" |
| PersonStorage.NonAsciiCapitals | src/lib/personStorage.ts:21-24 | the Kelvin sign gives the id "k" and capital I with dot above gives "i", as `toLowerCase` lowers them to ASCII letters |
| PersonStorage.AddedIsFound | src/lib/personStorage.ts:26-33 | after an add, a lookup by the new id finds a record; it is the new one iff no earlier record had the id |
| PersonStorage.AddCanDuplicateId | src/lib/personStorage.ts:19-33 | adding does not check for an existing id, so two records can share one |
| PersonStorage.Merged | src/lib/personStorage.ts:44 | each field comes from the update when present, else from the record; the id is forced back |
| PersonStorage.WithoutId | src/lib/personStorage.ts:52 | the kept records lack the id and come from the list; the length is unchanged iff no record had the id |
| PersonStorage.WithoutIdKeeps | src/lib/personStorage.ts:52 | every record with another id survives the filter |
| PersonStorage.PersonStore.AddPerson | src/lib/personStorage.ts:19-34 | exactly one record with the fields and the derived id is appended, and it is returned |
| PersonStorage.PersonStore.UpdatePerson | src/lib/personStorage.ts:37-47 | false and no write when no record has the id; otherwise only the first such record is replaced by the merge |
| PersonStorage.PersonStore.DeletePerson | src/lib/personStorage.ts:50-58 | false and no write when none matched; otherwise every record with the id is removed |
| PersonStorage.PersonStore.PersonExists | src/lib/personStorage.ts:61-63 | true iff a readable stored list holds a record with the id |
| PersonStorage.PersonStore.Authenticate | src/lib/personStorage.ts:66-72 | succeeds and sets the flag iff the password is the configured one; otherwise nothing changes |
| PersonStorage.PersonStore.IsAuthenticated | src/lib/personStorage.ts:74-76 | authenticated iff the stored flag is exactly the text "true"; a missing flag or any other text is not |
| PersonStorage.PersonStore.Logout | src/lib/personStorage.ts:78-80 | the flag is removed, so the user is no longer authenticated |
| AuthForm.Test | src/components/admin/AuthForm.tsx:14-17 | a character-class test holds iff some character lies in the class |
| AuthForm.Utf16Length | src/components/admin/AuthForm.tsx:13 | the UTF-16 length lies between the number of characters and twice that |
| AuthForm.ValidatePassword | src/components/admin/AuthForm.tsx:11-19 | length ≥ 8 UTF-16 units; some A–Z; some a–z; some 0–9; some character outside A–Za–z0–9, each as an iff |
| AuthForm.Every | src/components/admin/AuthForm.tsx:23 | `every` holds iff all values hold |
| AuthForm.IsPasswordValid | src/components/admin/AuthForm.tsx:21-24 | valid iff all five checks hold |
| AuthForm.SpecialIsAnyOtherCharacter | src/components/admin/AuthForm.tsx:17 | a space or an Arabic letter satisfies the special check |
| AuthForm.StrongExample | src/components/admin/AuthForm.tsx:11-24 | "Abcdef1!" is valid |
| AuthForm.NoCapitalIsWeak | src/components/admin/AuthForm.tsx:14-24 | without an upper-case letter a password is never valid |
| AuthForm.SignUpForm.HandleSignUp | src/components/admin/AuthForm.tsx:35-73 | a weak password changes nothing; otherwise loading ends false and a successful sign-up clears e-mail and password |
| Tasbih.StepEffect | src/components/person-detail/TasbihCounter.tsx:18-31 | a press adds 1 to the total; the count advances, or restarts at 1 from 32; the phrase changes iff the count restarts, to the next one mod 3 |
| Tasbih.StepInRange | src/components/person-detail/TasbihCounter.tsx:7-31 | the count stays in 1..32 and the phrase index in 0..2 |
| Tasbih.StepsClosedForm | src/components/person-detail/TasbihCounter.tsx:14-31 | after n presses from the start the state is (n mod 32 + 1, n, (n div 32) mod 3) |
| Tasbih.StepsAt | src/components/person-detail/TasbihCounter.tsx:18-31 | after 32q+r presses (r < 32) the count is r+1, the total 32q+r and the phrase q mod 3 |
| Tasbih.RoundIs32Presses | src/components/person-detail/TasbihCounter.tsx:23-27 | each phrase lasts 32 presses although the display reads "/ 33" |
| Tasbih.TasbihCounter.constructor | src/components/person-detail/TasbihCounter.tsx:14-16 | the counter starts at (1, 0, 0), which is in range |
| Tasbih.TasbihCounter.CurrentPhrase | src/components/person-detail/TasbihCounter.tsx:7-10 | the shown phrase is one of the three |
| Tasbih.TasbihCounter.Increment | src/components/person-detail/TasbihCounter.tsx:18-31 | from an in-range state, the new state is one press applied to the old one, and it is in range again |
| Tasbih.TasbihCounter.Reset | src/components/person-detail/TasbihCounter.tsx:33-37 | the state returns to (1, 0, 0), in range, from any state |
| Collections.DedupFirstProperties | extract-routes.js:53 | de-duplication leaves no repeats and the same elements |
| Collections.DedupFirstSubsequence | extract-routes.js:53 | de-duplication keeps the input's order |
| Collections.DedupFirstOrder | extract-routes.js:53 | the kept elements come in the order of their first occurrences |
| Collections.SubsequenceTransitive | extract-routes.js:38-53 | a subsequence of a subsequence is a subsequence |
| ExtractRoutes.QuoteIndex | extract-routes.js:29 | the position of the first double quote, or none when there is none |
| ExtractRoutes.MatchPrefixComplete | extract-routes.js:29 | `<Route`, white space, `path="`, a quote-free non-empty path and a quote match, capturing the path |
| ExtractRoutes.MatchPrefixSound | extract-routes.js:29 | every match has exactly that layout |
| ExtractRoutes.Exec | extract-routes.js:33 | a found match starts at or after `lastIndex`, ends within the content, and has the path pattern's layout there with the reported capture |
| ExtractRoutes.ExecLeftmost | extract-routes.js:33 | no position between `lastIndex` and the found match matches, so the match is the leftmost one |
| ExtractRoutes.ExecNone | extract-routes.js:33 | `exec` finds nothing only when no position from `lastIndex` on matches |
| ExtractRoutes.ExecScans | extract-routes.js:33-35 | each `exec` yields the next path of the left-to-right, non-overlapping scan |
| ExtractRoutes.ScanRoutes | extract-routes.js:29-35 | the `exec` loop collects exactly the paths of the scan |
| ExtractRoutes.FilterRoutesProperties | extract-routes.js:38-50 | a path is kept iff it is not dynamic (when dynamic paths are excluded) and not in the exclusion list; the kept paths are a subsequence |
| ExtractRoutes.FilterRoutesMembers | extract-routes.js:38-50 | a path is in the result iff it is extracted and passes both tests |
| ExtractRoutes.FilterRoutesOrder | extract-routes.js:38-50 | the filter keeps the extracted order |
| ExtractRoutes.RoutesOfProperties | extract-routes.js:38-53 | the result has no repeats, holds exactly the kept paths, and is a subsequence of the extracted paths |
| ExtractRoutes.ExtractRoutes | extract-routes.js:16-65 | a failed read gives []; otherwise the filtered, de-duplicated paths |
| ExtractRoutes.SkipPlain | extract-routes.js:29-35 | text without '<' contributes no path |
| ExtractRoutes.RouteLineCaptures | extract-routes.js:29-35 | one route line contributes exactly its path |
| ExtractRoutes.FourRoutes | src/App.tsx:25-29 | four route elements, with a comment free of '<' before the last, yield their four paths in order |
| ExtractRoutes.AppCaptures | src/App.tsx:25-29 | the router's elements yield "/", "/person/:personId", "/admin", "*" |
| ExtractRoutes.SitemapRoutes | vite.config.ts:9-13 | with the build's options the sitemap receives exactly ["/admin"] |
| PersonForm.FirstChar | src/components/admin/PersonForm.tsx:53 | `charAt(0)` is a prefix of at most one character, empty iff the string is |
| PersonForm.Submitted | src/components/admin/PersonForm.tsx:50-55 | name unchanged; an empty image becomes the placeholder; an empty fallback becomes the name's first character; an empty prayer audio becomes undefined |
| PersonForm.LoadSubmit | src/components/admin/PersonForm.tsx:23-55 | loading a complete record and submitting gives that record back |
| PersonForm.ResubmitUnchanged | src/components/admin/PersonForm.tsx:23-55 | editing a submitted record and submitting it unchanged writes the same values |
| PersonForm.PersonFormState.constructor | src/components/admin/PersonForm.tsx:16-19 | the initial fields agree with what the sync effect loads |
| PersonForm.PersonFormState.SyncFromProp | src/components/admin/PersonForm.tsx:23-35 | the fields are loaded from the prop, a missing prayer audio as ''; without a prop all are cleared |
| PersonForm.PersonFormState.Edit | src/components/admin/PersonForm.tsx:77-142 | typing sets the input fields to the typed values and leaves the edited person alone |
| PersonForm.PersonFormState.Submit | src/components/admin/PersonForm.tsx:48-63 | the normalised record is passed on; in add mode the fields are then cleared, in edit mode kept |
| AdminPage.SelectView | src/pages/AdminPage.tsx:141-196 | loading iff loading or checking the role; sign-in iff settled without a session; access denied iff settled with a session but no admin flag; dashboard iff settled with a session and the admin flag |
| AdminPage.IsAdminAfter | src/pages/AdminPage.tsx:60-71 | the admin flag is set iff an admin row came back, not on no row, a query error or an exception |
| AdminPage.SubmitTarget | src/pages/AdminPage.tsx:186-187 | the form goes to update, for the edited person's id, iff a person is being edited |
| AdminPage.AdminPageState.constructor | src/pages/AdminPage.tsx:15-20 | no session, not admin, loading and checking the role |
| AdminPage.AdminPageState.SessionFetched | src/pages/AdminPage.tsx:25-28 | the session is stored and loading ends |
| AdminPage.AdminPageState.AuthStateChanged | src/pages/AdminPage.tsx:33-35 | the session is replaced and nothing else changes |
| AdminPage.AdminPageState.SessionEffect | src/pages/AdminPage.tsx:40-48 | with a session the role check starts; without one checking ends and the admin flag drops |
| AdminPage.AdminPageState.RoleCheckCompleted | src/pages/AdminPage.tsx:50-72 | the admin flag is set iff the answer is an admin row, and checking ends |
| AdminPage.AdminPageState.PersonsLoaded | src/pages/AdminPage.tsx:74-77 | the list becomes the loaded rows |
| AdminPage.AdminPageState.SetEditingPerson | src/pages/AdminPage.tsx:188-193 | the edited person becomes the given one, or none on cancel |
| AdminPage.AdminPageState.HandleUpdatePerson | src/pages/AdminPage.tsx:104-122 | without an edited person nothing is sent; otherwise the update for its id is sent, and on success the list is reloaded and editing ends |
| AdminPage.AdminPageState.HandleAddPerson | src/pages/AdminPage.tsx:87-102 | the insert is sent; on success the list is reloaded |
| AdminPage.AdminPageState.HandleDeletePerson | src/pages/AdminPage.tsx:124-139 | the delete is sent and the list reloaded, even when the delete reports failure |
| AdminPage.AdminPageState.SubmitForm | src/pages/AdminPage.tsx:185-189 | the submit goes to update when editing and to add otherwise; on success editing ends |
| AdminPage.DashboardNeedsAdminRow | src/pages/AdminPage.tsx:141-196 | the form and list are shown only with a session, settled state, and a last role check that found the admin row |

## Left out

- Network, storage and file I/O are left out. The catalogue fetches, the radio fetch, the Supabase
  calls, `localStorage` and JSON, and `readFileSync` are outside the model. Their results are
  parameters: `fetched`, `reloaded`, `RoleQuery`, `StorageSlot`, the route file's content.
- Text.ToNumber models `Number` only on blank strings and decimal digit strings. Hex, decimals,
  exponents, signs and "Infinity" are read as not-a-number. With them the range loop of `parseSuras`
  could run without end or produce fractions.
- Text.ToNumber reads a digit string as an exact integer, but `Number` returns a double. Above 2^53
  the source rounds: "9007199254740993" reads as 9007199254740992. A range token whose end exceeds
  2^53, such as "9007199254740992-9007199254740993", makes the counting loop of `parseSuras` run
  forever, because `i++` stops growing at 2^53. The model instead returns the exact ids. Reciters.PushRange
  and Reciters.ParseSuras inherit this: they are exact only for ids up to 2^53.
- Reciters.ParseSuras: the `catch` that returns [] is not modelled. Nothing in the modelled
  operations throws.
- ReciterSurahList.SurahListView.PlaySurah: the outer `catch` that sets the set-up error is not
  modelled, because creating the element is not modelled as failing. The `preload` attribute is not
  modelled either.
- Animation and rendering are left out. This covers framer-motion values, the progress ring's
  float arithmetic, toasts and their texts, the scroll button and navigation.
- React scheduling is not modelled. Each handler is one atomic step. Strict-mode double invocation of
  the nested state updater in `increment` is not modelled. Stale closures are not modelled either:
  the radios' pause handlers compare against the marker as last rendered, while the model reads the
  current marker.
- AdminPage.AdminPageState.SessionEffect: the admin flag is not tied to a user id. After a session
  switch and before the effect runs, the previous flag still decides the view. The model keeps that.
- AdminPage.PersonRow: the hosted-store person record keeps only `id` and `name`. Description, dates
  and timestamps never influence the modelled logic.
- The image upload of the person form (`FileReader`) is left out, as is its upload/link toggle.
- PersonForm.FirstChar returns a whole character where `charAt(0)` returns one UTF-16 unit. For a name
  starting outside the Basic Multilingual Plane the source gives half a surrogate pair.
- PersonStorage.GetCustomPersons treats a stored value that parses to something other than a list as
  unreadable. In the source such a value would make later calls throw.
- Text.ToLowerCase lowers A–Z, the Kelvin sign U+212A (to "k") and U+0130 (to "i" and U+0307).
  It keeps every other character unchanged. `toLowerCase` lowers other upper-case letters outside
  ASCII too, but never to an ASCII letter, white space, '-' or the Arabic block. So the id's character
  filter drops them either way, and the derived id is the same.
- ReciterSurahList.SurahListView.SelectReciter: the `catch` that sets the load error is not modelled.
  `getReciterReads` never throws. The merge throws only if the catalogue's reads list holds a `null`
  entry, and then the reads have already been replaced. The model's reads are never null.
- PersonStorage.IsSlugChar: `\w` without the `u` flag is exactly `[A-Za-z0-9_]`, as modelled.
- Presentation-only components, the remaining pages and the routing table are not part of this
  model. The one exception is the routes fragment used by the sitemap example.
