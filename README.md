# English OCR page: audio transport, playback outcome and word lists

This project is a Dafny model of the logic under `my-app/app/english` of a
Next.js page. The page reads printed words from a photo and reads them out
with a remote text-to-speech service. Three parts of it are modelled:

- **Audio helpers** (`common.ts`). `generateAudio` rejects a blank word. It
  sends the word to the speech service. It turns the returned bytes into a
  `data:audio/wav;base64,` URL and plays it. `arrayBufferToBase64` builds a
  "binary string" with one character per byte and passes it to `btoa`. The
  model replaces `btoa` with its own Base64 encoder following section 4 of
  RFC 4648, plus a strict decoder that is proved to be its exact inverse.
  The URL follows the `data` scheme of section 3 of RFC 2397.
  `downloadAudio` picks a file name. `trimText` normalises a string.
- **Playback promises** (`playBase64Audio`, `tryAlternativePlay`). Each is
  a promise that settles at most once. It is modelled twice:
  - as pure step functions over a sequence of browser events;
  - as classes with a `settled` field and one method per event callback.

  The model proves a quirk of the code. On `error`, the outer promise is
  rejected before the fallback starts. A fallback that later plays
  successfully therefore cannot turn the outcome into success.
- **Page logic** (`page.tsx`):
  - OCR text is split into its non-blank lines.
  - "Play all" joins the lines with spaces.
  - "Add to favourites" merges the new words into the stored list, keeping
    only the first occurrence of each word (`indexOf(item) === index`).
  - A picked file that is not an image is refused.

Modules: `Wrappers` (Option, Result), `Lists` (`indexOf`), `Ascii` (trim,
lower-case, split, join, `startsWith`), `Base64`, `DataUri`, `Playback`,
`Common` (the audio helpers), `Favorites` (the dedup merge) and
`EnglishPage` (the page handlers).

Assumptions:

- `toLowerCase` maps only ASCII `A`–`Z`.
- `trim` strips only tab, line feed, vertical tab, form feed, carriage
  return and space.
- The replies of the speech and OCR services, the stored favourites value,
  the picked file, its object URL, `Date.now()`, browser capabilities and
  playback callbacks are all inputs.
- Calls to the outside world (alerts, the speech request, playback, file
  save) are returned as a sequence of effects.
- Time in the fallback is modelled by `Elapsed(ms)` events that drive the
  5000 ms timer.

Three behaviours of the code worth noting:

- `generateAudio` sends the untrimmed `inputWord` to the speech service,
  not the trimmed word.
- The outer playback outcome is decided by the primary path alone. The
  fallback is not authoritative.
- Stored favourites are compared as they are. Only new words are
  lower-cased and trimmed.

## Model

| member | source | states |
|---|---|---|
| `Lists.IndexOf` | my-app/app/english/page.tsx:103-104 | `indexOf`: -1 exactly when the element is absent; otherwise an index holding it with no earlier occurrence |
| `Ascii.TrimStart` | my-app/app/english/common.ts:7 | the result is a suffix of the input; only white space was removed, and it starts with a non-space |
| `Ascii.TrimEnd` | my-app/app/english/common.ts:7 | the result is a prefix of the input; only white space was removed, and it ends with a non-space |
| `Ascii.Trim` | my-app/app/english/common.ts:7 | `trim()` is a contiguous slice of the input, with only white space cut off before and after it, and it has no white space at either end |
| `Ascii.TrimSlice` | my-app/app/english/common.ts:7 | cutting white space from the front and then from the back leaves one contiguous slice of the input with only white space on either side of it |
| `Ascii.TrimEmptyIffBlank` | my-app/app/english/common.ts:7-8 | `trim()` is empty exactly when every character is white space |
| `Ascii.TrimOfTrimmed` | my-app/app/english/common.ts:144 | a string with no white space at its ends is its own trim |
| `Ascii.LowerChar` | my-app/app/english/common.ts:144 | a capital becomes the lower-case letter 32 code points above it; every other character is unchanged |
| `Ascii.ToLower` | my-app/app/english/page.tsx:101 | `toLowerCase` keeps the length and lowers each character in place |
| `Ascii.RemoveAll` | my-app/app/english/common.ts:144 | `replace(/c/g, '')`: the result has no `c` and keeps every other character; its length is the input's minus the number of `c`s, and it is unchanged when there is no `c` |
| `Ascii.RemoveAllAppend` | my-app/app/english/common.ts:144 | removal works piece by piece over a concatenation, so the kept characters stay in their order |
| `Ascii.RemoveAllOne` | my-app/app/english/common.ts:144 | a one-character string is dropped when it is `c` and kept otherwise (with `RemoveAllAppend`, this fixes the result) |
| `Ascii.Split` | my-app/app/english/page.tsx:53 | `split('\n')` yields at least one piece, and no piece holds the separator |
| `Ascii.JoinSplit` | my-app/app/english/page.tsx:53 | joining the pieces of a split with the separator restores the text: splitting loses nothing |
| `Ascii.SplitJoin` | my-app/app/english/page.tsx:116 | splitting a join of separator-free pieces gives the pieces back |
| `Ascii.JoinBlank` | my-app/app/english/page.tsx:116-117 | a space-join is blank exactly when every piece is blank |
| `Base64.CharOf` | my-app/app/english/common.ts:63 | each 6-bit value maps to a non-pad character that decodes back to that value |
| `Base64.CharOfValueOf` | my-app/app/english/common.ts:63 | an alphabet character is the character of its own value |
| `Base64.CharOfIsAlphabet` | my-app/app/english/common.ts:63 | the character of value v is entry v of the 64-character alphabet of RFC 4648 section 4 |
| `Base64.AlphabetMembership` | my-app/app/english/common.ts:63 | the decoder accepts exactly the characters of that alphabet |
| `Base64.BytesFromSextets` | my-app/app/english/common.ts:63 | regrouping three bytes into four sextets and back is lossless |
| `Base64.SextetsFromBytes` | my-app/app/english/common.ts:63 | regrouping four sextets into three bytes and back is lossless |
| `Base64.PadBitsZero` | my-app/app/english/common.ts:63 | the encoder leaves the pad bits of a final partial quantum at zero |
| `Base64.EncodeQuantum` | my-app/app/english/common.ts:63 | a full 3-byte quantum becomes four characters |
| `Base64.EncodeFinal1` | my-app/app/english/common.ts:63 | a final 1-byte quantum becomes four characters (two followed by `==`) |
| `Base64.EncodeFinal2` | my-app/app/english/common.ts:63 | a final 2-byte quantum becomes four characters (three followed by `=`) |
| `Base64.Encode` | my-app/app/english/common.ts:63 | the encoding of n bytes is 4 * ceil(n / 3) characters long |
| `Base64.EncodeAlphabet` | my-app/app/english/common.ts:63 | every character is in the alphabet except the final (3 - n mod 3) mod 3 characters, which are `=` |
| `Base64.DecodeEncodeQuantum` | my-app/app/english/common.ts:63 | a full quantum decodes back to its three bytes |
| `Base64.DecodeEncodeFinal1` | my-app/app/english/common.ts:63 | a `==`-padded quantum decodes back to its one byte |
| `Base64.DecodeEncodeFinal2` | my-app/app/english/common.ts:63 | a `=`-padded quantum decodes back to its two bytes |
| `Base64.DecodeQuantum` | my-app/app/english/common.ts:63 | a decoded full quantum is three bytes |
| `Base64.EncodeCons` | my-app/app/english/common.ts:63 | a leading full quantum is encoded on its own, ahead of the rest |
| `Base64.DecodeCons` | my-app/app/english/common.ts:63 | a string longer than one quantum is accepted exactly when its first quantum and the rest are, and it decodes to their concatenation |
| `Base64.EncodePrefixQuantum` | my-app/app/english/common.ts:63 | three bytes followed by more are encoded as their quantum followed by the encoding of the rest |
| `Base64.EncodeDecodeStep` | my-app/app/english/common.ts:63 | an accepted quantum followed by the encoding of some bytes is the encoding of its bytes followed by those bytes |
| `Base64.EncodeDecodeLast` | my-app/app/english/common.ts:63 | a single accepted quantum is the encoding of what it decodes to |
| `Base64.EncodeVectorF` | my-app/app/english/common.ts:63 | test vector of RFC 4648 section 10: "f" encodes as "Zg==" |
| `Base64.EncodeVectorFo` | my-app/app/english/common.ts:63 | test vector: "fo" encodes as "Zm8=" |
| `Base64.QuantumFoo` | my-app/app/english/common.ts:63 | the quantum "foo" encodes as "Zm9v" |
| `Base64.QuantumBar` | my-app/app/english/common.ts:63 | the quantum "bar" encodes as "YmFy" |
| `Base64.EncodeVectorFoo` | my-app/app/english/common.ts:63 | test vector: "foo" encodes as "Zm9v" |
| `Base64.EncodeVectorFoobar` | my-app/app/english/common.ts:63 | test vector: "foobar" encodes as "Zm9vYmFy" |
| `Base64.DecodeConcat` | my-app/app/english/common.ts:63 | a string longer than one quantum decodes quantum by quantum |
| `Base64.DecodeEncode` | my-app/app/english/common.ts:63 | round trip: decoding the encoding of any bytes gives those bytes |
| `Base64.EncodeDecode` | my-app/app/english/common.ts:63 | whatever the strict decoder accepts is the encoding of what it returns |
| `Base64.DecodeIffEncode` | my-app/app/english/common.ts:63 | a string decodes to some bytes exactly when it is the encoding of those bytes |
| `DataUri.ParseAudioSource` | my-app/app/english/common.ts:45 | `data:audio/wav;base64,` + payload parses as an RFC 2397 data URL with media type `audio/wav`, the base64 flag and the payload as data |
| `DataUri.AudioSourceRoundTrip` | my-app/app/english/common.ts:43-45 | a player decoding the audio URL recovers exactly the synthesized bytes |
| `Playback.Settle` | my-app/app/english/common.ts:88-102 | the first resolve or reject wins; a later one leaves a settled promise unchanged |
| `Playback.FallbackSettlesOnce` | my-app/app/english/common.ts:120-134 | once the fallback promise has settled, no later event changes it |
| `Playback.FallbackRunTimer` | my-app/app/english/common.ts:132-134 | the timer fires exactly when the elapsed time reaches 5000 ms, and a fired timer has settled the promise |
| `Playback.FallbackSettlesByTimeout` | my-app/app/english/common.ts:132-134 | bounded wait: after 5000 ms in total, the fallback has settled, whatever the other events were |
| `Playback.FallbackRunOutcome` | my-app/app/english/common.ts:120-134 | from any pending, listening state, the fallback's outcome is the first signal among the events that follow |
| `Playback.FallbackOutcomeIsFirstSignal` | my-app/app/english/common.ts:120-134 | the fallback is decided by the first of: the `play()` issued after `canplaythrough` resolving (resolve) or rejecting (reject), `error` (reject), or 5000 ms elapsed (reject); later signals are ignored |
| `Playback.FirstSignalWithoutReadiness` | my-app/app/english/common.ts:132-134 | without `canplaythrough` and `error`, the first signal is the timeout, exactly once the total elapsed time reaches 5000 ms |
| `Playback.FallbackWaitsForTimer` | my-app/app/english/common.ts:132-134 | for any events without `canplaythrough` and `error`, the fallback is pending before 5000 ms in total and rejected with a timeout from 5000 ms on |
| `Playback.FallbackResolvesOnlyWhenPlaying` | my-app/app/english/common.ts:120-125 | the fallback succeeds only if a `canplaythrough` arrived and a resolved `play()` came after it, at a later position in the callbacks |
| `Playback.FallbackUnavailable` | my-app/app/english/common.ts:110-117 | with no browser, or no AudioContext (the constructor throws), the fallback rejects at once and no event changes that |
| `Playback.PrimarySettlesOnce` | my-app/app/english/common.ts:86-103 | once the outer promise has settled, no later event changes it |
| `Playback.PrimaryOutcomeIsFirstSignal` | my-app/app/english/common.ts:86-103 | the outer outcome is set by the first `ended` (resolve), `error` or rejected `play()` (reject); fallback callbacks never decide it |
| `Playback.PrimaryNotInBrowser` | my-app/app/english/common.ts:69-72 | outside a browser the outer promise is rejected at once |
| `Playback.PrimaryRunFallback` | my-app/app/english/common.ts:91-97 | a fallback exists exactly when one existed already or an `error` has arrived, and it plays the same source. An existing fallback sees every fallback callback. A fallback created by an `error` starts fresh and sees the fallback callbacks that follow the first `error` |
| `Playback.PrimaryStartsFallbackOnError` | my-app/app/english/common.ts:91-97 | the fallback is started exactly when an `error` arrives, on the same source, and it is the fallback run on the fallback callbacks that follow the first `error` |
| `Playback.FallbackSuccessIsIgnored` | my-app/app/english/common.ts:93-96 | after `error`, the fallback can resolve while the outer promise stays rejected |
| `Playback.FallbackPlayback.constructor` | my-app/app/english/common.ts:108-118 | `tryAlternativePlay` starts listening in a browser with an AudioContext, and rejects otherwise |
| `Playback.FallbackPlayback.OnCanPlayThrough` | my-app/app/english/common.ts:120-121 | `canplaythrough` issues `play()` |
| `Playback.FallbackPlayback.OnPlayResolved` | my-app/app/english/common.ts:121-123 | a resolved `play()` resolves the promise unless it has already settled |
| `Playback.FallbackPlayback.OnPlayRejected` | my-app/app/english/common.ts:124 | a rejected `play()` rejects the promise unless it has already settled |
| `Playback.FallbackPlayback.OnError` | my-app/app/english/common.ts:127-129 | `error` rejects the promise unless it has already settled |
| `Playback.FallbackPlayback.OnTimePassed` | my-app/app/english/common.ts:132-134 | the 5000 ms timer fires once and rejects the promise unless it has already settled |
| `Playback.FallbackPlayback.Handle` | my-app/app/english/common.ts:120-134 | dispatching a callback moves the object's state exactly as the fallback step function does |
| `Playback.PrimaryPlayback.constructor` | my-app/app/english/common.ts:67-76 | `playBase64Audio` starts listening in a browser and rejects at once otherwise |
| `Playback.PrimaryPlayback.OnEnded` | my-app/app/english/common.ts:86-89 | `ended` resolves the promise unless it has already settled |
| `Playback.PrimaryPlayback.OnPlayRejected` | my-app/app/english/common.ts:100-103 | a rejected `play()` rejects the promise unless it has already settled |
| `Playback.PrimaryPlayback.OnError` | my-app/app/english/common.ts:91-97 | `error` rejects first, then creates a fresh fallback on the same source |
| `Playback.PrimaryPlayback.OnFallback` | my-app/app/english/common.ts:96 | the fallback's outcome is passed on to the outer promise, which ignores it once settled |
| `Common.BinaryString` | my-app/app/english/common.ts:57-62 | the binary string has one character per byte, and the code of character i is byte i |
| `Common.Btoa` | my-app/app/english/common.ts:63 | `btoa` succeeds exactly when every code is at most 255, and its output decodes to those codes |
| `Common.BtoaOfBinaryString` | my-app/app/english/common.ts:57-63 | `btoa` never throws on the binary string of a buffer, and encodes exactly the buffer |
| `Common.ToBase64` | my-app/app/english/common.ts:54-64 | outside a browser the result is `""`; in a browser it has the Base64 length 4 * ceil(n / 3) |
| `Common.ToBase64Decodes` | my-app/app/english/common.ts:54-64 | in a browser the result decodes back to the buffer's bytes |
| `Common.ArrayBufferToBase64` | my-app/app/english/common.ts:54-64 | the byte-to-char loop followed by `btoa` computes the Base64 text of the buffer, or `""` outside a browser |
| `Common.AudioSourceOfDecodes` | my-app/app/english/common.ts:43-45 | the played data URL decodes to exactly the reply's bytes |
| `Common.BlankWordDoesNothing` | my-app/app/english/common.ts:7-13 | a blank word only alerts (in a browser), and is never synthesized or played |
| `Common.SynthesizesUntrimmedWord` | my-app/app/english/common.ts:7-22 | a non-blank word is sent to the speech service untrimmed |
| `Common.SynthesisFailure` | my-app/app/english/common.ts:21-28 | a failed speech request makes one request and one alert in a browser, plays nothing, and is caught |
| `Common.NoBrowserNoPlayback` | my-app/app/english/common.ts:39 | outside a browser the reply is neither played nor alerted |
| `Common.AwaitsPlayback` | my-app/app/english/common.ts:22-28 | in a browser the data URL is played and the call follows the playback promise: resolved ends quietly, rejected alerts, unsettled never completes |
| `Common.PlaysReply` | my-app/app/english/common.ts:43-46 | the second effect plays the data URL of the reply |
| `Common.PlaybackOutcome` | my-app/app/english/common.ts:22-28 | `generateAudio` ends as the first primary playback signal decides |
| `Common.DownloadName` | my-app/app/english/common.ts:159 | the file name is the override when it is non-empty; otherwise it is the word followed by `.wav` (an empty override also falls back) |
| `Common.DownloadAudio` | my-app/app/english/common.ts:148-168 | one speech request, made without an input check; the call throws exactly when the speech service fails; in a browser the reply's data URL is saved under `DownloadName`, and otherwise nothing is saved |
| `Common.DownloadMatchesPlayback` | my-app/app/english/common.ts:154 | the downloaded href is the same data URL that playback uses, and it is saved under `DownloadName` |
| `Common.TrimChars` | my-app/app/english/common.ts:144 | every character of a trim comes from the trimmed string |
| `Common.ToLowerChars` | my-app/app/english/common.ts:144 | lower-casing neither adds nor removes a non-letter |
| `Common.TrimTextNormalizes` | my-app/app/english/common.ts:143-145 | `trimText` output has no `.` or `,`, no white space at its ends, and no upper-case letter |
| `Common.TrimTextOfNormalized` | my-app/app/english/common.ts:143-145 | a normalized string is its own `trimText` |
| `Common.TrimTextIdempotent` | my-app/app/english/common.ts:143-145 | applying `trimText` twice gives the same result as once |
| `Favorites.FirstOccurrences` | my-app/app/english/page.tsx:103-105 | the filtered prefix has the same elements as the original prefix, no duplicates, and keeps first-occurrence order |
| `Favorites.DedupSpec` | my-app/app/english/page.tsx:103-105 | the dedup has no duplicates, holds exactly the input's elements, and keeps them in first-occurrence order |
| `Favorites.DedupOfDistinct` | my-app/app/english/page.tsx:103-105 | a list with no duplicates is left unchanged |
| `Favorites.FirstOccurrencesGrow` | my-app/app/english/page.tsx:103-105 | the filter of a shorter prefix is a prefix of the filter of a longer one |
| `Favorites.FirstOccurrencesStep` | my-app/app/english/page.tsx:103-105 | the n-th element is kept exactly when `indexOf` finds it at its own index |
| `Favorites.MergeSpec` | my-app/app/english/page.tsx:102-105 | the merge loses nothing, invents nothing and has no duplicates; a duplicate-free stored list is its prefix |
| `Favorites.MergeOne` | my-app/app/english/page.tsx:102-105 | one word is appended when it is new, and ignored when it is already stored |
| `Favorites.MergeExample` | my-app/app/english/page.tsx:102-105 | `["cat","dog"]` merged with `["dog","bird"]` is `["cat","dog","bird"]` |
| `EnglishPage.NonBlank` | my-app/app/english/page.tsx:54 | filtering never lengthens the list |
| `EnglishPage.NonBlankMembers` | my-app/app/english/page.tsx:54 | the filter keeps exactly the non-blank pieces |
| `EnglishPage.NonBlankOfLines` | my-app/app/english/page.tsx:54 | a list of non-blank pieces is kept whole |
| `EnglishPage.NonBlankAppend` | my-app/app/english/page.tsx:54 | the filter distributes over concatenation, so it keeps the order of what it keeps |
| `EnglishPage.LinesSpec` | my-app/app/english/page.tsx:52-54 | the lines are exactly the `\n`-separated pieces with a non-empty trim, each untrimmed and without `\n` |
| `EnglishPage.LinesOfJoin` | my-app/app/english/page.tsx:52-54 | the lines of a `\n`-joined text are its non-blank parts, in order |
| `EnglishPage.MakeItems` | my-app/app/english/page.tsx:55-58 | one item per line, in order, each holding its untrimmed line as `content` and its index in its id |
| `EnglishPage.ItemIdsDistinct` | my-app/app/english/page.tsx:56 | the items built in one call have pairwise distinct ids |
| `EnglishPage.Contents` | my-app/app/english/page.tsx:116 | the contents of the items, in order |
| `EnglishPage.PlayAllSpec` | my-app/app/english/page.tsx:115-122 | a request is made exactly when some content is non-blank; it is then the lower-cased space-join of all contents, which is itself non-blank |
| `EnglishPage.PlayAllReachesSpeech` | my-app/app/english/page.tsx:118 | a "play all" request always passes `generateAudio`'s input check and reaches the speech service |
| `EnglishPage.NewWord` | my-app/app/english/page.tsx:101 | a new word has no white space at its ends |
| `EnglishPage.NewWords` | my-app/app/english/page.tsx:101 | one lower-cased, trimmed word per text, in order |
| `EnglishPage.AsWrittenNeverSaves` | my-app/app/english/page.tsx:107-108 | as written, the handler throws before writing or alerting whenever there are texts; the corrected handler writes whenever the stored value can be spread |
| `EnglishPage.AddToFavoritesSpec` | my-app/app/english/page.tsx:83-108 | with texts present, the written list is the dedup merge (no duplicates, nothing lost, stored prefix kept), and the alert counts the texts |
| `EnglishPage.NoTextsNoWrite` | my-app/app/english/page.tsx:84-87 | with no texts nothing is written and "nothing to favourite" is alerted |
| `EnglishPage.UnreadableStoredIsEmpty` | my-app/app/english/page.tsx:91-98 | a missing or unparsable stored value acts as an empty list |
| `EnglishPage.NewWordIsLower` | my-app/app/english/page.tsx:101 | a new word never contains an upper-case letter |
| `EnglishPage.UpperWordNeverMatched` | my-app/app/english/page.tsx:101-104 | a word containing an upper-case letter never equals a new word |
| `EnglishPage.StoredWordsComparedAsIs` | my-app/app/english/page.tsx:101-104 | stored `"Cat"` and a new `" Cat "` both end up in the list, as `"Cat"` and `"cat"` |
| `EnglishPage.AlertCountsNewWords` | my-app/app/english/page.tsx:108 | the alert counts new words, including ones already stored |
| `EnglishPage.OcrPage.constructor` | my-app/app/english/page.tsx:13-15 | the page starts with no preview, no texts and not processing |
| `EnglishPage.OcrPage.HandleImageToText` | my-app/app/english/page.tsx:40-70 | recognised text replaces the items; no text clears them with an alert; a failure keeps them and alerts; processing is off afterwards |
| `EnglishPage.OcrPage.HandleImageSelect` | my-app/app/english/page.tsx:22-38 | no file changes nothing; a non-image is refused with an alert before any preview or OCR, and processing is not started; an image is previewed and recognised, as `HandleImageToText` states |
| `EnglishPage.OcrPage.PlayAllTexts` | my-app/app/english/page.tsx:115-122 | returns the "play all" request, or alerts "nothing to play" when it is blank |
| `EnglishPage.OcrPage.OnAddToFavorites` | my-app/app/english/page.tsx:83-108 | stores the merged list with the intended write, and appends the handler's alerts |

## Left out

- The remote `tts` and `imageToText` calls are not part of this model. Their replies are inputs (`./huggingface` is not shown).
- `FileReader`/`blobToDataUrl`, `URL.createObjectURL` and the `<a>` element used for the download are left out. They are browser I/O: their results are inputs, and the click is a `Save` effect.
- Real `Audio`/`AudioContext` decoding is left out. Only the order of callbacks is modelled.
- `setTimeout` is modelled by `Elapsed` events, not by wall-clock time.
- `console.log`/`console.error` are left out. `alert` is modelled only as a notice, appended to the effect list in `Common` or to the page's `alerts` in `EnglishPage`.
- `checkAudioSupport` is left out. It is a conjunction of two browser capability probes.
- The React rendering, JSX, styles, `chooseImage`, `goBack` and both layout files are left out. They hold no logic.
- `handleCreateAudio` is not modelled separately. It only calls `generateAudio`, which is `Common.GenerateAudio`.
- OcrPage.HandleImageToText: the `!file` guard of `handleImageToText` (page.tsx:41-44, alert then return) is not modelled. Its only caller, `handleImageSelect`, has already returned when there is no file, so the guard is never reached.
- `Date.now()` in item ids is an opaque `now` stamp passed in. An id is modelled as its (index, stamp) pair, not as the formatted string.
- MakeItems: one stamp is used for the whole call, while the code reads `Date.now()` again for each item inside `map`. The ids stay distinct through their index either way.
- `JSON.parse`/`JSON.stringify` are left out. The stored value is one of: missing, unparsable, a list of strings, or a non-iterable JSON value.
- Overlapping playbacks and the non-atomic read-merge-write of favourites are left out (concurrency).
- Unicode case mapping and Unicode white space are left out. Only ASCII is handled.
- Playback.PrimaryStep: a second `error` on the primary element does not start a second fallback. The code would add a second fallback, but the outer promise is already rejected, so its outcome does not change.
- Playback.FallbackStep: a second `canplaythrough` does not issue a second `play()`. It just marks play as requested, and the outcome is the same.

## Findings

| source | as written | input that shows it | evidently intended | confidence | as-written member | corrected member |
|---|---|---|---|---|---|---|
| my-app/app/english/page.tsx:107 | `localStorage.setStorageSync(...)` is not a Web Storage method, so the call throws a TypeError: nothing is saved and the success alert is never shown | any click on "add to favourites" with at least one text on the page | `localStorage.setItem(storageKey, JSON.stringify(merged))` stores the merged list, then the success alert is shown | high, not executed | `EnglishPage.AsWrittenNeverSaves` | `EnglishPage.AddToFavoritesSpec` |
