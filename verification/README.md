# Playlist Duration Pro: a Dafny model of the duration calculator

The front end takes a YouTube playlist URL and does four things:

1. It pulls the playlist id out of the URL with a regular expression.
2. Through a small proxy it fetches the playlist's items, then the details of those videos.
3. It joins each item with the detail at the same index, and parses the detail's ISO 8601 duration (`PT1H2M10S`).
4. It sums the durations field by field, normalizes the sum once, and shows the total line and a table of videos.

This project models that core as pure Dafny functions and proves what each step computes.

| module | file | models |
|---|---|---|
| `Wrappers` | `wrappers.dfy` | `Option`, standing for JavaScript's `null` or for a thrown error |
| `Text` | `text.dfy` | character classes, maximal runs (`\d+`, `[a-zA-Z0-9_-]+`), `parseInt` on digits, decimal printing |
| `PlaylistIds` | `playlist_id.dfy` | `getPlaylistId`: leftmost-longest search for `[&?]list=` plus an 18–34 character capture |
| `IsoDuration` | `iso_duration.dfy` | `parseDuration`: `/PT(\d+H)?(\d+M)?(\d+S)?/`, with greedy optional groups |
| `Durations` | `duration.dfy` | the `{hours, minutes, seconds}` triple, `calculateTotalDuration`, `normalizeTime` |
| `Display` | `display.dfy` | `formatDuration` and the `Total Duration: …` line |
| `Pipeline` | `pipeline.dfy` | `combinePlaylistAndVideoData`, the `videoId` projection, `fetchPlaylistData` |
| `Proxy` | `proxy.dfy` | the 50-id cap of the video-details route |
| `Examples` | `examples.dfy` | concrete inputs and outputs |

The two network calls are parameters of `Pipeline.FetchPlaylistData`. Each is a function from its request to the parsed response. It returns `None` when the code would throw before the rows are built: a non-ok response, a transport failure, a body that is not JSON, or one without the `items` the code reads. The DOM writes become the `Outcome` value: an error message, or the summed total and the table rows.

Behaviours of the code worth knowing, each proved:

- A run of more than 34 id characters after `list=` is not rejected. The unanchored search matches its first 34 characters (`PlaylistIds.LongRunIsTruncated`).
- `parseDuration` is partial. A text without `PT` makes `matches[1]` throw, so the whole fetch shows the generic error (`IsoDuration.ParseDuration`, `Pipeline.Combine`).
- A missing or unparsable detail makes the whole run fail; no row is built for it (`Pipeline.Combine`).
- The sum is normalized once, at display time. Carrying after every step would give the same displayed total (`Durations.NormalizeOnceEqualsEachStep`).

## Model

| member | source | states |
|---|---|---|
| PlaylistIds.FirstMatch | index.js:41-42 | the search from a position reports no match exactly when no capture exists there or later; otherwise it reports the leftmost start and, there, the longest capture of 18 to 34 characters |
| PlaylistIds.CaptureAtIff | index.js:41 | the pattern matches at a position with a capture of length k exactly when `&list=`/`?list=` is there, 18 <= k <= 34, and k identifier characters follow |
| PlaylistIds.GetPlaylistId | index.js:40-44 | null exactly when the pattern matches nowhere in the URL; otherwise the capture of the leftmost, longest match |
| PlaylistIds.PlaylistIdShape | index.js:40-44 | a returned id has 18 to 34 characters from `[a-zA-Z0-9_-]` and stands in the URL right after a `list=` key |
| PlaylistIds.LeftmostGreedyUnique | index.js:41-42 | the match the engine reports is unique |
| PlaylistIds.LongRunIsTruncated | index.js:41-43 | after the first key, a run of 34 or more id characters yields its first 34 characters, not null |
| PlaylistIds.ShortRunIsSkipped | index.js:41 | a key followed by fewer than 18 id characters yields no match at that key |
| Text.NatToString | index.js:97 | the printed number is a non-empty string of digits with no leading zero, and it is "0" exactly for 0 |
| Text.DigitsValueOfNatToString | index.js:76-78 | `parseInt` of the printed number gives the number back |
| Text.ReadNat | index.js:75-78 | the greedy `\d+` read fails exactly when no digit is at the position; otherwise it consumes a maximal run of digits and returns their decimal value, as `parseInt` does |
| IsoDuration.FindDesignator | index.js:75 | the unanchored search finds the first `PT`, or none exactly when there is no `PT` at or after the start |
| IsoDuration.ParseDuration | index.js:74-80 | the parse fails (the TypeError) exactly when the text contains no `PT` |
| IsoDuration.ParseIsoText | index.js:74-80 | a duration written as `PT[<h>H][<m>M][<s>S]` after a prefix without `PT` parses back to itself; absent components read as 0 |
| IsoDuration.Component | index.js:75-78 | an optional group `(\d+X)?` either stays empty, reading as 0 as the fallback after `parseInt(undefined)` does, or moves forward within the text |
| IsoDuration.ComponentMatchesGroup | index.js:75-78 | the group is empty exactly when `\d+X` cannot match at the position; otherwise it spans the digits and the designator, and its value is that of the digits |
| IsoDuration.ReadParts | index.js:75-79 | the three groups, read in turn after `PT`, give back every duration written as `[<h>H][<m>M][<s>S]` |
| IsoDuration.ComponentOnPart | index.js:75-78 | a group `(\d+X)?` facing `<n><c>` captures n when c is X, and otherwise stays empty and reads as 0 |
| Examples.ParseOutOfOrder | index.js:75-78 | `PT5S3M` parses as 5 seconds: groups match only in the order H, M, S |
| Durations.Add | index.js:84-89 | one `reduce` step adds the lengths of time the two triples stand for |
| Durations.FieldTotalAppend | index.js:83-91 | the reference field total of a list with one more element grows by that element's field |
| Durations.Sum | index.js:82-92 | each field of the total is the plain, carry-free sum of that field over the videos, and the total stands for the summed length |
| Durations.Normalize | index.js:102-108 | the result has minutes and seconds below 60 and stands for the same length of time |
| Durations.NormalUnique | index.js:102-108 | two normal triples for the same length are equal |
| Durations.NormalizeFixesNormal | index.js:102-108 | normalizing leaves a triple unchanged exactly when it is already normal |
| Durations.NormalizeIdempotent | index.js:102-108 | normalizing twice is normalizing once |
| Durations.NormalizeSameLength | index.js:102-108 | two triples normalize alike exactly when they stand for the same length |
| Durations.NormalizeOnceEqualsEachStep | index.js:82-95 | summing and normalizing once gives the same total as carrying after every step |
| Display.TotalDurationText | index.js:94-97 | the total line is `Total Duration: ` and the three segments of a normal triple of the same length as the sum |
| Display.FormatOmitsZeroHours | index.js:142-144 | the per-video text equals the full three-segment text exactly when hours is not 0; when hours is 0 it is that text without its leading `0h ` |
| Display.FormatDuration | index.js:142-144 | the per-video text can be read back into the duration it shows by a reader that accepts only printed numerals, so each number is written without padding |
| Display.FullFormat | index.js:97 | the three-segment text of the total line always starts with the hours segment, even `0h `, and can be read back into the duration it shows, each number written without padding |
| Examples.PaddedTextNotRead | index.js:143 | the zero-padded text `05m 3s` is not read back, so it is not what `formatDuration` prints |
| Display.FormatDurationInjective | index.js:142-144 | different durations are shown as different texts |
| Pipeline.VideoIds | index.js:21-23 | the ids sent to the details call are the items' video ids, one per item, in playlist order |
| Pipeline.WatchUrl | index.js:70 | a row's link is the watch page prefix followed by the video id, which can be read back from it |
| Pipeline.Record | index.js:66-71 | a row's link is the watch URL of the item's video id; the row keeps the item's title, thumbnail and id, which can be read back from it, and the parsed duration |
| Pipeline.Combine | index.js:65-71 | the join fails exactly when a detail is missing at some item's index or its duration has no `PT`; otherwise row i is item i with the duration parsed from detail i |
| Pipeline.DurationsOf | index.js:82-88 | the durations summed are those of the rows, in order |
| Pipeline.RecordsFollowRequestedIds | index.js:21-23 | row i links to the video whose id was sent at position i |
| Pipeline.PositionalJoinMatchesById | index.js:65-71 | when the details come back in request order, every row gets its own video's duration |
| Pipeline.FetchPlaylistData | index.js:8-38 | the invalid-URL message shows exactly when no id is found; results show exactly when both fetches answer and the join succeeds; the rows are the join and the total is the field-wise sum of their durations; any other failure shows the generic message |
| Proxy.ForwardedIds | proxy-server.js:57 | at most 50 ids are forwarded: the first min(n, 50) of them, in order |

## Left out

- The DOM: reading the input field, `showError`, the table markup of `displayVideoTable` and the styles. `FetchPlaylistData` returns what would be shown instead.
- The network, `fetch`, `response.ok` and JSON decoding. Each call is a parameter returning `None` where the code would throw.
- `async`/`await` ordering. The model is sequential, as one click's code is.
- The rest of `proxy-server.js`: CORS, the Express routing, the API key, the 400 answer for an empty `videoIds`, the error bodies, and splitting and joining the comma-separated id string. Only the cap of line 57 is modelled.
- The shape mismatch between the proxy's `part` parameters and the fields the front end reads. The model assumes the fields exist. A response without them is one of the failures the fetch parameters report as `None`.
- JavaScript numbers are doubles. `parseInt` of a very long digit run and sums beyond 2^53 lose precision. The model uses unbounded naturals.
- JavaScript strings are UTF-16 code units. The model treats a `string` as a sequence of characters and compares them one by one.
- Durations in other ISO 8601 forms (`P1DT2H`, fractional seconds). The expression does not read them: `P1DT2H` has no `PT` and fails. The model follows the expression.
- Display.TotalDurationText: states that the line shows some normal triple of the same length, not which one. `Durations.NormalUnique` shows there is only one.
