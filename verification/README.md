# YouTube transcript scraper — verified model of the core

This project models the pure logic of `youtube_transcript_scraper.py` in
Dafny. That logic turns a YouTube URL and a json3 subtitle payload into
transcript text, and it has five parts:

- **`extract_video_id`** (module `VideoId`). It tries two regular
  expressions in order with `re.search`, and the model scans for each one
  explicitly.
  - Pattern 1 has three markers. No two can match at the same position.
  - The capture is the maximal run of characters other than `&`, `?`, `#`
    and newline.
  - Pattern 2 is `youtube.com/watch?.*v=`. Its greedy `.*` stays on one
    line and backtracks from the line end, so it settles on the last
    qualifying `v=`.
- **Track and format selection** inside `get_transcript` (module
  `Subtitles`).
  - The manual `en` track is preferred over the automatic one.
  - The first `json3` entry of the chosen track supplies the download URL.
- **json3 decoding** (module `Json3`). Events become segments. Events
  without `segs`, and events whose text is blank, are dropped. Missing
  `utf8` fields read as `""`, and missing times read as `0`.
- **Error classification** (module `Errors`).
  - Every failure has its own message.
  - The `except` clauses around the download are tried first-match in
    source order.
  - Anything they do not catch reaches the outer `except Exception`. That
    handler recognises private or unavailable videos.
- **`format_transcript`** (module `Formatting`).
  - Plain mode joins the texts with single spaces.
  - Timestamped mode writes one `[MM:SS] text` line per segment and joins
    the lines with newlines.

Module `Transcript` composes these steps into `get_transcript`. Two things
are parameters of the model:

- the metadata extractor (`yt_dlp`'s `extract_info`);
- the subtitle download (the GET plus `response.json()`).

Each parameter returns either its result or the exception it raised.
Module `Text` supplies the Python string operations the code relies on:

- `str.isspace` and `str.strip`;
- `sep.join` and the substring test `in`;
- f-string rendering of integers, including `{n:02d}`.

`Text.Split` models `str.split` with a one-character separator. The code
never splits; `Text.Split` exists only to state the formatting lemmas.

Times are integer milliseconds. `start // 60` becomes `ms / 60000`, and
`int(start % 60)` becomes `(ms / 1000) % 60`. For a positive divisor,
Dafny's division is floor division, the same as Python's.

Pattern 2's greedy `.*` takes the last qualifying `v=` on the line, not
the first (`VideoId.Pattern2AtGreedy`).

## Model

| member | source | states |
|---|---|---|
| Text.Strip | youtube_transcript_scraper.py:154-156 | `text.strip()` is the middle of the text: the text is blank + result + blank, and the result has no whitespace at either end |
| Text.StripUnique | youtube_transcript_scraper.py:154-156 | any split of a string into blank + trimmed middle + blank has the strip as its middle, so the strip is exactly the whitespace-free core |
| Text.StripEmptyIffBlank | youtube_transcript_scraper.py:154 | `text.strip()` is empty exactly when every character of the text is whitespace |
| Text.Join | youtube_transcript_scraper.py:153 | `sep.join(parts)` is empty for no parts and is the part itself for one part; otherwise its length is the parts' total length plus one separator between each pair |
| Text.JoinLayout | youtube_transcript_scraper.py:199-202 | in `sep.join(parts)` every part sits, in order, right after the earlier parts and their separators, and one separator follows every part but the last |
| Text.JoinAppend | youtube_transcript_scraper.py:200-202 | joining two non-empty lists puts exactly one separator between the two joins |
| Text.SplitJoin | youtube_transcript_scraper.py:200 | splitting a join at the separator gives back the parts when no part contains the separator |
| Text.Contains | youtube_transcript_scraper.py:175 | the substring test `needle in hay` holds exactly when the needle occurs at some index |
| Text.Digits | youtube_transcript_scraper.py:135 | the rendering of a non-negative integer is a non-empty digit string with no leading zero except for 0; it has at least two digits from 10 on and at most two below 100 |
| Text.DigitsRoundTrip | youtube_transcript_scraper.py:135 | reading back a rendered non-negative integer gives the integer |
| Text.IntToString | youtube_transcript_scraper.py:135 | `f"{n}"` for `n >= 0` is a digit string that reads back as `n` and starts with `0` only for 0; for negative `n` it is `-` followed by digits that read back as `-n`, with no leading zero |
| Text.Pad2 | youtube_transcript_scraper.py:198 | `f"{n:02d}"` is at least two characters, exactly two for 0..99, and reads back as `n` for `n >= 0`; from 10 on it has no leading zero; a negative `n` is `-` followed by digits that read back as `-n`, with no leading zero |
| Errors.MessagesDistinct | youtube_transcript_scraper.py:82-184 | two failure kinds with the same `'error'` string are the same kind, including the HTTP code and the exception text |
| Errors.IntToStringInjective | youtube_transcript_scraper.py:135 | two status codes with the same rendering are equal, so the HTTP message determines the code |
| Errors.ClassifyUncaught | youtube_transcript_scraper.py:173-184 | the outer handler reports an unavailable video exactly when the exception text contains `Private video` or `This video is unavailable`; otherwise it reports `Error: ` + the text |
| Errors.FirstHandler | youtube_transcript_scraper.py:111-146 | finds the first `except` clause in source order whose class the exception belongs to, or reports that none applies |
| Errors.ClassifyFetch | youtube_transcript_scraper.py:111-146 | first match wins: the result is that of the earliest clause whose class the exception belongs to, whatever later clauses would say; an exception of none of the five classes gets the outer handler's result |
| Errors.ClassifyStatus | youtube_transcript_scraper.py:121-136 | the HTTP clause reports rate limiting if and only if the status is 429 and access denied if and only if it is 403; any other status is kept as its code |
| Errors.Message | youtube_transcript_scraper.py:85-183 | the exception text is the tail of the `Failed to fetch subtitles: ` and `Error: ` messages, and the rendered status sits between `HTTP error ` and ` while fetching subtitles.` |
| Errors.StatusMessages | youtube_transcript_scraper.py:111-136 | a timeout is reported as a timeout whatever else the exception is; with the HTTP clause reached, status 429 if and only if rate-limited, 403 if and only if access denied, and every other status gives `HTTP error {code} while fetching subtitles.` |
| Errors.HttpErrorExample | youtube_transcript_scraper.py:132-136 | status 404 gives `HTTP error 404 while fetching subtitles.` |
| VideoId.Capture | youtube_transcript_scraper.py:39-40 | the group `([^&\n?#]+)` after a position is a stop-free piece of the input there, followed by a stop character or the end, and non-empty when the first character is capturable |
| VideoId.MarkersExclusive | youtube_transcript_scraper.py:39 | no two of `youtube.com/watch?v=`, `youtu.be/` and `youtube.com/embed/` occur at the same position |
| VideoId.Pattern1At | youtube_transcript_scraper.py:39 | pattern 1 anchored at a position succeeds exactly when one of its markers is there followed by a capturable character, and the capture is non-empty and stop-free |
| VideoId.Pattern2At | youtube_transcript_scraper.py:40 | anchored pattern 2 succeeds only where `youtube.com/watch?` occurs, and its capture is non-empty and stop-free |
| VideoId.Pattern2AtMeaning | youtube_transcript_scraper.py:40 | pattern 2 anchored at a position succeeds exactly when `youtube.com/watch?` is there and a `v=` with a capturable character follows on the same line |
| VideoId.Pattern2AtGreedy | youtube_transcript_scraper.py:40 | anchored pattern 2 captures after the last qualifying `v=` reachable on the line |
| VideoId.Leftmost1 | youtube_transcript_scraper.py:44 | `re.search` for pattern 1 finds its leftmost matching position, or reports that none exists |
| VideoId.Leftmost2 | youtube_transcript_scraper.py:44 | `re.search` for pattern 2 finds its leftmost matching position, or reports that none exists |
| VideoId.ExtractVideoId | youtube_transcript_scraper.py:28-48 | a returned ID is non-empty, stop-free and a substring of the URL; `None` exactly when neither pattern matches anywhere |
| VideoId.Pattern1Leftmost | youtube_transcript_scraper.py:38-46 | when a pattern-1 marker is followed by a capturable character and pattern 1 matches nowhere earlier, the ID is the maximal run after that marker |
| VideoId.Pattern2Fallback | youtube_transcript_scraper.py:40-48 | when pattern 1 matches nowhere, the ID is the maximal run after the last qualifying `v=` on the line of the leftmost `youtube.com/watch?` that has one |
| VideoId.Pattern2FallbackRun | youtube_transcript_scraper.py:40-48 | the fallback result equals any run meeting that description |
| VideoId.MaximalRunUnique | youtube_transcript_scraper.py:39-40 | the maximal stop-free run at a position is unique |
| VideoId.WatchUrlRoundTrip | youtube_transcript_scraper.py:60 | every ID extraction can return is recovered from the watch URL `get_transcript` builds from it |
| VideoId.ExtractIdempotent | youtube_transcript_scraper.py:43-60 | an extracted ID put back into a watch URL extracts to itself |
| VideoId.Leftmost2At | youtube_transcript_scraper.py:40-44 | a `youtube.com/watch?` followed on its line by a qualifying `v=`, with no pattern-2 match earlier, is where the pattern-2 search stops |
| VideoId.QueryLinkMissesPattern1 | youtube_transcript_scraper.py:39 | pattern 1 matches nowhere in `youtube.com/watch?` + params + `v=` + ID when the params start with something other than `v` and neither part holds a `y` |
| VideoId.QueryLinkLastV | youtube_transcript_scraper.py:40 | in such a link, with no `v` or newline in the params and no `v` in the ID, the `v=` before the ID is the last one pattern 2 can reach, and the ID is the run after it |
| VideoId.QueryLinkFallback | youtube_transcript_scraper.py:38-48 | the link `youtube.com/watch?` + params + `v=` + ID yields the ID through pattern 2 when the params are non-empty with no `v`, `y` or newline, and the ID is non-empty and stop-free with no `v` or `y`; links such as `watch?feature=youtu.be&v=…` are not covered |
| VideoId.ShareLinkExample | youtube_transcript_scraper.py:40 | `youtube.com/watch?feature=share&v=abc` misses pattern 1 and yields `abc` through pattern 2 |
| Subtitles.SelectTrack | youtube_transcript_scraper.py:76-80 | a track is chosen exactly when a manual or an automatic English track exists: the manual one whenever it exists, otherwise the automatic one |
| Subtitles.FindJson3 | youtube_transcript_scraper.py:90-93 | the loop stops at the first entry whose `ext` is `json3`, or finds none |
| Subtitles.Json3Url | youtube_transcript_scraper.py:89-99 | a URL is chosen exactly when the first `json3` entry has a non-empty `url`, and it is that `url`; otherwise the result is the format-not-available failure |
| Subtitles.SubtitleUrl | youtube_transcript_scraper.py:76-99 | the failure is the no-captions one exactly when no English track is chosen or the chosen one is empty; otherwise the result is the first json3 URL of the chosen track |
| Subtitles.ManualPreferred | youtube_transcript_scraper.py:77-78 | with a manual English track, that track is chosen and the automatic captions do not affect the result |
| Subtitles.AutomaticOnlyWhenManualAbsent | youtube_transcript_scraper.py:77-80 | a track is chosen exactly when a manual or an automatic English track exists; without a manual one the automatic one is chosen, and the manual map is not consulted |
| Subtitles.EmptyManualNoFallback | youtube_transcript_scraper.py:77-86 | an empty manual English track gives the no-captions failure without trying the automatic track |
| Subtitles.FindJson3Prefix | youtube_transcript_scraper.py:90-93 | the search for the first json3 entry does not look past it |
| Subtitles.OnlyFirstJson3Used | youtube_transcript_scraper.py:89-99 | replacing everything after the first json3 entry does not change the result |
| Subtitles.SelectionFailuresDistinct | youtube_transcript_scraper.py:82-99 | the no-captions and format-not-available failures have different messages |
| Json3.Utf8s | youtube_transcript_scraper.py:153 | there is one string per piece, in order: the piece's `utf8`, or `""` when it is missing |
| Json3.Decode | youtube_transcript_scraper.py:152-159 | a kept event's text is non-empty and has no whitespace at either end |
| Json3.DecodeMeaning | youtube_transcript_scraper.py:152-159 | an event is dropped exactly when it has no `segs` or its concatenated text is blank; a kept event's text is the stripped concatenation of its pieces, and its start and duration are the event's, defaulting to 0 |
| Json3.DecodeEvents | youtube_transcript_scraper.py:149-159 | there are at most as many segments as events, and every text is non-empty and trimmed |
| Json3.DecodeAppend | youtube_transcript_scraper.py:151-159 | events decode one at a time: decoding a concatenation concatenates the decodings |
| Json3.KeptFrom | youtube_transcript_scraper.py:152-154 | lists, in increasing order, exactly the positions whose flag holds; on the events' contribution flags, these are the events that give a segment |
| Json3.DecodeIsOrderedFilter | youtube_transcript_scraper.py:149-159 | the k-th segment is decoded from the k-th kept event, and there are as many segments as kept events |
| Json3.DecodeEmptyIff | youtube_transcript_scraper.py:149-161 | nothing is decoded exactly when every event is dropped |
| Json3.BuildTranscript | youtube_transcript_scraper.py:149-171 | success carries the decoded, non-empty segments; the `Could not parse transcript data.` failure occurs exactly when there is no `events` key or every event is dropped |
| Formatting.Seconds | youtube_transcript_scraper.py:198 | the seconds field is in 0..59 |
| Formatting.Pad2SingleLine | youtube_transcript_scraper.py:198 | a padded field has no newline |
| Formatting.StampLayout | youtube_transcript_scraper.py:198 | in `[mm:ss]` the two fields sit between the brackets and around the colon |
| Formatting.Timestamp | youtube_transcript_scraper.py:198 | the stamp is `[`, minutes, `:`, two seconds digits and `]`. The seconds read back as the seconds within the minute. For non-negative times the minutes read back as the whole minutes. From 10 minutes on the minutes have no leading zero, and below 100 minutes the stamp has seven characters. A negative time shows `-` and then the absolute value of its floored minutes, with no leading zero |
| Formatting.TimestampExample | youtube_transcript_scraper.py:198 | start 65 s is shown as `[01:05]` |
| Formatting.TimestampFields | youtube_transcript_scraper.py:198 | below 100 minutes the stamp has seven characters, and the digits at 1..2 and 4..5 read back as the minutes and the seconds |
| Formatting.FormatTranscript | youtube_transcript_scraper.py:194-202 | the output holds one piece per segment, in segment order: its `[MM:SS] text` line when timestamped, otherwise its text. Each piece sits right after the earlier pieces and separators, one newline (timestamped) or space (plain) follows every piece but the last, and there is nothing else; no segments give `""`. The two branches are `FormatTimestamped` and `FormatPlain`, which the lemmas below are about |
| Formatting.LineSingleLine | youtube_transcript_scraper.py:198-199 | a line holds a newline only where its text does |
| Formatting.TimestampedLines | youtube_transcript_scraper.py:195-200 | timestamped output splits at newlines into exactly the segments' lines, with no trailing newline, when no text holds a newline |
| Formatting.PlainWords | youtube_transcript_scraper.py:201-202 | plain output splits at spaces into exactly the texts, in order, when no text holds a space |
| Formatting.PlainAppend | youtube_transcript_scraper.py:202 | plain output of two transcripts in sequence is their outputs joined by one space |
| Formatting.TimestampedAppend | youtube_transcript_scraper.py:200 | timestamped output of two transcripts in sequence is their outputs joined by one newline |
| Transcript.GetTranscript | youtube_transcript_scraper.py:51-184 | success carries a non-empty transcript of non-blank, trimmed texts and `Transcript retrieved successfully!`; every failure carries one of the classified messages |
| Transcript.Run | youtube_transcript_scraper.py:71-171 | a success is a non-empty list of non-blank, trimmed segments. A no-captions or format failure occurs only after the metadata was obtained, and it is the selection's own failure. The empty-transcript failure occurs only after metadata, subtitle URL and download all succeeded; once those three succeed, the result is exactly the payload's transcript build, so an unparsable payload gives the empty-transcript failure |
| Transcript.RetrievedIff | youtube_transcript_scraper.py:71-171 | success holds exactly when extraction, selection, download and decoding all succeed, and the transcript is the payload's decoding |
| Transcript.ExtractorOnlyAtWatchUrl | youtube_transcript_scraper.py:60-73 | the extractor is consulted only on `https://www.youtube.com/watch?v={video_id}` |
| Transcript.FetchOnlyAtSubtitleUrl | youtube_transcript_scraper.py:102-110 | the download is consulted only on the selected subtitle URL |
| Transcript.SelectionFailureSkipsFetch | youtube_transcript_scraper.py:82-99 | when selection fails, nothing is downloaded and the selection failure's message is returned |
| Transcript.ExtractorFailure | youtube_transcript_scraper.py:71-184 | an exception from the extractor is classified by the outer handler |
| Transcript.DecodeFailure | youtube_transcript_scraper.py:150-165 | a downloaded payload with no `events`, or whose every event is dropped, gives `Could not parse transcript data.` |
| Transcript.FetchFailure | youtube_transcript_scraper.py:102-146 | an exception from the download is classified by the fetch handlers in source order |

## Left out

- The Streamlit UI (lines 226-310) is presentation. That includes reading the URL, calling `extract_video_id` and `get_transcript`, the word count, and the download button.
- `save_transcript_to_file` (lines 205-223) is left out because it does file-system I/O and reads the wall clock.
- `create_retry_session` and the HTTP GET (lines 12-25, 102-110) are network I/O configured inside `requests` and `urllib3`. The download is a parameter of the model, and retries and back-off are not modelled.
- `yt_dlp.YoutubeDL(...).extract_info` (lines 62-73) is a foreign library. It is a parameter returning the metadata or the text of the exception it raised.
- The `requests` exception hierarchy is not modelled. An exception is given as the set of handled classes it belongs to, so which clause catches a JSON decode error (line 137 or 142) is left open. Only the source order of the clauses is kept.
- Exceptions raised while decoding, such as a present but null `subtitles`, `events`, `segs` or `tStartMs`, or a non-string `utf8`, would reach the outer handler. They are not modelled, and the payload and metadata datatypes cannot express those values.
- Floating-point seconds are not modelled. `start` and `duration` are kept as integer milliseconds, so rounding of `ms / 1000.0` for very large times is not modelled.
- A metadata dict whose `subtitles` maps `en` to an empty value such as `None` is reported as missing captions without trying the automatic captions (lines 77-86). A track is a list of entries in the model, so only the empty list expresses this case.
- A payload that is valid JSON but not an object is not modelled. For a list, `'events' in subtitle_data` tests list membership (line 150); the payload datatype only expresses an object with or without `events`.
