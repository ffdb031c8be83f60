# YouTube podcast summarizer — verified model of the summarization core

This project models, in Dafny, the logic of `src/utils/utils_summarizer.py`
of the YouTube podcast summarizer. That logic turns a YouTube link into a
prompt for a language model:

* **Video-id extraction** (`get_video_id`). Three regular expressions are
  tried in order with `re.search` semantics. They are encoded by hand over
  strings (`VideoId` module, `video_id.dfy`).
* **Transcript selection** (`get_auto_transcript`). The transcript service
  is abstracted as its listing of tracks. The model selects a generated
  track, first by the preferred languages `pt`, `pt-BR`, `en`, then the
  first generated track listed. It joins the chosen track's fragment texts
  with single spaces (`Transcript` module, `transcript.dfy`).
* **The flow of `summarize_video`**. There is an invalid-URL message, a
  no-transcript message, and a prompt that embeds only the first 8000
  characters of the transcript. The page-title lookup, the transcript
  service and the model call are parameters of the function
  (`Summarizer` module, `summarizer.dfy`).

`wrappers.dfy` holds the `Option` type that stands for Python's `None`-or-value returns.

Main results:

* Pattern 1 `(?:v=|\/)([0-9A-Za-z_-]{11}).*` alone decides the outcome.
  Every `youtu.be/` or `embed/` match contains `/` followed by eleven id
  characters, so patterns 2 and 3 never change the result.
* The result is `None` exactly when no `v=` or `/` followed by eleven id
  characters occurs. Otherwise it is the eleven characters after the
  leftmost such marker.
* Appending anything to the URL never changes a found id. This covers
  longer id runs and query parameters.
* The preferred-language order and the generated-only rule hold.
* Splitting on single spaces recovers space-free fragments from the joined
  transcript.
* Two transcripts that agree on their first 8000 characters give the same
  summary.

The code takes any path segment of eleven or more id characters after a
`/` as an id, and the model keeps that behaviour. One expected behaviour of
the system is that `https://not-youtube.com/video` is rejected with the
invalid-URL message. The code does not do this: the second `/` of `//` is
followed by the eleven id characters `not-youtube`, so `get_video_id` returns
`"not-youtube"` and the flow goes on to the transcript lookup. The model
follows the code (`VideoId.NonYouTubeHostTakenForId`,
`Summarizer.NonYouTubeUrlReachesTranscriptLookup`). The web front end
rejects such links earlier by checking for the `https://www.youtube.com/`
prefix (`src/app.py:65`), but that file is not part of this model.

## Model

| member | source | states |
|---|---|---|
| VideoId.CaptureAfter | src/utils/utils_summarizer.py:11-13 | a literal followed by `[0-9A-Za-z_-]{11}` matches at a position exactly when both are present there; the capture is the eleven characters after the literal |
| VideoId.MatchAt | src/utils/utils_summarizer.py:10-13 | each of the three patterns anchored at a position captures, if anything, a well-formed eleven-character id; pattern 1 tries `v=` before `/` |
| VideoId.FindFrom | src/utils/utils_summarizer.py:17 | `re.search` scanning: the returned position matches and no earlier position from the start does; `None` only if no position up to the end matches |
| VideoId.Search | src/utils/utils_summarizer.py:17-19 | a pattern's search yields a well-formed id, and yields nothing exactly when the pattern matches at no position |
| VideoId.FirstHit | src/utils/utils_summarizer.py:16-20 | the pattern loop yields nothing exactly when every pattern's search fails; any result is a well-formed id |
| VideoId.GetVideoId | src/utils/utils_summarizer.py:8-20 | the result is `None` or exactly eleven characters of `[0-9A-Za-z_-]` |
| VideoId.MarkedId | src/utils/utils_summarizer.py:11 | the eleven characters after a `v=` or `/` marker form a well-formed id |
| VideoId.WatchOrSlashAt | src/utils/utils_summarizer.py:11 | pattern 1 matches at a position exactly when `v=` or `/` there is followed by eleven id characters, and captures those characters |
| VideoId.ShortLinkImpliesMarker | src/utils/utils_summarizer.py:11-12 | wherever `youtu.be/` plus an id matches, pattern 1 matches at its `/` |
| VideoId.EmbedImpliesMarker | src/utils/utils_summarizer.py:11-13 | wherever `embed/` plus an id matches, pattern 1 matches at its `/` |
| VideoId.PatternOneDecides | src/utils/utils_summarizer.py:10-20 | for every input the result equals pattern 1's search alone: patterns 2 and 3 never decide |
| VideoId.NoneIffNoMarker | src/utils/utils_summarizer.py:10-20 | the result is `None` if and only if no `v=`/`/` followed by eleven id characters occurs anywhere |
| VideoId.LeftmostMarkerDecides | src/utils/utils_summarizer.py:11-19 | if the leftmost marker is at `i`, the result is the eleven characters right after it |
| VideoId.FoundIdIsLeftmostSlice | src/utils/utils_summarizer.py:11-19 | a found id is the contiguous slice after the leftmost marker of the input |
| VideoId.SuffixDoesNotMatter | src/utils/utils_summarizer.py:11 | appending any text (longer id runs, query parameters) keeps a found id unchanged; only the first eleven id characters are captured |
| VideoId.WatchUrlYieldsId | src/utils/utils_summarizer.py:11 | `https://www.youtube.com/watch?v=<id><anything>` yields `<id>` for every well-formed id |
| VideoId.ShortUrlYieldsId | src/utils/utils_summarizer.py:11-12 | `https://youtu.be/<id><anything>` yields `<id>` for every well-formed id |
| VideoId.EmbedUrlYieldsId | src/utils/utils_summarizer.py:11-13 | `https://www.youtube.com/embed/<id><anything>` yields `<id>` for every well-formed id |
| VideoId.HostTakenForId | src/utils/utils_summarizer.py:11 | `https://<host><anything>` yields `<host>` whenever the host is eleven id characters, whatever the site |
| VideoId.NonYouTubeHostTakenForId | src/utils/utils_summarizer.py:11 | `not-youtube` is id-shaped, so `https://not-youtube.com/video` yields the id `not-youtube` |
| VideoId.NoIdInPlainUrls | src/utils/utils_summarizer.py:16-20 | `https://example.com` and the empty string yield `None` |
| Transcript.FindGenerated | src/utils/utils_summarizer.py:28 | `find_generated_transcript([lang])` returns the first generated track in that language, or reports that none exists |
| Transcript.FirstGenerated | src/utils/utils_summarizer.py:33-35 | the fallback loop returns the first generated track in listing order, or reports that there is none |
| Transcript.SelectPreferred | src/utils/utils_summarizer.py:26-31 | the language loop fails exactly when no preferred language has a generated track; otherwise it returns the first such track of the earliest language that has one |
| Transcript.SelectTrack | src/utils/utils_summarizer.py:26-40 | a selected track is always generated; nothing is selected exactly when the listing has no generated track |
| Transcript.GetAutoTranscript | src/utils/utils_summarizer.py:22-40 | `None` when listing fails, when no generated track exists, or when fetching the selected track fails (no other track is tried); whenever the selected track's fetch succeeds, exactly the space-joined fragments of that track |
| Transcript.PreferredTranscriptReturned | src/utils/utils_summarizer.py:26-31 | the text returned is the joined fragments of the first generated track in the earliest preferred language that has one |
| Transcript.FallbackTranscriptReturned | src/utils/utils_summarizer.py:33-35 | without preferred-language generated tracks, the text returned is the joined fragments of the first generated track listed |
| Transcript.PreferredLanguageWins | src/utils/utils_summarizer.py:26-31 | a generated track in the earliest preferred language that has one is selected, whatever other tracks precede it, and it is the first such track listed |
| Transcript.FallbackTakesFirstGenerated | src/utils/utils_summarizer.py:33-35 | without preferred-language generated tracks, the selected track is the first generated one listed and its language is not preferred |
| Transcript.Join | src/utils/utils_summarizer.py:29 | `' '.join(texts)`: the empty list gives `""`; otherwise the first fragment starts the result and its length is the fragments' total plus one separator between each pair (order and separators shown by `SplitJoin`, `JoinAppend`, `JoinExample`) |
| Transcript.JoinAppend | src/utils/utils_summarizer.py:35 | for any fragments, joining two non-empty runs is their joins with one space between them |
| Transcript.SplitJoin | src/utils/utils_summarizer.py:29 | splitting the joined transcript on single spaces gives back the fragments (when none contains a space): order and separators are preserved |
| Transcript.JoinExample | src/utils/utils_summarizer.py:35 | fragments `a`, `b`, `c` join to `a b c` |
| Transcript.GeneratedPortugueseBeatsManualEnglish | src/utils/utils_summarizer.py:26-31 | with a manual English track listed before a generated Portuguese one, the Portuguese text is returned |
| Transcript.SingleEnglishTrack | src/utils/utils_summarizer.py:26-31 | a listing with one generated English track gives exactly that track's text |
| Transcript.ManualTracksAreNeverUsed | src/utils/utils_summarizer.py:33-40 | a listing with only a manual track gives `None` |
| Summarizer.Truncate | src/utils/utils_summarizer.py:85 | `s[:8000]` is a prefix of `s`, at most 8000 characters long, and the whole of `s` when it fits |
| Summarizer.SummarizeVideo | src/utils/utils_summarizer.py:59-96 | no id gives the invalid-URL message; a missing or empty transcript gives the no-transcript message; otherwise the result is the model's answer to the prompt built from the title and the transcript |
| Summarizer.BuildPrompt | src/utils/utils_summarizer.py:77-93 | the prompt starts with the fixed head and title and is never longer than head, 8000 characters and tail, whatever the transcript's length (layout pinned by `PromptEmbedsTranscriptPrefix`) |
| Summarizer.PromptEmbedsTranscriptPrefix | src/utils/utils_summarizer.py:77-93 | the prompt is exactly the fixed head with the title, then the first `min(8000, length)` transcript characters, then the fixed tail |
| Summarizer.PromptDependsOnlyOnPrefix | src/utils/utils_summarizer.py:85 | transcripts with the same `transcript[:8000]` (of any length) give the same prompt |
| Summarizer.OnlyTranscriptPrefixMatters | src/utils/utils_summarizer.py:70-96 | transcripts with the same `transcript[:8000]` (of any length, the empty one included) give the same summary |
| Summarizer.WatchUrlWithEnglishTrack | src/utils/utils_summarizer.py:66-96 | a watch URL whose video has one generated English track reaches the model with that track's text |
| Summarizer.NonYouTubeUrlReachesTranscriptLookup | src/utils/utils_summarizer.py:66-75 | a URL `https://<host>...` with an eleven-id-character host (such as `https://not-youtube.com/video`) passes id extraction (`HostTakenForId`); with no transcript listing it gets the no-transcript message, which differs from the invalid-URL one |

## Left out

- `src/app.py` (Streamlit page, styling, widgets, progress bar, sidebar, and its `https://www.youtube.com/` prefix check) is not part of this model: it is presentation only.
- `get_video_info` (HTTP GET plus HTML parsing with its fallback title) is not modelled. `SummarizeVideo` takes the title lookup as the parameter `titleOf`. The description it also returns is unused by `summarize_video`.
- The Gemini calls (`genai.configure`, `GenerativeModel`, `generate_content`) are not modelled. The model's answer is the uninterpreted parameter `generate`. Provider exceptions, which `summarize_video` does not catch, are not represented.
- The transcript service's network behaviour and its own order of tracks are not modelled. The listing is an input. Any failure to list (transcripts disabled, no transcript, unexpected errors) is a `None` listing. A failed fetch is a `None` fragment list. The logging `print` of the catch-all handler is not modelled.
- Transcript.FindGenerated: the service keeps at most one generated track per language code. For a listing that repeats a code, the model takes the first one listed.
- Only the three concrete patterns are encoded. No general regular-expression semantics is modelled. The trailing `.*` of pattern 1 never affects a match, so it is not represented.
