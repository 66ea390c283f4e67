# shortsmaker: a Dafny model of the `/summarize` pipeline

shortsmaker is a small FastAPI service that turns a YouTube video into a one-minute
Shorts script. A `POST /summarize` request carries a video URL, an OpenAI API key and a
style. The service:

1. extracts the video id from the URL with three regular expressions;
2. downloads the video's transcript;
3. asks a language model for a JSON script;
4. strips a Markdown code fence from the reply;
5. parses the JSON and answers with its four fields: title, subtitles, narration and
   visual suggestions.

Any failure on the way becomes HTTP 500, with the exception's message as the detail.

The model is pure, as the code is: datatypes, functions and lemmas in four modules.

- `Wrappers` (`wrappers.dfy`): `Option` (Python `None`-or-value) and `Result` (a value,
  or the message of a raised exception). `Result` supports `:-`, so an exception
  propagates as it does in Python.
- `VideoId` (`video_id.dfy`): `get_video_id`. Each regular expression is written out by
  hand with `re.search` semantics:
  - the leftmost start position wins, and the end of the string is one of the positions
    tried;
  - `^` holds only at position 0;
  - `$` holds at the end, or just before a single trailing newline.
- `CodeFence` (`code_fence.dfy`): the reply cleanup in `generate_shorts_script`. It
  covers `str.strip()` with CPython's whitespace table, `startswith("```")`,
  `split("```")[1]`, dropping one leading `json` tag, and the final strip.
- `Shorts` (`shorts.dfy`): `download_transcript`, `generate_shorts_script` and
  `generate_shorts`. The transcript service, the language model and `json.loads` are
  function-valued parameters (`Services`). Each returns its result or the message of its
  exception.

## Model

| member | source | states |
|---|---|---|
| VideoId.MatchAt | main.py:40-42 | a pattern tried at one position yields a group start at or after that position, followed by 11 id characters |
| VideoId.Search | main.py:45 | `re.search` returns the leftmost position where the pattern matches, with its group; it returns `None` exactly when no position from the start to the end of the string matches |
| VideoId.FirstMatch | main.py:44-48 | the result is the group of the first pattern in the list that matches anywhere, every earlier pattern matching nowhere; it is a contiguous 11-character id run of the URL; `None` exactly when every pattern fails; the group text is `GroupText`, i.e. `match.group(1)` |
| VideoId.GetVideoId | main.py:37-48 | a result has 11 characters, all in `[0-9A-Za-z_-]`, and is a contiguous substring of the URL: the group of the first of the three patterns that matches; `None` exactly when none of them matches |
| VideoId.EmbedImpliesWatchOrPath | main.py:40-41 | wherever `embed/` plus an id matches, the first pattern matches at its `/` with the same group |
| VideoId.EmbedNeverDecides | main.py:39-47 | removing the embed pattern from the list leaves the result unchanged for every URL |
| VideoId.LeftmostWatchOrPathWins | main.py:40-47 | for a URL made of `pre`, `v=` or `/`, 11 id characters and anything after, the result is those 11 characters when the first pattern matches nowhere in `pre`; trailing text, including further id characters, is ignored |
| VideoId.BareIdAnchored | main.py:42-48 | for text without `/` or `=`, the result is its first 11 characters exactly when it is 11 id characters, optionally followed by one newline; otherwise `None` |
| VideoId.BareIdYieldsItself | main.py:42 | a bare id, and a bare id followed by `\n`, each yield that id |
| VideoId.BareIdRejectsOtherTrailers | main.py:42 | a bare id followed by any other non-empty tail without `/` or `=` yields `None` |
| CodeFence.TextStart | main.py:126 | the first non-whitespace position at or after `i`, with only whitespace skipped |
| CodeFence.TextEnd | main.py:126 | the end of the last non-whitespace character, with only whitespace dropped |
| CodeFence.Trim | main.py:126 | `str.strip()` returns a text no longer than its input that neither begins nor ends with whitespace; whitespace is `IsSpace`, CPython's `str.isspace` table |
| CodeFence.TrimRemovesOnlySpace | main.py:126 | the stripped text is a contiguous piece of the input; everything removed before and after it is whitespace |
| CodeFence.TrimIgnoresSurroundingSpace | main.py:126 | a trimmed text surrounded by any whitespace strips back to itself, so the piece kept is unique |
| CodeFence.TrimOfTrimmed | main.py:126 | stripping a trimmed text leaves it unchanged |
| CodeFence.TrimIdempotent | main.py:126 | stripping twice gives the same text as stripping once |
| CodeFence.TrimAppendSpace | main.py:133 | appending whitespace does not change the stripped text |
| CodeFence.TrimKeepsLeadingBlock | main.py:126 | a text made of whitespace, a trimmed block and a rest strips to the block plus a prefix of the rest; only whitespace is dropped after that prefix |
| CodeFence.FindFence | main.py:130 | the leftmost fence at or after a position, with no fence before it; `None` exactly when no fence follows |
| CodeFence.SplitOnFence | main.py:130 | `split("```")` yields at least one piece, and no piece contains a fence; a single piece exactly when the text has no fence; the first piece ends at the leftmost fence, as `str.split` cuts |
| CodeFence.SplitJoinRoundTrip | main.py:130 | joining the pieces with fences gives back the original text |
| CodeFence.ClosingFenceFound | main.py:130 | after a fence-free body that does not end in a backtick, the next fence is the one right after the body |
| CodeFence.FirstPieceBeforeClosingFence | main.py:130 | the first piece of a body followed by a fence is that body |
| CodeFence.SecondPieceOfClosedBlock | main.py:129-130 | in a closed fenced block, `split("```")[1]` is the body between the fences |
| CodeFence.SecondPieceOfUnclosedBlock | main.py:129-130 | with no closing fence, `split("```")[1]` is everything after the opening fence |
| CodeFence.DropJsonTag | main.py:131-132 | a text that starts with `json` loses exactly that prefix; any other text is unchanged |
| CodeFence.DropJsonTagKeepsNoFence | main.py:131-132 | dropping the tag cannot create a fence |
| CodeFence.TrimKeepsNoFence | main.py:133 | stripping cannot create a fence |
| CodeFence.StripFences | main.py:126-133 | the cleaned reply never begins or ends with whitespace; a fenced reply leaves no fence in the result; an unfenced reply is only stripped |
| CodeFence.StripFencesIdempotent | main.py:126-133 | cleaning an already cleaned reply changes nothing |
| CodeFence.ClosedFenceYieldsBody | main.py:126-133 | whitespace, then a fenced block, then anything: the result is the body, with one leading `json` dropped, then stripped; text after the closing fence is ignored |
| CodeFence.UnclosedFenceYieldsRest | main.py:126-133 | an opening fence with no closing one: the result is everything after it, with one leading `json` dropped, then stripped |
| CodeFence.DropTagBeforeSpace | main.py:131-133 | trailing whitespace stays at the end when the `json` tag is dropped |
| Shorts.DownloadTranscript | main.py:50-72 | an invalid URL fails with "자막 다운로드 실패: 유효하지 않은 YouTube URL입니다." whatever the service; for a valid URL, a successful fetch of the extracted id is returned unchanged and a failed one is reported as the download prefix followed by its message |
| Shorts.GenerateShortsScript | main.py:74-143 | an empty key fails with "스크립트 생성 실패: OpenAI API 키가 필요합니다." before the model is used; a model failure is the script prefix followed by its message; the cleaned reply is parsed, and the parse result is returned on success, or on failure the JSON prefix, the parser's message and the cleaned reply |
| Shorts.BuildResponse | main.py:174-179 | succeeds exactly when all four keys are present, copying their four values; otherwise fails with the quoted name of the first missing key, in order; the message is `KeyErrorMessage`, i.e. `str(KeyError(key))` |
| Shorts.Summarize | main.py:162-179 | a download failure or a script failure is passed on unchanged; otherwise the result is the response built from the parsed map; a success implies the URL yields an id, its transcript was fetched and the key is non-empty; every failure message is a download, script or JSON failure, or a quoted missing key |
| Shorts.GenerateShorts | main.py:162-182 | a failure of the pipeline is exactly an HTTP error with status 500 and that failure's message as its detail; a success carries exactly the script the pipeline built |
| Shorts.InvalidUrlRejectedBeforeAnyCall | main.py:52-55 | for every set of services, an invalid URL gives status 500 with the invalid-URL download message |
| Shorts.EmptyApiKeyRejectedBeforeModelCall | main.py:76-78 | once a transcript is downloaded, an empty key gives status 500 with the missing-key message, whatever the model and the parser would do |
| Shorts.ParsedReplyDecidesResponse | main.py:136-182 | once the cleaned reply parses to a map, the answer depends on that map alone: its four values, or status 500 naming the first missing key |
| Shorts.ExtraKeysIgnored | main.py:174-179 | two parsed results that agree on the four keys give the same response |

## Left out

- The transcript fetch is the `fetch` parameter of `Services`. Left out with it:
  - the fallback from Korean to English, then a third call with the library's default
    language list (main.py:59-65);
  - `to_raw_data`;
  - joining the snippets with newlines.
- The language model call and the prompt text are the `complete` parameter of
  `Services`. The `gpt-4o-mini` model and the temperature are left out.
- `json.loads` is the `parse` parameter of `Services`. It is read as producing a map from
  keys to string values. Left out:
  - a JSON value that is not an object, which would raise a `TypeError` when indexed;
  - non-string field values, which Pydantic would reject or coerce.
- Pydantic request validation is not modelled, including the default style `감성적` for a
  missing `style` field. A request here always carries all three strings.
- FastAPI routing, CORS, the response model's serialisation, the `GET /` status
  endpoint and the uvicorn launcher are not modelled. They are I/O plumbing.
- The process supervisor (PID file, port prober, start/stop commands) is not part of this
  model.
- Shorts.GenerateShortsScript: the exception type is not modelled. A failure of `complete` is
  taken never to be a `json.JSONDecodeError`. If the model call raised one, the handler would
  format `content` before it was assigned. The request would then fail with an unprefixed
  `UnboundLocalError` message instead of the script prefix. Every failure of `parse` is taken
  to be a `JSONDecodeError`; another exception from `json.loads`, such as a `RecursionError`
  on deeply nested input, would take the script prefix instead. `Summarize`'s list of failure
  messages holds under these two assumptions.
- Every exception message is taken as a string given by the failing collaborator. The
  text of Python's own `JSONDecodeError` messages is not modelled.
