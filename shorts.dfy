/** The request pipeline of the `/summarize` endpoint (`generate_shorts`):
    download the transcript of the video named by the URL, have the language model
    write a script from it, parse the reply as JSON and copy four fields into the
    response. Any exception on the way becomes an HTTP 500 whose detail is the
    exception's message.

    The transcript service, the language model and the JSON parser are outside the
    model: they are passed in as functions (`Services`) from their inputs to a text
    or map, or to the message of the exception they raise. */
module Shorts {
  import opened Wrappers
  import VideoId
  import CodeFence

  const InvalidUrlMessage: string := "유효하지 않은 YouTube URL입니다."
  const DownloadFailurePrefix: string := "자막 다운로드 실패: "
  const MissingApiKeyMessage: string := "OpenAI API 키가 필요합니다."
  const ScriptFailurePrefix: string := "스크립트 생성 실패: "
  const JsonFailurePrefix: string := "JSON 파싱 실패: "
  const ReplyContentLabel: string := "\n응답 내용: "

  /** The HTTP status of every failure. */
  const InternalServerError: nat := 500

  /** The keys copied from the parsed reply, in the order they are read. */
  const ResponseKeys: seq<string> := ["title", "subtitles", "narration", "visual_suggestions"]

  /** The request body (`VideoRequest`). */
  datatype VideoRequest = VideoRequest(videoUrl: string, apiKey: string, style: string)

  /** The response body (`ShortsScriptResponse`). */
  datatype ShortsScript = ShortsScript(title: string, subtitles: string, narration: string, visualSuggestions: string)

  /** What the endpoint answers: the script, or an `HTTPException` with a status and a detail. */
  datatype Response = Success(script: ShortsScript) | HttpError(status: nat, detail: string)

  /** The external collaborators, each returning its result or the message of its exception:
      `fetch` maps a video id to the joined transcript text; `complete` maps the API key,
      transcript and style to the model's reply content; `parse` is `json.loads`, with a
      JSON object read as a map from keys to string values. */
  datatype Services = Services(
    fetch: string -> Result<string>,
    complete: (string, string, string) -> Result<string>,
    parse: string -> Result<map<string, string>>)

  /** `download_transcript`: an invalid URL is rejected before the transcript service is
      called; every failure is reported with the download prefix. */
  function DownloadTranscript(videoUrl: string, fetch: string -> Result<string>): (r: Result<string>)
    ensures VideoId.GetVideoId(videoUrl).None? ==> r == Err(DownloadFailurePrefix + InvalidUrlMessage)
    ensures r.Ok? ==> VideoId.GetVideoId(videoUrl).Some? && r == fetch(VideoId.GetVideoId(videoUrl).value)
    ensures r.Err? ==> DownloadFailurePrefix <= r.msg
    ensures VideoId.GetVideoId(videoUrl).Some? && fetch(VideoId.GetVideoId(videoUrl).value).Err? ==>
              r == Err(DownloadFailurePrefix + fetch(VideoId.GetVideoId(videoUrl).value).msg)
    ensures VideoId.GetVideoId(videoUrl).Some? && fetch(VideoId.GetVideoId(videoUrl).value).Ok? ==>
              r == fetch(VideoId.GetVideoId(videoUrl).value)
  {
    match VideoId.GetVideoId(videoUrl)
    case None => Err(DownloadFailurePrefix + InvalidUrlMessage)
    case Some(id) =>
      match fetch(id)
      case Ok(text) => Ok(text)
      case Err(e) => Err(DownloadFailurePrefix + e)
  }

  /** `generate_shorts_script`: an empty API key is rejected before the model is called;
      the model's reply is cleaned of a code fence and parsed; a parse failure reports
      the cleaned reply; any other failure is reported with the script prefix. */
  function GenerateShortsScript(transcript: string, apiKey: string, style: string,
                                complete: (string, string, string) -> Result<string>,
                                parse: string -> Result<map<string, string>>): (r: Result<map<string, string>>)
    ensures apiKey == "" ==> r == Err(ScriptFailurePrefix + MissingApiKeyMessage)
    ensures r.Ok? ==> apiKey != "" && complete(apiKey, transcript, style).Ok?
                      && r == parse(CodeFence.StripFences(complete(apiKey, transcript, style).value))
    ensures r.Err? ==> ScriptFailurePrefix <= r.msg || JsonFailurePrefix <= r.msg
    ensures apiKey != "" && complete(apiKey, transcript, style).Err? ==>
              r == Err(ScriptFailurePrefix + complete(apiKey, transcript, style).msg)
    ensures apiKey != "" && complete(apiKey, transcript, style).Ok? ==>
              var content := CodeFence.StripFences(complete(apiKey, transcript, style).value);
              parse(content).Err? ==> r == Err(JsonFailurePrefix + parse(content).msg + ReplyContentLabel + content)
    ensures apiKey != "" && complete(apiKey, transcript, style).Ok? ==>
              var content := CodeFence.StripFences(complete(apiKey, transcript, style).value);
              parse(content).Ok? ==> r == parse(content)
  {
    if apiKey == "" then Err(ScriptFailurePrefix + MissingApiKeyMessage)
    else
      match complete(apiKey, transcript, style)
      case Err(e) => Err(ScriptFailurePrefix + e)
      case Ok(reply) =>
        var content := CodeFence.StripFences(reply);
        match parse(content)
        case Err(e) => Err(JsonFailurePrefix + e + ReplyContentLabel + content)
        case Ok(result) => Ok(result)
  }

  /** `str(KeyError(key))`: the key in single quotes. */
  function KeyErrorMessage(key: string): string {
    "'" + key + "'"
  }

  /** The four keys are all present. */
  predicate HasResponseKeys(m: map<string, string>) {
    "title" in m && "subtitles" in m && "narration" in m && "visual_suggestions" in m
  }

  /** Builds `ShortsScriptResponse` from the parsed result: the four values are copied,
      other keys are ignored, and the first missing key (in reading order) raises `KeyError`. */
  function BuildResponse(m: map<string, string>): (r: Result<ShortsScript>)
    ensures r.Ok? <==> HasResponseKeys(m)
    ensures r.Ok? ==> HasResponseKeys(m) && r.value.title == m["title"] && r.value.subtitles == m["subtitles"]
                      && r.value.narration == m["narration"] && r.value.visualSuggestions == m["visual_suggestions"]
    ensures r.Err? ==> exists n :: 0 <= n < |ResponseKeys| && ResponseKeys[n] !in m
                                   && (forall j :: 0 <= j < n ==> ResponseKeys[j] in m)
                                   && r.msg == KeyErrorMessage(ResponseKeys[n])
  {
    assert ResponseKeys[0] == "title" && ResponseKeys[1] == "subtitles";
    assert ResponseKeys[2] == "narration" && ResponseKeys[3] == "visual_suggestions";
    if "title" !in m then Err(KeyErrorMessage("title"))
    else if "subtitles" !in m then Err(KeyErrorMessage("subtitles"))
    else if "narration" !in m then Err(KeyErrorMessage("narration"))
    else if "visual_suggestions" !in m then Err(KeyErrorMessage("visual_suggestions"))
    else Ok(ShortsScript(m["title"], m["subtitles"], m["narration"], m["visual_suggestions"]))
  }

  /** The `try` block of `generate_shorts`: each step's exception propagates. A success
      names a real video (the URL yields an id whose transcript was fetched) and had an
      API key; every failure carries one of the four kinds of message. */
  function Summarize(req: VideoRequest, services: Services): (r: Result<ShortsScript>)
    ensures r.Ok? ==> VideoId.GetVideoId(req.videoUrl).Some?
                      && services.fetch(VideoId.GetVideoId(req.videoUrl).value).Ok?
                      && req.apiKey != ""
    ensures r.Err? ==> DownloadFailurePrefix <= r.msg || ScriptFailurePrefix <= r.msg || JsonFailurePrefix <= r.msg
                       || exists n :: 0 <= n < |ResponseKeys| && r.msg == KeyErrorMessage(ResponseKeys[n])
    ensures var d := DownloadTranscript(req.videoUrl, services.fetch);
            d.Err? ==> r == Err(d.msg)
    ensures var d := DownloadTranscript(req.videoUrl, services.fetch);
            d.Ok? ==>
              var g := GenerateShortsScript(d.value, req.apiKey, req.style, services.complete, services.parse);
              (g.Err? ==> r == Err(g.msg)) && (g.Ok? ==> r == BuildResponse(g.value))
  {
    var transcript :- DownloadTranscript(req.videoUrl, services.fetch);
    var script :- GenerateShortsScript(transcript, req.apiKey, req.style, services.complete, services.parse);
    BuildResponse(script)
  }

  /** `generate_shorts`: the script on success; otherwise status 500 with the exception's message. */
  function GenerateShorts(req: VideoRequest, services: Services): (r: Response)
    ensures r.HttpError? ==> r.status == InternalServerError
    ensures r.HttpError? <==> Summarize(req, services).Err?
    ensures r.HttpError? ==> r.detail == Summarize(req, services).msg
    ensures r.Success? ==> r.script == Summarize(req, services).value
  {
    match Summarize(req, services)
    case Ok(script) => Success(script)
    case Err(e) => HttpError(InternalServerError, e)
  }

  /** An invalid URL fails with status 500 and the download error, whatever the services would
      have done: neither the transcript service nor the model is consulted. */
  lemma InvalidUrlRejectedBeforeAnyCall(req: VideoRequest, services: Services)
    requires VideoId.GetVideoId(req.videoUrl).None?
    ensures GenerateShorts(req, services)
            == HttpError(InternalServerError, DownloadFailurePrefix + InvalidUrlMessage)
  {
  }

  /** With a valid URL and a transcript, an empty API key fails with status 500 and the
      missing-key error, whatever the model and the parser would have done. */
  lemma EmptyApiKeyRejectedBeforeModelCall(req: VideoRequest, services: Services)
    requires req.apiKey == ""
    requires DownloadTranscript(req.videoUrl, services.fetch).Ok?
    ensures GenerateShorts(req, services)
            == HttpError(InternalServerError, ScriptFailurePrefix + MissingApiKeyMessage)
  {
  }

  /** Once the reply has been parsed into `m`, the answer depends on `m` alone: the four values
      when all four keys are present, otherwise status 500 naming the first missing key. */
  lemma ParsedReplyDecidesResponse(req: VideoRequest, services: Services, transcript: string, reply: string,
                                   m: map<string, string>)
    requires DownloadTranscript(req.videoUrl, services.fetch) == Ok(transcript)
    requires req.apiKey != ""
    requires services.complete(req.apiKey, transcript, req.style) == Ok(reply)
    requires services.parse(CodeFence.StripFences(reply)) == Ok(m)
    ensures HasResponseKeys(m) ==>
              GenerateShorts(req, services)
              == Success(ShortsScript(m["title"], m["subtitles"], m["narration"], m["visual_suggestions"]))
    ensures !HasResponseKeys(m) ==>
              GenerateShorts(req, services) == HttpError(InternalServerError, BuildResponse(m).msg)
  {
    assert GenerateShortsScript(transcript, req.apiKey, req.style, services.complete, services.parse) == Ok(m);
    assert Summarize(req, services) == BuildResponse(m);
  }

  /** Extra keys in the parsed reply are ignored: two results that agree on the four keys
      give the same response. */
  lemma ExtraKeysIgnored(m: map<string, string>, m': map<string, string>)
    requires forall n :: 0 <= n < |ResponseKeys| ==>
               (ResponseKeys[n] in m <==> ResponseKeys[n] in m')
               && (ResponseKeys[n] in m ==> m[ResponseKeys[n]] == m'[ResponseKeys[n]])
    ensures BuildResponse(m) == BuildResponse(m')
  {
    assert ResponseKeys[0] == "title" && ResponseKeys[1] == "subtitles";
    assert ResponseKeys[2] == "narration" && ResponseKeys[3] == "visual_suggestions";
  }
}
