/**
  The short-circuit flow of `summarize_video`.

  The network-facing collaborators are parameters: `listingOf` is the
  transcript service's answer for a video id, `titleOf` the page-title
  lookup (which never fails: it has its own fallback title), and `generate`
  the text the language model returns for a prompt.
 */
module Summarizer {
  import opened Wrappers
  import VideoId
  import Transcript

  /** Only this many leading characters of the transcript go into the prompt. */
  const TranscriptLimit: nat := 8000

  const InvalidUrlMessage: string :=
    "Erro: URL do YouTube inválida. Por favor, verifique o link."

  const NoTranscriptMessage: string :=
    "Erro: Não foi possível extrair a transcrição automática do vídeo. Verifique se as legendas automáticas estão disponíveis."

  /** Python's `s[:n]`: the longest prefix of `s` with at most `n` characters. */
  function Truncate(s: string, n: nat): (r: string)
    ensures r <= s
    ensures |r| <= n
    ensures |s| <= n ==> r == s
    ensures |s| >= n ==> |r| == n
  {
    if |s| <= n then s else s[..n]
  }

  /** The prompt text up to where the transcript is inserted. */
  function PromptHead(title: string): (r: string) {
    "\n    Por favor, faça um resumo conciso e informativo do seguinte conteúdo,"
    + "\n    mantendo os pontos principais e ideias centrais. Se o texto estiver em inglês,"
    + "\n    faça o resumo em português:"
    + "\n    "
    + "\n    Título: " + title
    + "\n    "
    + "\n    Conteúdo:"
    + "\n    "
  }

  /** The prompt text after the transcript. */
  const PromptTail: string :=
    "\n    "
    + "\n    Instruções:"
    + "\n    - Identifique e mantenha os pontos principais"
    + "\n    - Organize o conteúdo de forma lógica e coesa"
    + "\n    - Explique termos técnicos de forma simples"
    + "\n    - Mantenha um tom profissional e acessível"
    + "\n    - Corrija possíveis erros da transcrição automática"
    + "\n    "

  /** The prompt sent to the model: fixed instructions, the title, and the truncated transcript. */
  function BuildPrompt(title: string, transcript: string): (r: string)
    ensures |r| <= |PromptHead(title)| + TranscriptLimit + |PromptTail|
    ensures PromptHead(title) <= r
  {
    PromptHead(title) + Truncate(transcript, TranscriptLimit) + PromptTail
  }

  /** `summarize_video(link, api_key)`, with the collaborators passed in. */
  function SummarizeVideo(link: string,
                          listingOf: string -> Option<seq<Transcript.Track>>,
                          titleOf: string -> string,
                          generate: string -> string): (r: string)
    ensures VideoId.GetVideoId(link).None? ==> r == InvalidUrlMessage
    ensures VideoId.GetVideoId(link).Some? ==>
              var transcript := Transcript.GetAutoTranscript(listingOf(VideoId.GetVideoId(link).value));
              (transcript.None? || transcript.value == "") ==> r == NoTranscriptMessage
    ensures VideoId.GetVideoId(link).Some? ==>
              var id := VideoId.GetVideoId(link).value;
              var transcript := Transcript.GetAutoTranscript(listingOf(id));
              (transcript.Some? && transcript.value != "") ==>
                r == generate(BuildPrompt(titleOf(id), transcript.value))
  {
    match VideoId.GetVideoId(link)
    case None => InvalidUrlMessage
    case Some(id) =>
      var title := titleOf(id);
      match Transcript.GetAutoTranscript(listingOf(id))
      case None => NoTranscriptMessage
      case Some(transcript) =>
        if transcript == "" then NoTranscriptMessage
        else generate(BuildPrompt(title, transcript))
  }

  // ---------------------------------------------------------------------------
  // The prompt sees only the first 8000 characters of the transcript.
  // ---------------------------------------------------------------------------

  /** The prompt is the fixed text around exactly the first `TranscriptLimit` characters (or all, if fewer). */
  lemma PromptEmbedsTranscriptPrefix(title: string, transcript: string)
    ensures var head := PromptHead(title);
            var n := if |transcript| <= TranscriptLimit then |transcript| else TranscriptLimit;
            |BuildPrompt(title, transcript)| == |head| + n + |PromptTail|
            && BuildPrompt(title, transcript)[..|head|] == head
            && BuildPrompt(title, transcript)[|head|..|head| + n] == transcript[..n]
            && BuildPrompt(title, transcript)[|head| + n..] == PromptTail
  {
  }

  /** Two transcripts with the same first `TranscriptLimit` characters give the same prompt. */
  lemma PromptDependsOnlyOnPrefix(title: string, t1: string, t2: string)
    requires Truncate(t1, TranscriptLimit) == Truncate(t2, TranscriptLimit)
    ensures BuildPrompt(title, t1) == BuildPrompt(title, t2)
  {
  }

  /** Transcripts that agree on their first `TranscriptLimit` characters produce the same summary. */
  lemma OnlyTranscriptPrefixMatters(link: string,
                                    listingOf1: string -> Option<seq<Transcript.Track>>,
                                    listingOf2: string -> Option<seq<Transcript.Track>>,
                                    titleOf: string -> string,
                                    generate: string -> string)
    requires VideoId.GetVideoId(link).Some?
    requires var id := VideoId.GetVideoId(link).value;
             var t1 := Transcript.GetAutoTranscript(listingOf1(id));
             var t2 := Transcript.GetAutoTranscript(listingOf2(id));
             t1.Some? && t2.Some? && Truncate(t1.value, TranscriptLimit) == Truncate(t2.value, TranscriptLimit)
    ensures SummarizeVideo(link, listingOf1, titleOf, generate) == SummarizeVideo(link, listingOf2, titleOf, generate)
  {
    var id := VideoId.GetVideoId(link).value;
    var t1 := Transcript.GetAutoTranscript(listingOf1(id)).value;
    var t2 := Transcript.GetAutoTranscript(listingOf2(id)).value;
    assert t1 == "" <==> t2 == "";
    PromptDependsOnlyOnPrefix(titleOf(id), t1, t2);
  }

  // ---------------------------------------------------------------------------
  // End-to-end scenarios.
  // ---------------------------------------------------------------------------

  /** A watch URL whose video has a generated English track reaches the model with that track's text. */
  lemma WatchUrlWithEnglishTrack(id: string, text: string,
                                 listingOf: string -> Option<seq<Transcript.Track>>,
                                 titleOf: string -> string,
                                 generate: string -> string)
    requires VideoId.IsVideoId(id) && text != ""
    requires listingOf(id) == Some([Transcript.Track("en", true, Some([text]))])
    ensures SummarizeVideo("https://www.youtube.com/watch?v=" + id, listingOf, titleOf, generate)
            == generate(BuildPrompt(titleOf(id), text))
  {
    var url := "https://www.youtube.com/watch?v=" + id;
    assert VideoId.GetVideoId(url) == Some(id) by {
      VideoId.WatchUrlYieldsId(id, "");
      assert url + "" == url;
    }
    Transcript.SingleEnglishTrack(text);
  }

  /**
    A non-YouTube URL is not necessarily rejected as invalid: a host of
    eleven id characters (such as `not-youtube`) is taken for an identifier,
    and the flow goes on to the transcript lookup.
   */
  lemma NonYouTubeUrlReachesTranscriptLookup(host: string, rest: string,
                                             listingOf: string -> Option<seq<Transcript.Track>>,
                                             titleOf: string -> string,
                                             generate: string -> string)
    requires VideoId.IsVideoId(host) && listingOf(host) == None
    ensures SummarizeVideo("https://" + host + rest, listingOf, titleOf, generate) == NoTranscriptMessage
    ensures NoTranscriptMessage != InvalidUrlMessage
  {
    assert |InvalidUrlMessage| == 59 && |NoTranscriptMessage| == 121;
    VideoId.HostTakenForId(host, rest);
  }
}
