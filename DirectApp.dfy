/**
 * The button handler of the direct app: the text of the video transcript or of
 * the web page goes, whole, to one prompt, and the answer is shown.
 */
module DirectApp {
  import opened Wrappers
  import opened VideoId
  import opened Transcript
  import opened Request

  const ContentTemplate: string := "Summarize the following content in simple terms:\n\n{text}"
  const SummaryHeading: string := "Summary:"

  /**
   * Pressing "Summarize" with `url` in the input box.
   *   fetchTranscript(id)        the transcript service
   *   fetchPage(url)             the page fetch and its parsing
   *   complete(template, text)   the one-prompt chain run on `text`
   */
  function Summarize(
    url: string,
    fetchTranscript: string -> Call<seq<Snippet>>,
    fetchPage: string -> Call<Page>,
    complete: (string, string) -> Call<string>
  ): (o: Outcome)
    ensures o.Rejected? <==> url == []
    ensures o.Rejected? ==> o.message == EmptyUrlMessage
    ensures o.Shown? ==> o.heading == SummaryHeading
    ensures o.Failed? ==> FailurePrefix <= o.message
  {
    if url == [] then Rejected(EmptyUrlMessage)
    else
      match SourceText(Classify(url), fetchTranscript, fetchPage)
      case Raised(e) => Failed(FailureMessage(e))
      case Returned(text) =>
        match complete(ContentTemplate, text)
        case Raised(e) => Failed(FailureMessage(e))
        case Returned(summary) => Shown(SummaryHeading, summary)
  }

  /**
   * A URL with an ID: the transcript of that ID, flattened, is what the prompt
   * summarizes; the page fetch is never used.
   */
  lemma VideoBranch(
    url: string, id: string,
    fetchTranscript: string -> Call<seq<Snippet>>,
    fetchPage: string -> Call<Page>, otherFetchPage: string -> Call<Page>,
    complete: (string, string) -> Call<string>
  )
    requires ExtractVideoId(url) == Some(id)
    ensures Summarize(url, fetchTranscript, fetchPage, complete) == Summarize(url, fetchTranscript, otherFetchPage, complete)
    ensures fetchTranscript(id).Raised? ==>
      Summarize(url, fetchTranscript, fetchPage, complete) == Failed(FailureMessage(fetchTranscript(id).message))
    ensures fetchTranscript(id).Returned? ==>
      Summarize(url, fetchTranscript, fetchPage, complete)
        == match complete(ContentTemplate, TranscriptText(fetchTranscript(id).value))
           case Raised(e) => Failed(FailureMessage(e))
           case Returned(summary) => Shown(SummaryHeading, summary)
  {
    assert url != [];
  }

  /**
   * A URL without an ID: the page text is what the prompt summarizes; the
   * transcript service is never used.
   */
  lemma WebPageBranch(
    url: string,
    fetchTranscript: string -> Call<seq<Snippet>>, otherFetchTranscript: string -> Call<seq<Snippet>>,
    fetchPage: string -> Call<Page>,
    complete: (string, string) -> Call<string>
  )
    requires url != [] && ExtractVideoId(url).None?
    ensures Summarize(url, fetchTranscript, fetchPage, complete) == Summarize(url, otherFetchTranscript, fetchPage, complete)
    ensures fetchPage(url).Raised? ==>
      Summarize(url, fetchTranscript, fetchPage, complete) == Failed(FailureMessage(fetchPage(url).message))
    ensures fetchPage(url).Returned? ==>
      Summarize(url, fetchTranscript, fetchPage, complete)
        == match complete(ContentTemplate, PageText(fetchPage(url).value))
           case Raised(e) => Failed(FailureMessage(e))
           case Returned(summary) => Shown(SummaryHeading, summary)
  {
  }
}
