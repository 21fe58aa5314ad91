/**
 * The button handler of the map-reduce app: a transcript is summarized by a
 * map-reduce chain (a map prompt per part, a combine prompt over the partial
 * summaries), a web page by one direct prompt.
 *
 * The chain itself (how it splits the document, how often it calls the model)
 * belongs to the summarization library and is a parameter here.
 */
module MapReduceApp {
  import opened Wrappers
  import opened VideoId
  import opened Transcript
  import opened Request

  const MapTemplate: string := "Summarize this part of the transcript in simple terms:\n\n{text}"
  const CombineTemplate: string := "Combine the following partial summaries into a final concise summary:\n\n{text}"
  const WebsiteTemplate: string := "Summarize the following website content in simple terms:\n\n{text}"
  const VideoHeading: string := "YouTube Summary:"
  const WebsiteHeading: string := "Website Summary:"

  /**
   * Pressing "Summarize" with `url` in the input box.
   *   fetchTranscript(id)             the transcript service
   *   fetchPage(url)                  the page fetch and its parsing
   *   mapReduce(map, combine, docs)   the map-reduce chain run on the documents `docs`
   *   complete(template, text)        a one-prompt chain run on `text`
   */
  function Summarize(
    url: string,
    fetchTranscript: string -> Call<seq<Snippet>>,
    fetchPage: string -> Call<Page>,
    mapReduce: (string, string, seq<string>) -> Call<string>,
    complete: (string, string) -> Call<string>
  ): (o: Outcome)
    ensures o.Rejected? <==> url == []
    ensures o.Rejected? ==> o.message == EmptyUrlMessage
    ensures o.Shown? ==> o.heading == if ExtractVideoId(url).Some? then VideoHeading else WebsiteHeading
    ensures o.Failed? ==> FailurePrefix <= o.message
  {
    if url == [] then Rejected(EmptyUrlMessage)
    else
      var src := Classify(url);
      match SourceText(src, fetchTranscript, fetchPage)
      case Raised(e) => Failed(FailureMessage(e))
      case Returned(text) =>
        match src
        case Video(_) =>
          (match mapReduce(MapTemplate, CombineTemplate, [text])
           case Raised(e) => Failed(FailureMessage(e))
           case Returned(summary) => Shown(VideoHeading, summary))
        case WebPage(_) =>
          (match complete(WebsiteTemplate, text)
           case Raised(e) => Failed(FailureMessage(e))
           case Returned(summary) => Shown(WebsiteHeading, summary))
  }

  /**
   * A URL with an ID: the transcript of that ID, flattened, is the one document
   * given to the map-reduce chain, and its answer is shown; the page fetch and
   * the one-prompt chain are never used.
   */
  lemma VideoBranch(
    url: string, id: string,
    fetchTranscript: string -> Call<seq<Snippet>>,
    fetchPage: string -> Call<Page>, otherFetchPage: string -> Call<Page>,
    mapReduce: (string, string, seq<string>) -> Call<string>,
    complete: (string, string) -> Call<string>, otherComplete: (string, string) -> Call<string>
  )
    requires ExtractVideoId(url) == Some(id)
    ensures Summarize(url, fetchTranscript, fetchPage, mapReduce, complete)
         == Summarize(url, fetchTranscript, otherFetchPage, mapReduce, otherComplete)
    ensures fetchTranscript(id).Raised? ==>
      Summarize(url, fetchTranscript, fetchPage, mapReduce, complete) == Failed(FailureMessage(fetchTranscript(id).message))
    ensures fetchTranscript(id).Returned? ==>
      var text := TranscriptText(fetchTranscript(id).value);
      Summarize(url, fetchTranscript, fetchPage, mapReduce, complete)
        == match mapReduce(MapTemplate, CombineTemplate, [text])
           case Raised(e) => Failed(FailureMessage(e))
           case Returned(summary) => Shown(VideoHeading, summary)
  {
    assert url != [];
  }

  /**
   * A URL without an ID: the page text goes to the one-prompt chain with the
   * website template; the transcript service and the map-reduce chain are never used.
   */
  lemma WebPageBranch(
    url: string,
    fetchTranscript: string -> Call<seq<Snippet>>, otherFetchTranscript: string -> Call<seq<Snippet>>,
    fetchPage: string -> Call<Page>,
    mapReduce: (string, string, seq<string>) -> Call<string>, otherMapReduce: (string, string, seq<string>) -> Call<string>,
    complete: (string, string) -> Call<string>
  )
    requires url != [] && ExtractVideoId(url).None?
    ensures Summarize(url, fetchTranscript, fetchPage, mapReduce, complete)
         == Summarize(url, otherFetchTranscript, fetchPage, otherMapReduce, complete)
    ensures fetchPage(url).Raised? ==>
      Summarize(url, fetchTranscript, fetchPage, mapReduce, complete) == Failed(FailureMessage(fetchPage(url).message))
    ensures fetchPage(url).Returned? ==>
      Summarize(url, fetchTranscript, fetchPage, mapReduce, complete)
        == match complete(WebsiteTemplate, PageText(fetchPage(url).value))
           case Raised(e) => Failed(FailureMessage(e))
           case Returned(summary) => Shown(WebsiteHeading, summary)
  {
  }
}
