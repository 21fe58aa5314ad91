/**
 * What both summarizer apps do with the URL once the button is pressed, up to
 * the text that goes to the language model: reject an empty URL, decide
 * between the video branch and the web-page branch, and obtain the text.
 *
 * The transcript service, the page fetch with its HTML parsing, and the model
 * are not part of this model; they are passed in as functions that either
 * return a value or raise an exception.
 */
module Request {
  import opened Wrappers
  import opened VideoId
  import opened Transcript

  /** What a call into a library or service gives back: its value, or the exception it raised, as `str(e)`. */
  datatype Call<T> = Returned(value: T) | Raised(message: string)

  /**
   * A parsed page, as far as the apps look at it: the stripped, non-empty text
   * pieces of the first `<main>` element, if the page has one, and those of the
   * whole page.
   */
  datatype Page = Page(main: Option<seq<string>>, all: seq<string>)

  /** Where the text to summarize comes from. */
  datatype Source = Video(id: string) | WebPage(url: string)

  /** What the screen shows after the button is pressed. */
  datatype Outcome =
    | Rejected(message: string)               // st.error before anything is fetched
    | Shown(heading: string, summary: string)  // st.subheader, then st.write
    | Failed(message: string)                 // st.error from the catch-all handler

  const EmptyUrlMessage: string := "Please enter a URL"
  const FailurePrefix: string := "Failed to summarize content: "

  /** The catch-all handler's message for an exception `e`: `f"Failed to summarize content: {e}"`. */
  function FailureMessage(e: string): (message: string)
    ensures FailurePrefix <= message
    ensures message[|FailurePrefix|..] == e
  {
    FailurePrefix + e
  }

  /** Python truthiness of `extract_video_id`'s result, as tested by `if video_id:`. */
  function IsTruthy(id: Option<string>): (truthy: bool)
    ensures truthy ==> id.Some?
    ensures id.Some? && IsId(id.value) ==> truthy
  {
    id.Some? && id.value != []
  }

  /**
   * The branch taken for a (non-empty) URL. `if video_id:` tests truthiness, not
   * `is not None`; since every ID has eleven characters the two agree, so the
   * video branch is taken exactly when an ID is found.
   */
  function Classify(url: string): (src: Source)
    ensures src.Video? <==> ExtractVideoId(url).Some?
    ensures src.Video? ==> ExtractVideoId(url) == Some(src.id)
    ensures src.WebPage? <==> forall i: nat :: !MatchesAt(url, i)
    ensures src.WebPage? ==> src.url == url
  {
    var id := ExtractVideoId(url);
    if IsTruthy(id) then Video(id.value) else WebPage(url)
  }

  /**
   * Text of a page: the text of its `<main>` element when it has one (a found
   * tag is always truthy), otherwise all its visible text; either way the
   * stripped pieces joined with single spaces.
   */
  function PageText(page: Page): (text: string)
    ensures page.main.Some? ==> forall k :: 0 <= k < |page.main.value| ==> PlacedAt(text, page.main.value, k)
    ensures page.main.None? ==> forall k :: 0 <= k < |page.all| ==> PlacedAt(text, page.all, k)
    ensures page.main.Some? && page.main.value != [] ==>
      |text| == TotalLength(page.main.value) + |page.main.value| - 1
    ensures page.main.None? && page.all != [] ==> |text| == TotalLength(page.all) + |page.all| - 1
  {
    JoinWithSpacePlacesAll(if page.main.Some? then page.main.value else page.all);
    match page.main
    case Some(pieces) => JoinWithSpace(pieces)
    case None => JoinWithSpace(page.all)
  }

  /**
   * When a page has a `<main>` element, nothing outside it reaches the text;
   * when it has none, the whole page's pieces decide the text.
   */
  lemma PageTextPrefersMain(p: Page, q: Page)
    ensures p.main.Some? && p.main == q.main ==> PageText(p) == PageText(q)
    ensures p.main.None? && q.main.None? && p.all == q.all ==> PageText(p) == PageText(q)
  {
  }

  /**
   * The text of the chosen source: the flattened transcript of the video, or
   * the text of the fetched page. An exception from the fetch is passed on
   * with its message unchanged.
   */
  function SourceText(src: Source, fetchTranscript: string -> Call<seq<Snippet>>, fetchPage: string -> Call<Page>): (r: Call<string>)
    ensures src.Video? ==> (r.Raised? <==> fetchTranscript(src.id).Raised?)
    ensures src.Video? && r.Raised? ==> r.message == fetchTranscript(src.id).message
    ensures src.Video? && r.Returned? ==> r.value == TranscriptText(fetchTranscript(src.id).value)
    ensures src.WebPage? ==> (r.Raised? <==> fetchPage(src.url).Raised?)
    ensures src.WebPage? && r.Raised? ==> r.message == fetchPage(src.url).message
    ensures src.WebPage? && r.Returned? ==> r.value == PageText(fetchPage(src.url).value)
  {
    match src
    case Video(id) =>
      (match fetchTranscript(id)
       case Raised(e) => Raised(e)
       case Returned(snippets) => Returned(TranscriptText(snippets)))
    case WebPage(u) =>
      (match fetchPage(u)
       case Raised(e) => Raised(e)
       case Returned(page) => Returned(PageText(page)))
  }

  /**
   * Each branch uses only its own collaborator: the video branch never looks at
   * the page fetch, the web-page branch never at the transcript service.
   */
  lemma SourceTextUsesOnlyItsFetch(
    src: Source,
    fetchTranscript: string -> Call<seq<Snippet>>, fetchTranscript': string -> Call<seq<Snippet>>,
    fetchPage: string -> Call<Page>, fetchPage': string -> Call<Page>)
    ensures src.Video? && fetchTranscript(src.id) == fetchTranscript'(src.id) ==>
      SourceText(src, fetchTranscript, fetchPage) == SourceText(src, fetchTranscript', fetchPage')
    ensures src.WebPage? && fetchPage(src.url) == fetchPage'(src.url) ==>
      SourceText(src, fetchTranscript, fetchPage) == SourceText(src, fetchTranscript', fetchPage')
  {
  }
}
