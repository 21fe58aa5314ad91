# YouTube & Website Summarizer — a Dafny model of its URL and text handling

The repository holds two near-identical Streamlit apps. Each takes a URL, and
if the URL names a YouTube video it flattens the video's transcript into one
string; otherwise it takes the visible text of the web page. It then asks a
hosted language model for a summary. `info/taapp.py` summarizes transcripts
with a map-reduce chain and pages with one prompt. `info/app.py` uses one
prompt for both.

The logic the apps implement themselves is small and pure, and this project
models all of it:

- **`extract_video_id`** (`VideoId`), identical in both apps. It is a Python
  `re.search` for `(?:v=|youtu\.be/)([a-zA-Z0-9_-]{11})` that returns group 1.
  - The declarative half says what a match at index `i` is (`MatchesAt`): the
    literal `v=` or `youtu.be/` at `i`, then eleven characters of the class.
    It also says which match the search reports: group 1 of the leftmost
    match (`LeftmostGroup`). The properties of the search are proved about
    that definition.
  - The operational half runs the search the way the regex engine does. It
    compares literals character by character (`LiteralAt`), counts the
    repetition (`ClassRunAt`), tries the alternatives in their written order
    (`TryAt`) and scans start indices `0..|url|` (`SearchFrom`).
  - `ExtractVideoId` is proved to return exactly `LeftmostGroup`: `None`
    when no index matches, and otherwise group 1 of the leftmost match.
  - Further consequences are proved as lemmas: the ID's shape, the prefix
    that precedes it, the lack of an end anchor, and that failed candidates
    are skipped.
- **Transcript flattening** (`Transcript`): `" ".join([t.text for t in
  transcript_list])`.
  - `JoinWithSpace` is Python's `" ".join`. Its length and the position of
    every piece and every separator are proved.
  - It is paired with `SplitOnSpace`, Python's `str.split(" ")`. Join undoes
    split for every string. Split undoes join for a non-empty list of pieces
    that contain no space.
- **The button handler** (`Request`, `MapReduceApp`, `DirectApp`).
  - An empty URL is rejected with "Please enter a URL" before anything runs.
  - Otherwise the video branch is taken exactly when an ID is found. `if
    video_id:` tests truthiness, which agrees with `is not None` because an
    ID always has eleven characters.
  - The video branch flattens the transcript. The web branch joins the
    stripped text pieces of the `<main>` element if there is one, and of the
    whole page otherwise.
  - The text goes to the model, and any exception becomes "Failed to
    summarize content: " followed by the exception's message.
  - The transcript service, the page fetch with its HTML parsing, the
    map-reduce chain and the one-prompt chain are function parameters that
    either return a value or raise. Each branch is proved to use only its own
    collaborators.

Behaviour of the code worth knowing:

- Only `v=` and `youtu.be/` are recognized, and `v=` counts anywhere in the
  URL, for example inside `nav=`.
- The page fetch does not check the HTTP status, so a 404 page is parsed and
  summarized like any other. The model lets `fetchPage` return a page for it.
- No size-based choice between direct and map-reduce summarization exists.
  `info/app.py` always sends the whole text in one prompt.
- There is no chunker or reducer in these files. `info/taapp.py` delegates
  both to the library's map-reduce chain.

## Model

| member | source | states |
|---|---|---|
| `VideoId.LiteralAt` | info/taapp.py:47 | comparing a prefix literal character by character succeeds exactly when the literal occurs at that index |
| `VideoId.ClassRunAt` | info/taapp.py:47 | the repetition `[a-zA-Z0-9_-]{n}` succeeds at `k` exactly when the `n` characters from `k` exist and all belong to the class |
| `VideoId.TryAt` | info/taapp.py:47 | trying both alternatives at one start index succeeds exactly when the pattern matches there, and yields the start of group 1 |
| `VideoId.SearchFrom` | info/app.py:41 | the start-index scan of `re.search`; its own contract only bounds the start of a found match to the scanned range, and what it finds is carried by `SearchFromNone` and `SearchFromSome` |
| `VideoId.SearchFromNone` | info/taapp.py:48 | the scan from `from` (up to and including the end of the URL) finds nothing exactly when no index from `from` on matches |
| `VideoId.SearchFromSome` | info/taapp.py:48 | a scan that finds something stops at the first index from `from` on that matches, and reports the start of that match's group 1 |
| `VideoId.ExtractVideoId` | info/taapp.py:42-49 | the result is what the search reports (`LeftmostGroup`): `None` exactly when no index matches, and otherwise an 11-character ID over `[A-Za-z0-9_-]` |
| `VideoId.GroupAt` | info/taapp.py:49 | group 1 of a match is a well-formed ID: 11 characters from the class |
| `VideoId.AlternativesExclusive` | info/taapp.py:47 | `v=` and `youtu.be/` never both occur at one index, so the order of the alternatives cannot change a match |
| `VideoId.LeftmostMatchExists` | info/app.py:41 | whenever some index matches, a leftmost match exists, so `re.search` finds one |
| `VideoId.LeftmostGroupAt` | info/app.py:41-42 | when the leftmost match starts at `i`, the search reports exactly group 1 of that match |
| `VideoId.LeftmostGroupNone` | info/app.py:41-42 | the search reports `None` exactly when the pattern matches at no index |
| `VideoId.LeftmostGroupFollowsPrefix` | info/app.py:40-42 | a reported ID has 11 class characters and is a contiguous substring of the URL immediately preceded by `v=` or `youtu.be/` |
| `VideoId.EarlierMatchInside` | info/app.py:40-41 | a match of the extended URL that starts before a match of the original lies wholly inside the original |
| `VideoId.LeftmostGroupIgnoresSuffix` | info/app.py:40-42 | no end anchor: appending anything to a URL that yields an ID leaves the ID unchanged, so characters past the eleventh are ignored |
| `VideoId.MatchesAtShift` | info/taapp.py:47 | whether a match starts at an index of `b` does not depend on the text placed before `b` |
| `VideoId.GroupAtShift` | info/taapp.py:47-49 | a match of `b` is also a match of `a + b`, shifted by the length of `a`, with the same group 1 |
| `VideoId.LeftmostMatchShift` | info/taapp.py:48 | when no match starts inside `a`, the leftmost match of `b` is the leftmost match of `a + b`, with the same group 1 |
| `VideoId.NoMatchShift` | info/taapp.py:48 | when no match starts inside `a` and none in `b`, none starts anywhere in `a + b` |
| `VideoId.LeftmostGroupSkipsUnmatchedPrefix` | info/taapp.py:48-49 | failed candidates, such as a `v=` followed by fewer than 11 ID characters, do not stop the search: the result is that of the remaining text |
| `VideoId.ExtractVideoIdIsLeftmost` | info/app.py:34-42 | whenever the leftmost match starts at `i`, `extract_video_id` returns exactly group 1 of that match |
| `VideoId.ExtractedIdFollowsPrefix` | info/app.py:40-42 | an ID returned by `extract_video_id` immediately follows `v=` or `youtu.be/` in the URL |
| `VideoId.ExtractVideoIdIgnoresSuffix` | info/taapp.py:42-49 | appending anything to a URL for which `extract_video_id` returns an ID leaves its result unchanged |
| `VideoId.ExtractVideoIdSkipsUnmatchedPrefix` | info/taapp.py:42-49 | if no match starts inside `a`, `extract_video_id(a + b)` equals `extract_video_id(b)` |
| `Transcript.JoinWithSpace` | info/taapp.py:71 | an empty list joins to `""`; otherwise the length is the sum of the piece lengths plus one per gap |
| `Transcript.Texts` | info/app.py:61 | the comprehension keeps one text per snippet, in snippet order |
| `Transcript.TranscriptText` | info/app.py:61 | an empty transcript flattens to `""`; otherwise the length is the total text length plus one space per gap |
| `Transcript.JoinWithSpacePlacesParts` | info/app.py:61 | piece `k` stands at its offset and is followed by exactly one space unless it is last; the next piece starts right after that space and the last piece ends the string, so nothing else is added |
| `Transcript.JoinWithSpacePlacesAll` | info/app.py:61 | every piece, in order, stands at its offset in the joined string |
| `Transcript.JoinWithSpaceAppend` | info/taapp.py:71 | joining `a + b` is joining `a`, then a single space, then joining `b` |
| `Transcript.SplitOnSpace` | info/taapp.py:71 | the inverse partner of the join (Python's `split(" ")`): at least one piece, and no piece contains a space |
| `Transcript.JoinSplitOnSpace` | info/taapp.py:71 | joining the pieces of a split gives back the original string, for every string |
| `Transcript.SplitJoinWithSpace` | info/app.py:61 | splitting a join of a non-empty list of space-free pieces gives the list back: no piece is lost, merged or reordered |
| `Transcript.JoinWithSpacePlacesFirst` | info/taapp.py:71 | the first piece opens the joined string, and a space follows it unless it is the only piece |
| `Transcript.JoinWithSpaceExtendFirst` | info/taapp.py:71 | putting a character in front of the first piece puts it in front of the joined string |
| `Transcript.TranscriptTextExample` | info/taapp.py:70-71 | the snippets "we", "can", "go" flatten to "we can go" |
| `Request.FailureMessage` | info/taapp.py:136-137 | the catch-all message is "Failed to summarize content: " followed by exactly the exception's text |
| `Request.Classify` | info/taapp.py:67-68 | the video branch is taken exactly when an ID is found, and it uses that ID; otherwise no index matches and the web-page branch gets the URL itself |
| `Request.IsTruthy` | info/taapp.py:68 | `if video_id:` is true only for a found ID, and true for every well-formed 11-character ID |
| `Request.PageText` | info/app.py:71-77 | with a `<main>` element its pieces, otherwise the whole page's pieces, each stand in order at its offset in the text, with one space per gap accounting for the length |
| `Request.SourceText` | info/taapp.py:70-71 | the video branch yields the flattened transcript of the fetched snippets, the web branch the page text of the fetched page; an exception from either fetch is passed on with its message unchanged |
| `Request.SourceTextUsesOnlyItsFetch` | info/app.py:57-77 | the video branch's text depends only on the transcript service, the web branch's only on the page fetch |
| `Request.PageTextPrefersMain` | info/app.py:71-77 | with a `<main>` element, only its text reaches the model; without one, the whole page's text does |
| `MapReduceApp.Summarize` | info/taapp.py:54-137 | rejected with "Please enter a URL" exactly when the URL is empty; shown under "YouTube Summary:" exactly for URLs with an ID, else under "Website Summary:"; any failure carries the catch-all prefix |
| `MapReduceApp.VideoBranch` | info/taapp.py:67-106 | for a URL with an ID, the flattened transcript of that ID is the one document given to the map-reduce chain with the map and combine prompts; the page fetch and the one-prompt chain are never used |
| `MapReduceApp.WebPageBranch` | info/taapp.py:111-134 | for a non-empty URL without an ID, the page text goes to the website prompt; the transcript service and the map-reduce chain are never used |
| `DirectApp.Summarize` | info/app.py:47-107 | rejected with "Please enter a URL" exactly when the URL is empty; results are shown under "Summary:"; any failure carries the catch-all prefix |
| `DirectApp.VideoBranch` | info/app.py:56-61 | for a URL with an ID, the flattened transcript of that ID is what the prompt summarizes; the page fetch is never used |
| `DirectApp.WebPageBranch` | info/app.py:62-77 | for a non-empty URL without an ID, the page text is what the prompt summarizes; the transcript service is never used |

## Left out

- Streamlit presentation (title, caption, input box, button, spinner, subheader) is left out. Only what ends up on screen is modelled, as `Outcome`.
- The `.env` loading and the missing-API-key stop in `info/taapp.py` (lines 21-26) are left out. They are environment plumbing.
- Constructing the `ChatGroq` client is left out. Whether it raises inside the handler is not modelled.
- `requests.get` and BeautifulSoup's parsing are left out. They are network I/O and library internals. `fetchPage` stands for both and returns the stripped text pieces.
- `YouTubeTranscriptApi().fetch` is a parameter (`fetchTranscript`). It is an external service.
- `load_summarize_chain`, `LLMChain` and `ChatGroq` calls are parameters (`mapReduce`, `complete`). Their output has no stateable contract. The chain's chunking and recursive combining live in the library, not in these files.
- Exception types are left out. Only the message `str(e)` is kept, because it is all the handler uses.
- The `start` and `duration` of transcript snippets are carried but never read, as in the apps. Floating point is modelled as `real`.
