/** `YouTubeTranscriptTool.forward`: find the video id in a watch URL with
    the pattern `v=([A-Za-z0-9_-]+)` (Python `re.search`: unanchored, the
    leftmost match wins, `+` is greedy), fetch the caption segments for it
    and join their texts with single spaces. */
module YouTubeTranscriptTool {
  import opened Environment
  import opened Strings

  const InvalidUrl := "Invalid YouTube URL."
  const FetchErrorPrefix := "Error fetching transcript: "

  /** The message of the `KeyError` raised by `seg["text"]` on a segment
      without a text. */
  const MissingTextMsg := "'text'"

  /** The character class `[A-Za-z0-9_-]`. */
  predicate IdChar(c: char)
  {
    'A' <= c <= 'Z' || 'a' <= c <= 'z' || '0' <= c <= '9' || c == '_' || c == '-'
  }

  /** The pattern can match starting at `i`: "v=" there, then at least one
      id character. */
  predicate MatchesAt(url: string, i: nat)
  {
    i + 2 < |url| && url[i] == 'v' && url[i + 1] == '=' && IdChar(url[i + 2])
  }

  /** The span `[start, end)` of a whole match; group 1 is `[start + 2, end)`. */
  datatype Match = Match(start: nat, end: nat)

  /** What `re.search` returns, defined by its properties: the pattern
      matches at `m.start`, at no earlier position, and the id run is as long
      as it can be. */
  ghost predicate IsSearchResult(url: string, m: Match)
  {
    MatchesAt(url, m.start) && m.start + 2 < m.end <= |url|
    && (forall k :: m.start + 2 <= k < m.end ==> IdChar(url[k]))
    && (m.end == |url| || !IdChar(url[m.end]))
    && (forall k: nat :: k < m.start ==> !MatchesAt(url, k))
  }

  /** The end of the longest run of id characters starting at `j`. */
  function RunEnd(url: string, j: nat): (e: nat)
    requires j <= |url|
    ensures j <= e <= |url|
    ensures forall k :: j <= k < e ==> IdChar(url[k])
    ensures e == |url| || !IdChar(url[e])
    decreases |url| - j
  {
    if j < |url| && IdChar(url[j]) then RunEnd(url, j + 1) else j
  }

  /** The first position at or after `from` where the pattern matches. */
  function SearchFrom(url: string, from: nat): (r: Option<nat>)
    ensures r.None? ==> forall k: nat :: from <= k ==> !MatchesAt(url, k)
    ensures r.Some? ==> from <= r.value && MatchesAt(url, r.value)
                        && forall k: nat :: from <= k < r.value ==> !MatchesAt(url, k)
    decreases |url| - from
  {
    if from + 2 >= |url| then None
    else if MatchesAt(url, from) then Some(from)
    else SearchFrom(url, from + 1)
  }

  /** `re.search(r"v=([A-Za-z0-9_-]+)", url)`. */
  function Search(url: string): (r: Option<Match>)
    ensures r.None? <==> forall k: nat :: !MatchesAt(url, k)
    ensures r.Some? ==> IsSearchResult(url, r.value)
  {
    match SearchFrom(url, 0)
    case None => None
    case Some(i) => Some(Match(i, RunEnd(url, i + 2)))
  }

  /** The properties of `IsSearchResult` pin the match down: `Search`
      returns the one span that has them. */
  lemma SearchResultUnique(url: string, m: Match)
    requires IsSearchResult(url, m)
    ensures Search(url) == Some(m)
  {
  }

  /** `match.group(1)`, or `None` when there is no match. */
  function ExtractId(url: string): (r: Option<string>)
    ensures r.None? <==> forall k: nat :: !MatchesAt(url, k)
    ensures r.Some? ==> |r.value| > 0 && forall k :: 0 <= k < |r.value| ==> IdChar(r.value[k])
    ensures r.Some? ==> exists m :: IsSearchResult(url, m) && r.value == url[m.start + 2..m.end]
    ensures forall m :: IsSearchResult(url, m) ==> r == Some(url[m.start + 2..m.end])
  {
    match Search(url)
    case None => None
    case Some(m) =>
      assert IsSearchResult(url, m);
      assert forall m' :: IsSearchResult(url, m') ==> m' == m by {
        forall m' | IsSearchResult(url, m') ensures m' == m { SearchResultUnique(url, m'); }
      }
      var id := url[m.start + 2..m.end];
      assert forall k :: 0 <= k < |id| ==> id[k] == url[m.start + 2 + k];
      Some(id)
  }

  /** One caption segment, a dictionary of which only the "text" key is
      read. */
  datatype Segment = Segment(text: Option<string>)

  predicate AllHaveText(segments: seq<Segment>)
  {
    forall k :: 0 <= k < |segments| ==> segments[k].text.Some?
  }

  /** `[seg["text"] for seg in segments]`. */
  function Texts(segments: seq<Segment>): (r: seq<string>)
    requires AllHaveText(segments)
    ensures |r| == |segments|
    ensures forall k :: 0 <= k < |r| ==> segments[k].text == Some(r[k])
  {
    seq(|segments|, k requires 0 <= k < |segments| => segments[k].text.value)
  }

  /** `YouTubeTranscriptTool.forward(video_url)`; `fetch` stands for
      `YouTubeTranscriptApi.get_transcript`. */
  function Forward(videoUrl: string, fetch: string -> Outcome<seq<Segment>>): (r: string)
    ensures ExtractId(videoUrl).None? ==> r == InvalidUrl
    ensures ExtractId(videoUrl).Some? && fetch(ExtractId(videoUrl).value).Raised? ==>
              r == FetchErrorPrefix + fetch(ExtractId(videoUrl).value).msg
    ensures ExtractId(videoUrl).Some? && fetch(ExtractId(videoUrl).value).Done? ==>
              var segments := fetch(ExtractId(videoUrl).value).value;
              (AllHaveText(segments) ==> r == Join(Texts(segments), ' '))
              && (!AllHaveText(segments) ==> r == FetchErrorPrefix + MissingTextMsg)
  {
    match ExtractId(videoUrl)
    case None => InvalidUrl
    case Some(id) =>
      match fetch(id)
      case Raised(msg) => FetchErrorPrefix + msg
      case Done(segments) =>
        if AllHaveText(segments) then Join(Texts(segments), ' ')
        else FetchErrorPrefix + MissingTextMsg
  }

  /** A transcript that was fetched is as long as its segment texts plus one
      space between each two of them. */
  lemma TranscriptLength(videoUrl: string, fetch: string -> Outcome<seq<Segment>>, segments: seq<Segment>)
    requires ExtractId(videoUrl).Some? && fetch(ExtractId(videoUrl).value) == Done(segments)
    requires AllHaveText(segments)
    ensures |segments| == 0 ==> Forward(videoUrl, fetch) == ""
    ensures |segments| == 1 ==> Forward(videoUrl, fetch) == segments[0].text.value
    ensures |segments| > 0 ==> |Forward(videoUrl, fetch)| == TotalLength(Texts(segments)) + |segments| - 1
  {
    JoinLength(Texts(segments), ' ');
  }

  /** When no segment text holds a space, splitting the transcript on spaces
      gives back every segment text, in the order the segments came. */
  lemma TranscriptKeepsSegments(videoUrl: string, fetch: string -> Outcome<seq<Segment>>, segments: seq<Segment>)
    requires ExtractId(videoUrl).Some? && fetch(ExtractId(videoUrl).value) == Done(segments)
    requires AllHaveText(segments) && |segments| > 0
    requires forall k :: 0 <= k < |segments| ==> ' ' !in segments[k].text.value
    ensures Split(Forward(videoUrl, fetch), ' ') == Texts(segments)
  {
    SplitJoin(Texts(segments), ' ');
  }

  /** In a URL with no 'v' before its first "v=", the id is the whole run of
      id characters after that "v=". */
  lemma IdAfterFirstV(prefix: string, id: string, rest: string)
    requires 'v' !in prefix
    requires |id| > 0 && forall k :: 0 <= k < |id| ==> IdChar(id[k])
    requires rest == [] || !IdChar(rest[0])
    ensures ExtractId(prefix + "v=" + id + rest) == Some(id)
  {
    var url := prefix + "v=" + id + rest;
    var m := Match(|prefix|, |prefix| + 2 + |id|);
    forall k: nat | k < |prefix| ensures !MatchesAt(url, k) {
      assert url[k] == prefix[k];
    }
    assert url[|prefix|..|prefix| + 2] == "v=";
    assert forall k :: m.start + 2 <= k < m.end ==> url[k] == id[k - m.start - 2];
    assert m.end < |url| ==> url[m.end] == rest[0];
    SearchResultUnique(url, m);
    assert url[m.start + 2..m.end] == id;
  }

  /** The URL that the smoke script tries gives the id that follows "v=". */
  lemma WatchUrlId()
    ensures ExtractId("https://www.youtube.com/watch?v=dQw4w9WgXcQ") == Some("dQw4w9WgXcQ")
  {
    var prefix := "https://www.youtube.com/watch?";
    var id := "dQw4w9WgXcQ";
    assert prefix + "v=" + id + "" == "https://www.youtube.com/watch?v=dQw4w9WgXcQ";
    IdAfterFirstV(prefix, id, "");
  }

  /** Anything may precede the "v=": the leftmost one wins. */
  lemma LeftmostOccurrenceWins()
    ensures ExtractId("?dev=ab&v=cd") == Some("ab")
  {
    var url := "?dev=ab&v=cd";
    assert !MatchesAt(url, 0) && !MatchesAt(url, 1) && !MatchesAt(url, 2);
    SearchResultUnique(url, Match(3, 7));
    assert url[5..7] == "ab";
  }

  /** A "v=" not followed by an id character is skipped, and the id stops
      at the first character outside the class. */
  lemma EmptyRunSkipped()
    ensures ExtractId("v=&v=x.y") == Some("x")
  {
    var url := "v=&v=x.y";
    assert !MatchesAt(url, 0) && !MatchesAt(url, 1) && !MatchesAt(url, 2);
    SearchResultUnique(url, Match(3, 6));
    assert url[5..6] == "x";
  }

  lemma NoIdAfterV()
    ensures ExtractId("watch?v=") == None
  {
  }
}
