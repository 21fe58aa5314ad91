/**
 * `extract_video_id(url)`: a Python `re.search` for the pattern
 *
 *     (?:v=|youtu\.be/)([a-zA-Z0-9_-]{11})
 *
 * that returns group 1 of the leftmost match, or `None`.
 *
 * The first part says declaratively what a match at an index is (`MatchesAt`)
 * and what the search reports (`LeftmostGroup`), and proves what follows from
 * that. The second part runs the search the way a backtracking regex engine
 * does, character by character and start index by start index, and proves that
 * it reports exactly `LeftmostGroup`.
 */
module VideoId {
  import opened Wrappers
  import opened Slices

  /** The `{11}` of the capturing group: every video ID has this length. */
  const IdLength: nat := 11

  /** The first alternative of the prefix group, as in `watch?v=ID`. It may stand anywhere in the URL. */
  const WatchPrefix: string := "v="

  /** The second alternative of the prefix group; its dot is escaped, so it is a literal '.'. */
  const ShortPrefix: string := "youtu.be/"

  /** The character class `[a-zA-Z0-9_-]` (ASCII ranges only). */
  predicate IsIdChar(c: char) {
    ('a' <= c <= 'z') || ('A' <= c <= 'Z') || ('0' <= c <= '9') || c == '_' || c == '-'
  }

  /** A string the capturing group can capture. */
  predicate IsId(s: string) {
    |s| == IdLength && forall k :: 0 <= k < |s| ==> IsIdChar(s[k])
  }

  // ---------------------------------------------------------------------------
  // What a match is, and what the search reports
  // ---------------------------------------------------------------------------

  /** The literal `p` occurs in `url` starting at index `i`. */
  predicate OccursAt(url: string, i: nat, p: string) {
    i + |p| <= |url| && url[i..i + |p|] == p
  }

  /** Eleven ID characters start at index `k`. */
  predicate IdRunAt(url: string, k: nat) {
    k + IdLength <= |url| && forall j :: k <= j < k + IdLength ==> IsIdChar(url[j])
  }

  /** The pattern matches at `i` through the prefix alternative `p`: `p`, then eleven ID characters. */
  predicate MatchesVia(url: string, i: nat, p: string) {
    OccursAt(url, i, p) && IdRunAt(url, i + |p|)
  }

  /** The pattern matches at start index `i`, through either alternative. */
  predicate MatchesAt(url: string, i: nat) {
    MatchesVia(url, i, WatchPrefix) || MatchesVia(url, i, ShortPrefix)
  }

  /** `i` is the start of the match `re.search` reports: a match, and none starts earlier. */
  predicate IsLeftmostMatch(url: string, i: nat) {
    MatchesAt(url, i) && forall j: nat :: j < i ==> !MatchesAt(url, j)
  }

  /** Index of the first character of group 1 for a match at `i`. */
  function GroupStart(url: string, i: nat): (k: nat)
    requires MatchesAt(url, i)
    ensures k + IdLength <= |url|
  {
    if MatchesVia(url, i, WatchPrefix) then i + |WatchPrefix| else i + |ShortPrefix|
  }

  /** Group 1 of a match at `i`: the eleven characters right after the prefix, and no more. */
  function GroupAt(url: string, i: nat): (id: string)
    requires MatchesAt(url, i)
    ensures IsId(id)
  {
    var k := GroupStart(url, i);
    url[k..k + IdLength]
  }

  /** What the search reports: group 1 of the leftmost match, or `None` when there is none. */
  ghost function LeftmostGroup(url: string): Option<string> {
    if exists i: nat :: IsLeftmostMatch(url, i) then
      var i: nat :| IsLeftmostMatch(url, i);
      Some(GroupAt(url, i))
    else
      None
  }

  // ---------------------------------------------------------------------------
  // Properties of the match and of what the search reports
  // ---------------------------------------------------------------------------

  /** The two alternatives never both apply at one index: one starts with 'v', the other with 'y'. */
  lemma AlternativesExclusive(url: string, i: nat)
    ensures OccursAt(url, i, WatchPrefix) ==> url[i] == 'v'
    ensures OccursAt(url, i, ShortPrefix) ==> url[i] == 'y'
    ensures !(OccursAt(url, i, WatchPrefix) && OccursAt(url, i, ShortPrefix))
  {
    if OccursAt(url, i, WatchPrefix) {
      assert url[i] == url[i..i + |WatchPrefix|][0];
    }
    if OccursAt(url, i, ShortPrefix) {
      assert url[i] == url[i..i + |ShortPrefix|][0];
    }
  }

  /** Whenever some index matches, a leftmost match exists. */
  lemma {:induction false} LeftmostMatchExists(url: string, k: nat)
    requires MatchesAt(url, k)
    ensures exists i: nat :: IsLeftmostMatch(url, i)
    decreases k
  {
    if !IsLeftmostMatch(url, k) {
      var j: nat :| j < k && MatchesAt(url, j);
      LeftmostMatchExists(url, j);
    }
  }

  /** When the leftmost match starts at `i`, the search reports exactly its group 1. */
  lemma LeftmostGroupAt(url: string, i: nat)
    requires IsLeftmostMatch(url, i)
    ensures LeftmostGroup(url) == Some(GroupAt(url, i))
  {
    // Two leftmost matches cannot differ: each would lie before the other.
    forall i': nat | IsLeftmostMatch(url, i')
      ensures i' == i
    {
    }
  }

  /** The search reports nothing exactly when no index matches. */
  lemma LeftmostGroupNone(url: string)
    ensures LeftmostGroup(url).None? <==> forall i: nat :: !MatchesAt(url, i)
  {
    if exists k: nat :: MatchesAt(url, k) {
      var k: nat :| MatchesAt(url, k);
      LeftmostMatchExists(url, k);
    }
  }

  /** The start of the leftmost match, when the search reports one. */
  lemma LeftmostIndex(url: string) returns (i: nat)
    requires LeftmostGroup(url).Some?
    ensures IsLeftmostMatch(url, i) && LeftmostGroup(url) == Some(GroupAt(url, i))
  {
    i :| IsLeftmostMatch(url, i);
    LeftmostGroupAt(url, i);
  }

  /** One of the two prefixes ends right before index `k`. */
  predicate PrefixEndsAt(url: string, k: nat) {
    || (k >= |WatchPrefix| && OccursAt(url, k - |WatchPrefix|, WatchPrefix))
    || (k >= |ShortPrefix| && OccursAt(url, k - |ShortPrefix|, ShortPrefix))
  }

  /**
   * A reported ID is eleven ID characters, and a contiguous piece of the URL that
   * immediately follows `v=` or `youtu.be/`.
   */
  lemma LeftmostGroupFollowsPrefix(url: string)
    requires LeftmostGroup(url).Some?
    ensures IsId(LeftmostGroup(url).value)
    ensures exists k: nat ::
      && PrefixEndsAt(url, k)
      && k + IdLength <= |url|
      && url[k..k + IdLength] == LeftmostGroup(url).value
  {
    var i := LeftmostIndex(url);
    var k := GroupStart(url, i);
    assert PrefixEndsAt(url, k);
  }

  /** A match in `url + rest` that starts before a match of `url` lies wholly inside `url`. */
  lemma EarlierMatchInside(url: string, rest: string, i: nat, j: nat)
    requires MatchesAt(url, i) && j < i
    ensures MatchesAt(url + rest, j) ==> MatchesAt(url, j)
  {
    var s := url + rest;
    if MatchesAt(s, j) {
      var p := if MatchesVia(s, j, WatchPrefix) then WatchPrefix else ShortPrefix;
      var q := if MatchesVia(url, i, WatchPrefix) then WatchPrefix else ShortPrefix;
      assert MatchesVia(s, j, p) && MatchesVia(url, i, q);
      if p == ShortPrefix && q == WatchPrefix {
        // url[i] is 'v', and "youtu.be/" has no 'v', so the match at i starts past that prefix.
        AlternativesExclusive(url, i);
        assert forall t :: j <= t < j + |ShortPrefix| ==> s[t] == ShortPrefix[t - j];
        assert forall t :: 0 <= t < |ShortPrefix| ==> ShortPrefix[t] != 'v';
        assert s[i] == url[i];
        assert i >= j + |ShortPrefix|;
      }
      // So the match at j ends no later than the match at i does.
      assert j + |p| + IdLength <= |url|;
      SliceOfLeft(url, rest, j, |p|);
      assert OccursAt(url, j, p);
      assert forall t :: j + |p| <= t < j + |p| + IdLength ==> s[t] == url[t];
      assert IdRunAt(url, j + |p|);
    }
  }

  /**
   * No end anchor: once a URL yields an ID, whatever follows it does not change
   * the ID; in particular ID characters past the eleventh are ignored.
   */
  lemma LeftmostGroupIgnoresSuffix(url: string, rest: string)
    requires LeftmostGroup(url).Some?
    ensures LeftmostGroup(url + rest) == LeftmostGroup(url)
  {
    var s := url + rest;
    var i := LeftmostIndex(url);
    var p := if MatchesVia(url, i, WatchPrefix) then WatchPrefix else ShortPrefix;
    assert MatchesVia(url, i, p);
    SliceOfLeft(url, rest, i, |p|);
    assert MatchesVia(s, i, p);
    forall j: nat | j < i
      ensures !MatchesAt(s, j)
    {
      EarlierMatchInside(url, rest, i, j);
    }
    AlternativesExclusive(s, i);
    AlternativesExclusive(url, i);
    assert GroupAt(s, i) == GroupAt(url, i);
    LeftmostGroupAt(s, i);
  }

  /** Whether a match starts at an index of `b` does not depend on what precedes `b`. */
  lemma MatchesAtShift(a: string, b: string, j: nat)
    ensures MatchesAt(a + b, |a| + j) <==> MatchesAt(b, j)
  {
    var s := a + b;
    forall p | p == WatchPrefix || p == ShortPrefix
      ensures MatchesVia(s, |a| + j, p) <==> MatchesVia(b, j, p)
    {
      if j + |p| <= |b| {
        SliceOfRight(a, b, j, |p|);
      }
      assert forall t :: 0 <= t < |b| ==> s[|a| + t] == b[t];
    }
  }

  /** The leftmost match of `b` is the leftmost match of `a + b` when no match starts inside `a`. */
  lemma LeftmostMatchShift(a: string, b: string, i: nat)
    requires forall j: nat :: j < |a| ==> !MatchesAt(a + b, j)
    requires IsLeftmostMatch(b, i)
    ensures IsLeftmostMatch(a + b, |a| + i)
    ensures GroupAt(a + b, |a| + i) == GroupAt(b, i)
  {
    var s := a + b;
    MatchesAtShift(a, b, i);
    forall j: nat | j < |a| + i
      ensures !MatchesAt(s, j)
    {
      if j >= |a| {
        MatchesAtShift(a, b, j - |a|);
      }
    }
    GroupAtShift(a, b, i);
  }

  /** A match of `b` at `i` is a match of `a + b` at `|a| + i`, with the same group 1. */
  lemma GroupAtShift(a: string, b: string, i: nat)
    requires MatchesAt(b, i)
    ensures MatchesAt(a + b, |a| + i)
    ensures GroupAt(a + b, |a| + i) == GroupAt(b, i)
  {
    var s := a + b;
    MatchesAtShift(a, b, i);
    if MatchesVia(b, i, WatchPrefix) {
      SliceOfRight(a, b, i, |WatchPrefix|);
    } else {
      AlternativesExclusive(b, i);
      AlternativesExclusive(s, |a| + i);
      assert s[|a| + i] == b[i];
    }
    assert GroupStart(s, |a| + i) == |a| + GroupStart(b, i);
    SliceOfRight(a, b, GroupStart(b, i), IdLength);
  }

  /** With no match inside `a`, and none in `b`, there is none in `a + b` either. */
  lemma NoMatchShift(a: string, b: string)
    requires forall j: nat :: j < |a| ==> !MatchesAt(a + b, j)
    requires forall j: nat :: !MatchesAt(b, j)
    ensures forall j: nat :: !MatchesAt(a + b, j)
  {
    forall j: nat | j >= |a|
      ensures !MatchesAt(a + b, j)
    {
      MatchesAtShift(a, b, j - |a|);
    }
  }

  /**
   * The search goes on past every start index that fails, for instance a `v=`
   * followed by fewer than eleven ID characters: if no match starts inside `a`,
   * what is reported for `a + b` is what is reported for `b`.
   */
  lemma LeftmostGroupSkipsUnmatchedPrefix(a: string, b: string)
    requires forall j: nat :: j < |a| ==> !MatchesAt(a + b, j)
    ensures LeftmostGroup(a + b) == LeftmostGroup(b)
  {
    if LeftmostGroup(b).Some? {
      var i := LeftmostIndex(b);
      LeftmostMatchShift(a, b, i);
      LeftmostGroupAt(a + b, |a| + i);
    } else {
      LeftmostGroupNone(b);
      NoMatchShift(a, b);
      LeftmostGroupNone(a + b);
    }
  }

  // ---------------------------------------------------------------------------
  // The search, as the regex engine runs it
  // ---------------------------------------------------------------------------

  /** One step of comparing a literal: its first character, then the rest. */
  lemma OccursAtStep(url: string, i: nat, lit: string)
    requires lit != []
    ensures OccursAt(url, i, lit) <==> i < |url| && url[i] == lit[0] && OccursAt(url, i + 1, lit[1..])
  {
    if OccursAt(url, i, lit) {
      assert url[i] == url[i..i + |lit|][0];
      assert url[i + 1..i + |lit|] == url[i..i + |lit|][1..];
    }
    if i < |url| && url[i] == lit[0] && OccursAt(url, i + 1, lit[1..]) {
      assert url[i..i + |lit|] == [url[i]] + url[i + 1..i + |lit|];
    }
  }

  /** Compare the literal `lit` with `url` from index `i` on, one character at a time. */
  function LiteralAt(url: string, i: nat, lit: string): (b: bool)
    requires i <= |url|
    ensures b <==> OccursAt(url, i, lit)
    decreases |lit|
  {
    if lit == [] then true
    else
      OccursAtStep(url, i, lit);
      i < |url| && url[i] == lit[0] && LiteralAt(url, i + 1, lit[1..])
  }

  /** The repetition `[a-zA-Z0-9_-]{n}` starting at index `k`, one character at a time. */
  function ClassRunAt(url: string, k: nat, n: nat): (b: bool)
    requires k <= |url|
    ensures b <==> k + n <= |url| && forall j :: k <= j < k + n ==> IsIdChar(url[j])
    decreases n
  {
    if n == 0 then true
    else k < |url| && IsIdChar(url[k]) && ClassRunAt(url, k + 1, n - 1)
  }

  /**
   * Try the pattern at start index `i`: the alternatives in their written order,
   * each followed by the repetition. Gives the start of group 1 if one succeeds.
   */
  function TryAt(url: string, i: nat): (g: Option<nat>)
    requires i <= |url|
    ensures g.Some? <==> MatchesAt(url, i)
    ensures g.Some? ==> g.value == GroupStart(url, i)
  {
    if LiteralAt(url, i, WatchPrefix) && ClassRunAt(url, i + |WatchPrefix|, IdLength) then
      Some(i + |WatchPrefix|)
    else if LiteralAt(url, i, ShortPrefix) && ClassRunAt(url, i + |ShortPrefix|, IdLength) then
      Some(i + |ShortPrefix|)
    else
      None
  }

  /** A successful match: where it starts and where its group 1 starts. */
  datatype Match = Match(start: nat, group: nat)

  /**
   * The scan of `re.search`: try every start index from `from` up to and
   * including `|url|`, stopping at the first that matches.
   */
  function SearchFrom(url: string, from: nat): (m: Option<Match>)
    requires from <= |url|
    ensures m.Some? ==> from <= m.value.start <= |url|
    decreases |url| - from
  {
    match TryAt(url, from)
    case Some(g) => Some(Match(from, g))
    case None =>
      if from == |url| then None
      else SearchFrom(url, from + 1)
  }

  /** No match starts past the end of the URL: both prefixes are non-empty. */
  lemma NoMatchPastEnd(url: string, j: nat)
    requires |url| <= j
    ensures !MatchesAt(url, j)
  {
  }

  /** The scan finds nothing exactly when no index from `from` on matches. */
  lemma {:induction false} SearchFromNone(url: string, from: nat)
    requires from <= |url|
    ensures SearchFrom(url, from).None? <==> forall j: nat :: from <= j ==> !MatchesAt(url, j)
    decreases |url| - from
  {
    if TryAt(url, from).None? {
      if from == |url| {
        forall j: nat | from <= j
          ensures !MatchesAt(url, j)
        {
          NoMatchPastEnd(url, j);
        }
      } else {
        SearchFromNone(url, from + 1);
        assert SearchFrom(url, from) == SearchFrom(url, from + 1);
        assert !MatchesAt(url, from);
      }
    }
  }

  /**
   * A scan that finds something stops at the first index from `from` on that
   * matches, and reports where that match puts group 1.
   */
  lemma {:induction false} SearchFromSome(url: string, from: nat)
    requires from <= |url|
    requires SearchFrom(url, from).Some?
    ensures MatchesAt(url, SearchFrom(url, from).value.start)
    ensures forall j: nat :: from <= j < SearchFrom(url, from).value.start ==> !MatchesAt(url, j)
    ensures SearchFrom(url, from).value.group == GroupStart(url, SearchFrom(url, from).value.start)
    decreases |url| - from
  {
    var t := TryAt(url, from);
    if t.None? {
      var m := SearchFrom(url, from + 1).value;
      assert SearchFrom(url, from).value == m;
      SearchFromSome(url, from + 1);
      forall j: nat | from <= j < m.start
        ensures !MatchesAt(url, j)
      {
        if j == from {
          assert t.None?;
        }
      }
    } else {
      assert SearchFrom(url, from).value == Match(from, t.value);
    }
  }

  /**
   * `extract_video_id`: group 1 of the leftmost match, or `None` when the pattern
   * matches nowhere.
   */
  function ExtractVideoId(url: string): (id: Option<string>)
    ensures id == LeftmostGroup(url)
    ensures id.None? <==> forall i: nat :: !MatchesAt(url, i)
    ensures id.Some? ==> IsId(id.value)
  {
    LeftmostGroupNone(url);
    SearchFromNone(url, 0);
    match SearchFrom(url, 0)
    case None => None
    case Some(m) =>
      SearchFromSome(url, 0);
      LeftmostGroupAt(url, m.start);
      Some(url[m.group..m.group + IdLength])
  }

  // ---------------------------------------------------------------------------
  // The same properties, stated of extract_video_id itself
  // ---------------------------------------------------------------------------

  /** Whenever the leftmost match starts at `i`, `extract_video_id` returns its group 1. */
  lemma ExtractVideoIdIsLeftmost(url: string, i: nat)
    requires IsLeftmostMatch(url, i)
    ensures ExtractVideoId(url) == Some(GroupAt(url, i))
  {
    LeftmostGroupAt(url, i);
  }

  /** A returned ID immediately follows `v=` or `youtu.be/` in the URL. */
  lemma ExtractedIdFollowsPrefix(url: string)
    requires ExtractVideoId(url).Some?
    ensures exists k: nat ::
      && PrefixEndsAt(url, k)
      && k + IdLength <= |url|
      && url[k..k + IdLength] == ExtractVideoId(url).value
  {
    LeftmostGroupFollowsPrefix(url);
  }

  /** Appending to a URL that yields an ID leaves the ID unchanged. */
  lemma ExtractVideoIdIgnoresSuffix(url: string, rest: string)
    requires ExtractVideoId(url).Some?
    ensures ExtractVideoId(url + rest) == ExtractVideoId(url)
  {
    LeftmostGroupIgnoresSuffix(url, rest);
  }

  /** Start indices that fail do not stop the search. */
  lemma ExtractVideoIdSkipsUnmatchedPrefix(a: string, b: string)
    requires forall j: nat :: j < |a| ==> !MatchesAt(a + b, j)
    ensures ExtractVideoId(a + b) == ExtractVideoId(b)
  {
    LeftmostGroupSkipsUnmatchedPrefix(a, b);
  }
}
