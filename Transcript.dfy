/**
 * Flattening a transcript: `" ".join([t.text for t in transcript_list])`.
 *
 * `JoinWithSpace` is Python's `" ".join` on a list of strings. Its partner is
 * `SplitOnSpace`, Python's `s.split(" ")`, which undoes it for pieces that hold
 * no space, and which it undoes for every string.
 */
module Transcript {
  import opened Slices

  /** One snippet the transcript service returns; only `text` is read. */
  datatype Snippet = Snippet(text: string, start: real, duration: real)

  /** Sum of the lengths of the pieces. */
  function TotalLength(parts: seq<string>): nat {
    if parts == [] then 0 else |parts[0]| + TotalLength(parts[1..])
  }

  /** Python's `" ".join(parts)`: the pieces in order, one space between neighbours. */
  function JoinWithSpace(parts: seq<string>): (s: string)
    ensures parts == [] ==> s == []
    ensures parts != [] ==> |s| == TotalLength(parts) + |parts| - 1
  {
    if parts == [] then []
    else if |parts| == 1 then parts[0]
    else parts[0] + " " + JoinWithSpace(parts[1..])
  }

  /** The list comprehension `[t.text for t in transcript_list]`. */
  function Texts(snippets: seq<Snippet>): (texts: seq<string>)
    ensures |texts| == |snippets|
    ensures forall k :: 0 <= k < |snippets| ==> texts[k] == snippets[k].text
  {
    seq(|snippets|, k requires 0 <= k < |snippets| => snippets[k].text)
  }

  /** The flattened transcript that is handed to the summarizer. */
  function TranscriptText(snippets: seq<Snippet>): (text: string)
    ensures snippets == [] ==> text == []
    ensures snippets != [] ==> |text| == TotalLength(Texts(snippets)) + |snippets| - 1
  {
    JoinWithSpace(Texts(snippets))
  }

  /** Where piece `k` begins in the joined string: the pieces before it and one space after each. */
  function Offset(parts: seq<string>, k: nat): nat
    requires k <= |parts|
  {
    if k == 0 then 0 else |parts[0]| + 1 + Offset(parts[1..], k - 1)
  }

  /**
   * Piece `k` stands at `Offset(parts, k)` of the joined string, and a single
   * space follows it unless it is the last. The next piece starts right after
   * that space, and the last piece ends the string, so every character is
   * accounted for: nothing else is added.
   */
  lemma {:induction false} JoinWithSpacePlacesParts(parts: seq<string>, k: nat)
    requires k < |parts|
    ensures Offset(parts, k) + |parts[k]| <= |JoinWithSpace(parts)|
    ensures JoinWithSpace(parts)[Offset(parts, k)..Offset(parts, k) + |parts[k]|] == parts[k]
    ensures k + 1 < |parts| ==> Offset(parts, k) + |parts[k]| < |JoinWithSpace(parts)|
    ensures k + 1 < |parts| ==> JoinWithSpace(parts)[Offset(parts, k) + |parts[k]|] == ' '
    ensures k + 1 < |parts| ==> Offset(parts, k + 1) == Offset(parts, k) + |parts[k]| + 1
    ensures k + 1 == |parts| ==> Offset(parts, k) + |parts[k]| == |JoinWithSpace(parts)|
  {
    if k == 0 {
      JoinWithSpacePlacesFirst(parts);
    } else {
      var s, rest := JoinWithSpace(parts), JoinWithSpace(parts[1..]);
      var pre, o, n := parts[0] + " ", Offset(parts[1..], k - 1), |parts[k]|;
      assert s == pre + rest;
      assert parts[1..][k - 1] == parts[k];
      JoinWithSpacePlacesParts(parts[1..], k - 1);
      assert o + n <= |rest| && rest[o..o + n] == parts[k];
      assert Offset(parts, k) == |pre| + o && |s| == |pre| + |rest|;
      SliceOfRight(pre, rest, o, n);
      assert s[|pre| + o..|pre| + o + n] == parts[k];
      if k + 1 < |parts| {
        assert s[|pre| + o + n] == rest[o + n];
        assert Offset(parts, k + 1) == |pre| + Offset(parts[1..], k);
      }
    }
  }

  /** The first piece opens the joined string, and a space follows it unless it is alone. */
  lemma JoinWithSpacePlacesFirst(parts: seq<string>)
    requires parts != []
    ensures Offset(parts, 0) == 0
    ensures |parts[0]| <= |JoinWithSpace(parts)|
    ensures JoinWithSpace(parts)[0..|parts[0]|] == parts[0]
    ensures 1 < |parts| ==> |parts[0]| < |JoinWithSpace(parts)|
    ensures 1 < |parts| ==> JoinWithSpace(parts)[|parts[0]|] == ' '
    ensures 1 < |parts| ==> Offset(parts, 1) == |parts[0]| + 1
    ensures |parts| == 1 ==> |parts[0]| == |JoinWithSpace(parts)|
  {
    assert Offset(parts[1..], 0) == 0;
    if |parts| > 1 {
      var rest := JoinWithSpace(parts[1..]);
      assert JoinWithSpace(parts) == parts[0] + (" " + rest);
      SliceOfLeft(parts[0], " " + rest, 0, |parts[0]|);
    }
  }

  /** Piece `k` of `parts` stands in `s` at the offset the join gives it. */
  predicate PlacedAt(s: string, parts: seq<string>, k: nat)
    requires k < |parts|
  {
    Offset(parts, k) + |parts[k]| <= |s| && s[Offset(parts, k)..Offset(parts, k) + |parts[k]|] == parts[k]
  }

  /** Every piece, in order, stands at its offset in the joined string. */
  lemma JoinWithSpacePlacesAll(parts: seq<string>)
    ensures forall k :: 0 <= k < |parts| ==> PlacedAt(JoinWithSpace(parts), parts, k)
  {
    forall k | 0 <= k < |parts|
      ensures PlacedAt(JoinWithSpace(parts), parts, k)
    {
      JoinWithSpacePlacesParts(parts, k);
    }
  }

  /** Joining two non-empty lists is joining their joins with one space. */
  lemma {:induction false} JoinWithSpaceAppend(a: seq<string>, b: seq<string>)
    requires a != [] && b != []
    ensures JoinWithSpace(a + b) == JoinWithSpace(a) + " " + JoinWithSpace(b)
  {
    assert (a + b)[0] == a[0];
    if |a| == 1 {
      assert (a + b)[1..] == b;
    } else {
      assert (a + b)[1..] == a[1..] + b;
      calc {
        JoinWithSpace(a + b);
        a[0] + " " + JoinWithSpace(a[1..] + b);
        { JoinWithSpaceAppend(a[1..], b); }
        a[0] + " " + (JoinWithSpace(a[1..]) + " " + JoinWithSpace(b));
        (a[0] + " " + JoinWithSpace(a[1..])) + " " + JoinWithSpace(b);
        JoinWithSpace(a) + " " + JoinWithSpace(b);
      }
    }
  }

  /** Python's `s.split(" ")`: the pieces between single spaces; always at least one. */
  function SplitOnSpace(s: string): (parts: seq<string>)
    ensures |parts| >= 1
    ensures forall k :: 0 <= k < |parts| ==> ' ' !in parts[k]
    decreases |s|
  {
    if s == [] then [[]]
    else
      var tail := SplitOnSpace(s[1..]);
      if s[0] == ' ' then [[]] + tail
      else [[s[0]] + tail[0]] + tail[1..]
  }

  /** Joining what a split gives back restores the string, whatever it holds. */
  lemma {:induction false} JoinSplitOnSpace(s: string)
    ensures JoinWithSpace(SplitOnSpace(s)) == s
    decreases |s|
  {
    if s != [] {
      var tail := SplitOnSpace(s[1..]);
      JoinSplitOnSpace(s[1..]);
      if s[0] == ' ' {
        assert SplitOnSpace(s) == [[]] + tail;
        JoinWithSpaceAppend([[]], tail);
      } else {
        assert SplitOnSpace(s) == [[s[0]] + tail[0]] + tail[1..];
        JoinWithSpaceExtendFirst(s[0], tail);
      }
      assert s == [s[0]] + s[1..];
    }
  }

  /** Putting a character in front of the first piece puts it in front of the join. */
  lemma JoinWithSpaceExtendFirst(c: char, parts: seq<string>)
    requires parts != []
    ensures JoinWithSpace([[c] + parts[0]] + parts[1..]) == [c] + JoinWithSpace(parts)
  {
    var ext := [[c] + parts[0]] + parts[1..];
    assert ext[0] == [c] + parts[0] && ext[1..] == parts[1..];
    if |parts| > 1 {
      var rest := JoinWithSpace(parts[1..]);
      assert JoinWithSpace(ext) == [c] + parts[0] + " " + rest;
      assert JoinWithSpace(parts) == parts[0] + " " + rest;
      ConsRegroup(c, parts[0], " ", rest);
    }
  }

  /** A piece with no space, then a space, then more: the split takes that piece off the front. */
  lemma {:induction false} SplitOnSpaceFirstPiece(a: string, rest: string)
    requires ' ' !in a
    ensures SplitOnSpace(a + " " + rest) == [a] + SplitOnSpace(rest)
    decreases |a|
  {
    if a == [] {
      assert a + " " + rest == [' '] + rest;
      assert (a + " " + rest)[1..] == rest;
    } else {
      SplitOnSpaceFirstPiece(a[1..], rest);
      assert (a + " " + rest)[1..] == a[1..] + " " + rest;
      assert [a[0]] + a[1..] == a;
    }
  }

  /** A split of a string with no space is that string alone. */
  lemma {:induction false} SplitOnSpaceNoSpace(a: string)
    requires ' ' !in a
    ensures SplitOnSpace(a) == [a]
    decreases |a|
  {
    if a != [] {
      SplitOnSpaceNoSpace(a[1..]);
      assert [a[0]] + a[1..] == a;
    }
  }

  /**
   * Splitting a join gives the pieces back, when there is at least one piece
   * and none holds a space: the join neither loses, merges nor reorders them.
   */
  lemma {:induction false} SplitJoinWithSpace(parts: seq<string>)
    requires parts != []
    requires forall k :: 0 <= k < |parts| ==> ' ' !in parts[k]
    ensures SplitOnSpace(JoinWithSpace(parts)) == parts
  {
    if |parts| == 1 {
      SplitOnSpaceNoSpace(parts[0]);
    } else {
      SplitJoinWithSpace(parts[1..]);
      SplitOnSpaceFirstPiece(parts[0], JoinWithSpace(parts[1..]));
      assert [parts[0]] + parts[1..] == parts;
    }
  }

  /** Three snippets "we", "can", "go" flatten to "we can go": one space between neighbours, none at the ends. */
  lemma TranscriptTextExample()
    ensures TranscriptText([Snippet("we", 0.0, 1.5), Snippet("can", 1.5, 1.0), Snippet("go", 2.5, 1.0)])
         == "we can go"
  {
    var snippets := [Snippet("we", 0.0, 1.5), Snippet("can", 1.5, 1.0), Snippet("go", 2.5, 1.0)];
    var texts: seq<string> := ["we", "can", "go"];
    assert Texts(snippets) == texts;
    assert texts[1..] == ["can", "go"] && ["can", "go"][1..] == ["go"];
    assert JoinWithSpace(["can", "go"]) == "can" + " " + "go" == "can go";
    assert JoinWithSpace(texts) == "we" + " " + "can go" == "we can go";
  }
}
