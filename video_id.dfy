/**
  Video-identifier extraction (`get_video_id`).

  The extractor tries three regular expressions in order with `re.search`
  semantics (leftmost match position; at one position, alternatives in the
  order written) and returns the first capture group found:

    1. `(?:v=|\/)([0-9A-Za-z_-]{11}).*`
    2. `youtu\.be\/([0-9A-Za-z_-]{11})`
    3. `(?:embed\/)([0-9A-Za-z_-]{11})`

  The patterns are encoded by hand over `string`; there is no regex engine.
  The trailing `.*` of pattern 1 matches any (possibly empty) rest of the
  line, so it never makes a match fail and plays no part here.
 */
module VideoId {
  import opened Wrappers

  /** Number of characters in a video identifier (the `{11}` quantifier). */
  const IdLength: nat := 11

  /** The character class `[0-9A-Za-z_-]`. */
  predicate IsIdChar(c: char) {
    ('0' <= c <= '9') || ('A' <= c <= 'Z') || ('a' <= c <= 'z') || c == '_' || c == '-'
  }

  /** A well-formed identifier: exactly eleven characters of the class. */
  predicate IsVideoId(id: string) {
    |id| == IdLength && forall k :: 0 <= k < |id| ==> IsIdChar(id[k])
  }

  /** `[0-9A-Za-z_-]{11}` matches at position `k` of `s`. */
  predicate IdRunAt(s: string, k: nat) {
    k + IdLength <= |s| && forall j :: k <= j < k + IdLength ==> IsIdChar(s[j])
  }

  /** The literal `lit` occurs at position `i` of `s`. */
  predicate LiteralAt(s: string, i: nat, lit: string) {
    i + |lit| <= |s| && s[i..i + |lit|] == lit
  }

  /** `lit` followed by the eleven-character group, matched at `i`; yields the group. */
  function CaptureAfter(s: string, i: nat, lit: string): (r: Option<string>)
    ensures r.Some? <==> LiteralAt(s, i, lit) && IdRunAt(s, i + |lit|)
    ensures r.Some? ==> IsVideoId(r.value) && r.value == s[i + |lit|..i + |lit| + IdLength]
  {
    if LiteralAt(s, i, lit) && IdRunAt(s, i + |lit|) then
      Some(s[i + |lit|..i + |lit| + IdLength])
    else
      None
  }

  /** The three patterns of the source, in the order they are tried. */
  datatype Pattern =
    | WatchOrSlash  // `(?:v=|\/)([0-9A-Za-z_-]{11}).*`
    | ShortLink     // `youtu\.be\/([0-9A-Za-z_-]{11})`
    | Embed         // `(?:embed\/)([0-9A-Za-z_-]{11})`

  const Patterns: seq<Pattern> := [WatchOrSlash, ShortLink, Embed]

  /** The capture group of pattern `p` anchored at position `i`, if `p` matches there. */
  function MatchAt(p: Pattern, s: string, i: nat): (r: Option<string>)
    ensures r.Some? ==> IsVideoId(r.value)
  {
    match p
    case WatchOrSlash =>
      // alternation is tried left to right: `v=` before `/`
      var viaV := CaptureAfter(s, i, "v=");
      if viaV.Some? then viaV else CaptureAfter(s, i, "/")
    case ShortLink => CaptureAfter(s, i, "youtu.be/")
    case Embed => CaptureAfter(s, i, "embed/")
  }

  /** The leftmost position at or after `i` where `p` matches (the scan of `re.search`). */
  function FindFrom(p: Pattern, s: string, i: nat): (r: Option<nat>)
    requires i <= |s|
    ensures r.Some? ==> i <= r.value <= |s| && MatchAt(p, s, r.value).Some?
    ensures r.Some? ==> forall j :: i <= j < r.value ==> MatchAt(p, s, j).None?
    ensures r.None? ==> forall j :: i <= j <= |s| ==> MatchAt(p, s, j).None?
    decreases |s| - i
  {
    if MatchAt(p, s, i).Some? then Some(i)
    else if i == |s| then None
    else FindFrom(p, s, i + 1)
  }

  /** `re.search(p, s)` followed by `match.group(1)`. */
  function Search(p: Pattern, s: string): (r: Option<string>)
    ensures r.Some? ==> IsVideoId(r.value)
    ensures r.None? <==> forall j :: 0 <= j <= |s| ==> MatchAt(p, s, j).None?
  {
    match FindFrom(p, s, 0)
    case Some(k) => MatchAt(p, s, k)
    case None => None
  }

  /** The `for pattern in patterns` loop: the first pattern that matches decides. */
  function FirstHit(ps: seq<Pattern>, s: string): (r: Option<string>)
    ensures r.Some? ==> IsVideoId(r.value)
    ensures r.None? <==> forall k :: 0 <= k < |ps| ==> Search(ps[k], s).None?
  {
    if ps == [] then None
    else
      var m := Search(ps[0], s);
      if m.Some? then m else FirstHit(ps[1..], s)
  }

  /** `get_video_id(url)`: `None`, or exactly eleven identifier characters. */
  function GetVideoId(url: string): (r: Option<string>)
    ensures r.None? || IsVideoId(r.value)
  {
    FirstHit(Patterns, url)
  }

  // ---------------------------------------------------------------------------
  // An independent statement of pattern 1, written character by character.
  // ---------------------------------------------------------------------------

  /** At `i` the input has `v=` or `/`, immediately followed by eleven identifier characters. */
  predicate MarkerAt(s: string, i: nat) {
    (i + 2 + IdLength <= |s| && s[i] == 'v' && s[i + 1] == '='
       && forall j :: i + 2 <= j < i + 2 + IdLength ==> IsIdChar(s[j]))
    || (i + 1 + IdLength <= |s| && s[i] == '/'
       && forall j :: i + 1 <= j < i + 1 + IdLength ==> IsIdChar(s[j]))
  }

  /** The eleven characters that follow the marker at `i`. */
  function MarkedId(s: string, i: nat): (r: string)
    requires MarkerAt(s, i)
    ensures IsVideoId(r)
  {
    if s[i] == 'v' then s[i + 2..i + 2 + IdLength] else s[i + 1..i + 1 + IdLength]
  }

  /** Pattern 1 matches at `i` exactly when a marker is there, and captures the marked id. */
  lemma WatchOrSlashAt(s: string, i: nat)
    ensures MatchAt(WatchOrSlash, s, i).Some? <==> MarkerAt(s, i)
    ensures MarkerAt(s, i) ==> MatchAt(WatchOrSlash, s, i) == Some(MarkedId(s, i))
  {
  }

  /** `youtu.be/` + id contains `/` + id: pattern 2 never matches where pattern 1 cannot. */
  lemma ShortLinkImpliesMarker(s: string, i: nat)
    requires MatchAt(ShortLink, s, i).Some?
    ensures MarkerAt(s, i + 8)
  {
  }

  /** `embed/` + id contains `/` + id: pattern 3 never matches where pattern 1 cannot. */
  lemma EmbedImpliesMarker(s: string, i: nat)
    requires MatchAt(Embed, s, i).Some?
    ensures MarkerAt(s, i + 5)
  {
  }

  /** Patterns 2 and 3 never decide the outcome: pattern 1 alone gives the result. */
  lemma PatternOneDecides(s: string)
    ensures GetVideoId(s) == Search(WatchOrSlash, s)
  {
    if Search(WatchOrSlash, s).None? {
      forall j | 0 <= j <= |s| ensures MatchAt(ShortLink, s, j).None? {
        if MatchAt(ShortLink, s, j).Some? {
          ShortLinkImpliesMarker(s, j);
          WatchOrSlashAt(s, j + 8);
          assert false;
        }
      }
      forall j | 0 <= j <= |s| ensures MatchAt(Embed, s, j).None? {
        if MatchAt(Embed, s, j).Some? {
          EmbedImpliesMarker(s, j);
          WatchOrSlashAt(s, j + 5);
          assert false;
        }
      }
      assert Search(ShortLink, s).None? && Search(Embed, s).None?;
      assert Patterns[1..][1..] == [Embed];
    }
  }

  /** No identifier is found exactly when no `v=`/`/` marker followed by eleven id characters occurs. */
  lemma NoneIffNoMarker(s: string)
    ensures GetVideoId(s).None? <==> forall i :: 0 <= i <= |s| ==> !MarkerAt(s, i)
  {
    PatternOneDecides(s);
    forall i | 0 <= i <= |s| ensures MatchAt(WatchOrSlash, s, i).Some? <==> MarkerAt(s, i) {
      WatchOrSlashAt(s, i);
    }
  }

  /** The result is the id after the leftmost marker. */
  lemma LeftmostMarkerDecides(s: string, i: nat)
    requires i <= |s| && MarkerAt(s, i)
    requires forall j :: 0 <= j < i ==> !MarkerAt(s, j)
    ensures GetVideoId(s) == Some(MarkedId(s, i))
  {
    PatternOneDecides(s);
    forall j | 0 <= j < i ensures MatchAt(WatchOrSlash, s, j).None? {
      WatchOrSlashAt(s, j);
    }
    WatchOrSlashAt(s, i);
    assert FindFrom(WatchOrSlash, s, 0) == Some(i);
  }

  /** A found id is a contiguous slice of the input right after the leftmost marker. */
  lemma FoundIdIsLeftmostSlice(s: string)
    requires GetVideoId(s).Some?
    ensures exists i :: 0 <= i <= |s| && MarkerAt(s, i) && (forall j :: 0 <= j < i ==> !MarkerAt(s, j))
                        && GetVideoId(s) == Some(MarkedId(s, i))
  {
    PatternOneDecides(s);
    var i := FindFrom(WatchOrSlash, s, 0).value;
    WatchOrSlashAt(s, i);
    forall j | 0 <= j < i ensures !MarkerAt(s, j) {
      WatchOrSlashAt(s, j);
    }
  }

  /** A marker lying wholly inside `s` is unaffected by what follows `s`. */
  lemma MarkerInPrefix(s: string, t: string, j: nat)
    requires MarkerAt(s, j) || j + 2 + IdLength <= |s|
    ensures MarkerAt(s + t, j) <==> MarkerAt(s, j)
    ensures MarkerAt(s, j) ==> MarkedId(s + t, j) == MarkedId(s, j)
  {
    var u := s + t;
    assert forall k :: 0 <= k < |s| ==> u[k] == s[k];
    if MarkerAt(s, j) {
      if s[j] == 'v' {
        assert u[j + 2..j + 2 + IdLength] == s[j + 2..j + 2 + IdLength];
      } else {
        assert u[j + 1..j + 1 + IdLength] == s[j + 1..j + 1 + IdLength];
      }
    }
  }

  /** Appending anything (longer id runs, query parameters) never changes a found id. */
  lemma SuffixDoesNotMatter(s: string, t: string)
    requires GetVideoId(s).Some?
    ensures GetVideoId(s + t) == GetVideoId(s)
  {
    FoundIdIsLeftmostSlice(s);
    var i :| 0 <= i <= |s| && MarkerAt(s, i) && (forall j :: 0 <= j < i ==> !MarkerAt(s, j))
             && GetVideoId(s) == Some(MarkedId(s, i));
    MarkerInPrefix(s, t, i);
    forall j | 0 <= j < i ensures !MarkerAt(s + t, j) {
      MarkerInPrefix(s, t, j);
    }
    LeftmostMarkerDecides(s + t, i);
  }

  // ---------------------------------------------------------------------------
  // The URL shapes the extractor is written for, and what it does with others.
  // ---------------------------------------------------------------------------

  /** No marker begins before `n` when no `v` occurs there and every `/` is soon followed by a non-id character. */
  lemma NoMarkerBefore(s: string, n: nat, blockers: map<nat, nat>)
    requires n <= |s|
    requires forall j :: 0 <= j < n ==> s[j] != 'v'
    requires forall j :: 0 <= j < n && s[j] == '/' ==>
               j in blockers && j < blockers[j] <= j + IdLength && blockers[j] < |s| && !IsIdChar(s[blockers[j]])
    ensures forall j :: 0 <= j < n ==> !MarkerAt(s, j)
  {
  }

  /** `https://www.youtube.com/watch?v=<id><anything>` yields `<id>`. */
  lemma WatchUrlYieldsId(id: string, rest: string)
    requires IsVideoId(id)
    ensures GetVideoId("https://www.youtube.com/watch?v=" + id + rest) == Some(id)
  {
    var prefix := "https://www.youtube.com/watch?v=";
    var s := prefix + id + rest;
    assert forall j :: 0 <= j < |prefix| ==> s[j] == prefix[j];
    NoMarkerBefore(s, 30, map[6 := 7, 7 := 11, 23 := 29]);
    assert s[32..43] == id;
    LeftmostMarkerDecides(s, 30);
  }

  /** `https://youtu.be/<id><anything>` yields `<id>` (through pattern 1's `/` alternative). */
  lemma ShortUrlYieldsId(id: string, rest: string)
    requires IsVideoId(id)
    ensures GetVideoId("https://youtu.be/" + id + rest) == Some(id)
  {
    var prefix := "https://youtu.be/";
    var s := prefix + id + rest;
    assert forall j :: 0 <= j < |prefix| ==> s[j] == prefix[j];
    NoMarkerBefore(s, 16, map[6 := 7, 7 := 13]);
    assert s[17..28] == id;
    LeftmostMarkerDecides(s, 16);
  }

  /** `https://www.youtube.com/embed/<id><anything>` yields `<id>` (through pattern 1's `/` alternative). */
  lemma EmbedUrlYieldsId(id: string, rest: string)
    requires IsVideoId(id)
    ensures GetVideoId("https://www.youtube.com/embed/" + id + rest) == Some(id)
  {
    var prefix := "https://www.youtube.com/embed/";
    var s := prefix + id + rest;
    assert forall j :: 0 <= j < |prefix| ==> s[j] == prefix[j];
    NoMarkerBefore(s, 29, map[6 := 7, 7 := 11, 23 := 29]);
    assert s[30..41] == id;
    LeftmostMarkerDecides(s, 29);
  }

  /** A host name of eleven id characters right after `https://` is taken for an identifier. */
  lemma HostTakenForId(host: string, rest: string)
    requires IsVideoId(host)
    ensures GetVideoId("https://" + host + rest) == Some(host)
  {
    var s := "https://" + host + rest;
    assert forall j :: 0 <= j < 8 ==> s[j] == "https://"[j];
    NoMarkerBefore(s, 7, map[6 := 7]);
    assert s[8..19] == host;
    LeftmostMarkerDecides(s, 7);
  }

  /** `not-youtube` has the shape of an identifier, so `https://not-youtube.com/video` yields it. */
  lemma NonYouTubeHostTakenForId()
    ensures IsVideoId("not-youtube")
    ensures GetVideoId("https://" + "not-youtube" + ".com/video") == Some("not-youtube")
  {
    HostTakenForId("not-youtube", ".com/video");
  }

  /** URLs with no marker give no identifier. */
  lemma NoIdInPlainUrls()
    ensures GetVideoId("https://example.com").None?
    ensures GetVideoId("").None?
  {
    var s := "https://example.com";
    NoMarkerBefore(s, |s|, map[6 := 7, 7 := 15]);
    NoneIffNoMarker(s);
    NoneIffNoMarker("");
  }
}
