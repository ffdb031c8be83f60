/**
  Transcript acquisition (`get_auto_transcript`).

  The transcript service is abstracted as its answer: `None` when listing
  fails (transcripts disabled, no transcript, or any other error), otherwise
  the tracks in listing order. A track's fragments are `None` when fetching
  them fails; that failure, like every other, ends in the `None` result.
 */
module Transcript {
  import opened Wrappers

  /** One caption track: language code, the automatically-generated flag, and its fetched fragment texts. */
  datatype Track = Track(languageCode: string, isGenerated: bool, fetched: Option<seq<string>>)

  /** The language codes tried first, in priority order. */
  const PreferredLanguages: seq<string> := ["pt", "pt-BR", "en"]

  predicate GeneratedIn(t: Track, lang: string) {
    t.isGenerated && t.languageCode == lang
  }

  /** The listing holds an automatically generated track in language `lang`. */
  predicate HasGenerated(tracks: seq<Track>, lang: string) {
    exists k :: 0 <= k < |tracks| && GeneratedIn(tracks[k], lang)
  }

  /** `find_generated_transcript([lang])`: the first generated track in `lang`, from index `from` on. */
  function FindGenerated(tracks: seq<Track>, lang: string, from: nat): (r: Option<nat>)
    requires from <= |tracks|
    ensures r.Some? ==> from <= r.value < |tracks| && GeneratedIn(tracks[r.value], lang)
    ensures r.Some? ==> forall k :: from <= k < r.value ==> !GeneratedIn(tracks[k], lang)
    ensures r.None? ==> forall k :: from <= k < |tracks| ==> !GeneratedIn(tracks[k], lang)
    decreases |tracks| - from
  {
    if from == |tracks| then None
    else if GeneratedIn(tracks[from], lang) then Some(from)
    else FindGenerated(tracks, lang, from + 1)
  }

  /** The loop over `transcript_list`: the first generated track of any language, from index `from` on. */
  function FirstGenerated(tracks: seq<Track>, from: nat): (r: Option<nat>)
    requires from <= |tracks|
    ensures r.Some? ==> from <= r.value < |tracks| && tracks[r.value].isGenerated
    ensures r.Some? ==> forall k :: from <= k < r.value ==> !tracks[k].isGenerated
    ensures r.None? ==> forall k :: from <= k < |tracks| ==> !tracks[k].isGenerated
    decreases |tracks| - from
  {
    if from == |tracks| then None
    else if tracks[from].isGenerated then Some(from)
    else FirstGenerated(tracks, from + 1)
  }

  /** The loop over the preferred languages: the first language that has a generated track decides. */
  function SelectPreferred(tracks: seq<Track>, langs: seq<string>): (r: Option<nat>)
    ensures r.None? <==> forall i :: 0 <= i < |langs| ==> !HasGenerated(tracks, langs[i])
    ensures r.Some? ==> exists i :: 0 <= i < |langs| && r == FindGenerated(tracks, langs[i], 0)
                                    && forall j :: 0 <= j < i ==> !HasGenerated(tracks, langs[j])
  {
    if langs == [] then None
    else
      var hit := FindGenerated(tracks, langs[0], 0);
      if hit.Some? then hit
      else
        var r := SelectPreferred(tracks, langs[1..]);
        assert forall i :: 1 <= i < |langs| ==> langs[i] == langs[1..][i - 1];
        r
  }

  /** Which track `get_auto_transcript` fetches: a preferred-language generated track, else the first generated one. */
  function SelectTrack(tracks: seq<Track>): (r: Option<nat>)
    ensures r.Some? ==> r.value < |tracks| && tracks[r.value].isGenerated
    ensures r.None? <==> forall k :: 0 <= k < |tracks| ==> !tracks[k].isGenerated
  {
    var preferred := SelectPreferred(tracks, PreferredLanguages);
    if preferred.Some? then preferred else FirstGenerated(tracks, 0)
  }

  /** Total number of characters in the fragment texts. */
  function TotalLength(texts: seq<string>): (n: nat)
  {
    if texts == [] then 0 else |texts[0]| + TotalLength(texts[1..])
  }

  /** `' '.join(texts)`: the fragment texts in order, one space between neighbours. */
  function Join(texts: seq<string>): (r: string)
    ensures |texts| >= 1 ==> |r| == TotalLength(texts) + |texts| - 1
    ensures |texts| >= 1 ==> texts[0] <= r
    ensures texts == [] ==> r == ""
  {
    if |texts| == 0 then ""
    else if |texts| == 1 then texts[0]
    else texts[0] + " " + Join(texts[1..])
  }

  /** `get_auto_transcript`: the joined text of the selected track, or `None`. */
  function GetAutoTranscript(listing: Option<seq<Track>>): (r: Option<string>)
    ensures listing.None? ==> r.None?
    ensures listing.Some? && (forall k :: 0 <= k < |listing.value| ==> !listing.value[k].isGenerated) ==> r.None?
    ensures r.Some? ==> exists k :: 0 <= k < |listing.value| && listing.value[k].isGenerated
                                    && listing.value[k].fetched.Some?
                                    && r.value == Join(listing.value[k].fetched.value)
    ensures (listing.Some? && SelectTrack(listing.value).Some?
             && listing.value[SelectTrack(listing.value).value].fetched.None?) ==> r.None?
    ensures listing.Some? && SelectTrack(listing.value).Some?
            && listing.value[SelectTrack(listing.value).value].fetched.Some? ==>
              r == Some(Join(listing.value[SelectTrack(listing.value).value].fetched.value))
  {
    match listing
    case None => None
    case Some(tracks) =>
      match SelectTrack(tracks)
      case None => None
      case Some(k) =>
        match tracks[k].fetched
        case None => None
        case Some(texts) => Some(Join(texts))
  }

  // ---------------------------------------------------------------------------
  // Selection policy.
  // ---------------------------------------------------------------------------

  /**
    A generated track in the `i`-th preferred language wins whenever no earlier
    preferred language has one, wherever other tracks sit in the listing; the
    winner is the first such track listed.
   */
  lemma PreferredLanguageWins(tracks: seq<Track>, i: nat)
    requires i < |PreferredLanguages| && HasGenerated(tracks, PreferredLanguages[i])
    requires forall j :: 0 <= j < i ==> !HasGenerated(tracks, PreferredLanguages[j])
    ensures SelectTrack(tracks).Some?
    ensures GeneratedIn(tracks[SelectTrack(tracks).value], PreferredLanguages[i])
    ensures forall m :: 0 <= m < SelectTrack(tracks).value ==> !GeneratedIn(tracks[m], PreferredLanguages[i])
  {
  }

  /** Without any preferred-language generated track, the first generated track in listing order is taken. */
  lemma FallbackTakesFirstGenerated(tracks: seq<Track>)
    requires forall i :: 0 <= i < |PreferredLanguages| ==> !HasGenerated(tracks, PreferredLanguages[i])
    ensures SelectTrack(tracks).Some? ==> forall m :: 0 <= m < SelectTrack(tracks).value ==> !tracks[m].isGenerated
    ensures SelectTrack(tracks).Some? ==> tracks[SelectTrack(tracks).value].languageCode !in PreferredLanguages
  {
  }

  /** The text returned is that of the earliest preferred language's first generated track. */
  lemma PreferredTranscriptReturned(tracks: seq<Track>, i: nat, k: nat, texts: seq<string>)
    requires i < |PreferredLanguages| && k < |tracks|
    requires GeneratedIn(tracks[k], PreferredLanguages[i]) && tracks[k].fetched == Some(texts)
    requires forall m :: 0 <= m < k ==> !GeneratedIn(tracks[m], PreferredLanguages[i])
    requires forall j :: 0 <= j < i ==> !HasGenerated(tracks, PreferredLanguages[j])
    ensures GetAutoTranscript(Some(tracks)) == Some(Join(texts))
  {
    PreferredLanguageWins(tracks, i);
  }

  /** Without preferred-language generated tracks, the text returned is that of the first generated track listed. */
  lemma FallbackTranscriptReturned(tracks: seq<Track>, k: nat, texts: seq<string>)
    requires k < |tracks| && tracks[k].isGenerated && tracks[k].fetched == Some(texts)
    requires forall m :: 0 <= m < k ==> !tracks[m].isGenerated
    requires forall i :: 0 <= i < |PreferredLanguages| ==> !HasGenerated(tracks, PreferredLanguages[i])
    ensures GetAutoTranscript(Some(tracks)) == Some(Join(texts))
  {
    FallbackTakesFirstGenerated(tracks);
  }

  // ---------------------------------------------------------------------------
  // Joining fragments: `Split` on single spaces undoes `Join`.
  // ---------------------------------------------------------------------------

  /** `s.split(' ')`: the pieces between single spaces (never empty). */
  function Split(s: string): (r: seq<string>)
    ensures |r| >= 1
  {
    if s == [] then [""]
    else
      var rest := Split(s[1..]);
      if s[0] == ' ' then [""] + rest else [[s[0]] + rest[0]] + rest[1..]
  }

  /** A space-free prefix fuses with the first piece of what follows it. */
  lemma {:induction false} SplitSpaceFreePrefix(a: string, b: string)
    requires ' ' !in a
    ensures Split(a + b) == [a + Split(b)[0]] + Split(b)[1..]
  {
    if a == [] {
      assert a + b == b && a + Split(b)[0] == Split(b)[0];
      assert Split(b) == [Split(b)[0]] + Split(b)[1..];
    } else {
      assert (a + b)[1..] == a[1..] + b;
      SplitSpaceFreePrefix(a[1..], b);
      assert [a[0]] + (a[1..] + Split(b)[0]) == a + Split(b)[0];
    }
  }

  /** Fragments without spaces are recovered exactly from the joined transcript. */
  lemma {:induction false} SplitJoin(texts: seq<string>)
    requires |texts| >= 1
    requires forall k :: 0 <= k < |texts| ==> ' ' !in texts[k]
    ensures Split(Join(texts)) == texts
  {
    if |texts| == 1 {
      SplitSpaceFreePrefix(texts[0], "");
      assert texts[0] + "" == texts[0];
    } else {
      var tail := Join(texts[1..]);
      assert Join(texts) == texts[0] + (" " + tail);
      SplitSpaceFreePrefix(texts[0], " " + tail);
      assert (" " + tail)[1..] == tail;
      assert Split(" " + tail) == [""] + Split(tail);
      SplitJoin(texts[1..]);
      assert texts[0] + "" == texts[0];
      calc {
        Split(Join(texts));
        Split(texts[0] + (" " + tail));
        [texts[0] + Split(" " + tail)[0]] + Split(" " + tail)[1..];
        [texts[0]] + Split(tail);
        texts;
      }
    }
  }

  /** Joining two non-empty runs of fragments puts one space between their joins, whatever the fragments hold. */
  lemma {:induction false} JoinAppend(a: seq<string>, b: seq<string>)
    requires |a| >= 1 && |b| >= 1
    ensures Join(a + b) == Join(a) + " " + Join(b)
  {
    if |a| == 1 {
      assert (a + b)[1..] == b;
    } else {
      assert (a + b)[1..] == a[1..] + b;
      JoinAppend(a[1..], b);
    }
  }

  /** Fragments are joined in order with one space between consecutive ones. */
  lemma JoinExample()
    ensures Join(["a", "b", "c"]) == "a b c"
  {
  }

  // ---------------------------------------------------------------------------
  // Scenarios.
  // ---------------------------------------------------------------------------

  /** A generated Portuguese track is preferred to a manual English one listed before it. */
  lemma GeneratedPortugueseBeatsManualEnglish()
    ensures GetAutoTranscript(Some([Track("en", false, Some(["hello"])),
                                    Track("pt", true, Some(["ola", "mundo"]))])) == Some("ola mundo")
  {
    var tracks := [Track("en", false, Some(["hello"])), Track("pt", true, Some(["ola", "mundo"]))];
    assert GeneratedIn(tracks[1], "pt");
    PreferredLanguageWins(tracks, 0);
    assert SelectTrack(tracks) == Some(1);
    assert GetAutoTranscript(Some(tracks)) == Some(Join(["ola", "mundo"]));
    assert Join(["ola", "mundo"]) == "ola" + " " + "mundo" == "ola mundo";
  }

  /** A listing with one generated English track gives that track's text. */
  lemma SingleEnglishTrack(text: string)
    ensures GetAutoTranscript(Some([Track("en", true, Some([text]))])) == Some(text)
  {
    var tracks := [Track("en", true, Some([text]))];
    assert GeneratedIn(tracks[0], "en");
    PreferredLanguageWins(tracks, 2);
  }

  /** Manual tracks are never used, even when they are the only ones. */
  lemma ManualTracksAreNeverUsed()
    ensures GetAutoTranscript(Some([Track("en", false, Some(["hello"]))])) == None
  {
  }
}
