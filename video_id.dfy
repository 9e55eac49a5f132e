/** `extractYouTubeVideoId`, defined identically in the preview and in the generated-site page:
    the first place in the URL where a known YouTube prefix is followed by eleven id characters
    gives the id, and no such place gives the empty string.  The recognizer covers the prefixes
    `youtu.be/`, `youtube.com/embed/`, `youtube.com/v/`, `youtube.com/e/` and
    `youtube.com/watch?v=`.  The pattern's more general alternatives, `youtube.com/<segment>/.../`
    and `youtube.com/...[?&]v=`, are not modelled.  Where one of them matches, the pattern's
    result can differ from this model's: the model may give `''` or a different id. */
module VideoId {
  import opened JsString
  import opened SiteGenerator

  const IdLength: nat := 11

  const Prefixes: seq<string> :=
    ["youtu.be/", "youtube.com/embed/", "youtube.com/v/", "youtube.com/e/", "youtube.com/watch?v="]

  /** The class `[^"&?\/\s]` of the pattern's capture group. */
  predicate IsIdChar(c: char) {
    c != '"' && c != '&' && c != '?' && c != '/' && !IsWhitespace(c)
  }

  predicate IsVideoId(s: string) {
    |s| == IdLength && forall k :: 0 <= k < |s| ==> IsIdChar(s[k])
  }

  /** Prefix number `p` starts at index `i` of `url` and eleven id characters follow it. */
  predicate MatchesAt(url: string, i: nat, p: nat)
    requires p < |Prefixes|
  {
    && OccursAt(Prefixes[p], url, i)
    && i + |Prefixes[p]| + IdLength <= |url|
    && IsVideoId(url[i + |Prefixes[p]|..i + |Prefixes[p]| + IdLength])
  }

  /** The id captured by the first of the prefixes `p, p+1, …` that matches at index `i`. */
  function TryPrefixes(url: string, i: nat, p: nat): Option<string>
    requires p <= |Prefixes|
    decreases |Prefixes| - p
  {
    if p == |Prefixes| then None
    else if MatchesAt(url, i, p) then
      var j := i + |Prefixes[p]|;
      Some(url[j..j + IdLength])
    else TryPrefixes(url, i, p + 1)
  }

  /** A captured id is an id that follows one of the prefixes tried, and nothing is captured
      exactly when none of them matches. */
  lemma {:induction false} TryPrefixesSpec(url: string, i: nat, p: nat)
    requires p <= |Prefixes|
    ensures var r := TryPrefixes(url, i, p);
      && (r.Some? ==> IsVideoId(r.value))
      && (r.Some? ==> exists q :: p <= q < |Prefixes| && MatchesAt(url, i, q) && OccursAt(Prefixes[q] + r.value, url, i))
      && (r.None? <==> forall q :: p <= q < |Prefixes| ==> !MatchesAt(url, i, q))
    decreases |Prefixes| - p
  {
    if p < |Prefixes| {
      if MatchesAt(url, i, p) {
        var j := i + |Prefixes[p]|;
        assert url[i..j + IdLength] == url[i..j] + url[j..j + IdLength];
      } else {
        TryPrefixesSpec(url, i, p + 1);
      }
    }
  }

  /** The scan for a match at or after index `i`, position by position. */
  function ScanFrom(url: string, i: nat): (r: string)
    ensures r == [] || IsVideoId(r)
    ensures r != [] ==>
      exists j, q :: i <= j < |url| && 0 <= q < |Prefixes| && OccursAt(Prefixes[q] + r, url, j)
    ensures r == [] <==> forall j, q :: i <= j < |url| && 0 <= q < |Prefixes| ==> !MatchesAt(url, j, q)
    decreases |url| - i
  {
    if i >= |url| then []
    else
      TryPrefixesSpec(url, i, 0);
      match TryPrefixes(url, i, 0)
      case Some(id) => id
      case None => ScanFrom(url, i + 1)
  }

  /** Prefix number `q` at index `j` is the first match at or after index `i`: no earlier
      position matches with any prefix, and no earlier prefix matches at `j`. */
  predicate FirstMatch(url: string, i: nat, j: nat, q: nat)
    requires q < |Prefixes|
  {
    && i <= j
    && MatchesAt(url, j, q)
    && NoneMatch(url, j, 0, q)
    && forall j', q' :: i <= j' < j && 0 <= q' < |Prefixes| ==> !MatchesAt(url, j', q')
  }

  /** The eleven characters after prefix number `q` at index `j`. */
  function IdAfter(url: string, j: nat, q: nat): string
    requires q < |Prefixes| && MatchesAt(url, j, q)
  {
    url[j + |Prefixes[q]|..j + |Prefixes[q]| + IdLength]
  }

  /** A non-empty scan result is the id after the leftmost position and, there, the first
      prefix that matches. */
  lemma {:induction false} ScanLeftmost(url: string, i: nat)
    ensures ScanFrom(url, i) != [] ==>
      exists j, q :: 0 <= q < |Prefixes| && FirstMatch(url, i, j, q) && ScanFrom(url, i) == IdAfter(url, j, q)
    decreases |url| - i
  {
    if i < |url| {
      TryPrefixesSpec(url, i, 0);
      TryFirst(url, i, 0);
      if TryPrefixes(url, i, 0).None? {
        ScanLeftmost(url, i + 1);
        if ScanFrom(url, i + 1) != [] {
          var j, q :| 0 <= q < |Prefixes| && FirstMatch(url, i + 1, j, q) && ScanFrom(url, i + 1) == IdAfter(url, j, q);
          assert FirstMatch(url, i, j, q);
        }
      } else {
        var q :| 0 <= q < |Prefixes| && MatchesAt(url, i, q) && NoneMatch(url, i, 0, q)
          && TryPrefixes(url, i, 0).value == IdAfter(url, i, q);
        assert FirstMatch(url, i, i, q);
      }
    }
  }

  /** Conversely, the id after the first match is what the scan returns. */
  lemma {:induction false} ScanFindsFirst(url: string, i: nat, j: nat, q: nat)
    requires q < |Prefixes| && FirstMatch(url, i, j, q)
    ensures ScanFrom(url, i) == IdAfter(url, j, q)
    decreases j - i
  {
    if i < j {
      TryPrefixesSpec(url, i, 0);
      ScanPastNoMatch(url, i);
      ScanFindsFirst(url, i + 1, j, q);
    } else {
      FirstMatchingPrefix(url, i, 0, q);
      TryHere(url, i, q);
    }
  }

  /** A captured id comes from the first of the prefixes `p, p+1, …` that matches. */
  lemma {:induction false} TryFirst(url: string, i: nat, p: nat)
    requires p <= |Prefixes|
    ensures TryPrefixes(url, i, p).Some? ==>
      exists q :: p <= q < |Prefixes| && MatchesAt(url, i, q) && NoneMatch(url, i, p, q)
        && TryPrefixes(url, i, p).value == IdAfter(url, i, q)
    decreases |Prefixes| - p
  {
    if p < |Prefixes| {
      if MatchesAt(url, i, p) {
        assert NoneMatch(url, i, p, p);
      } else {
        TryFirst(url, i, p + 1);
        if TryPrefixes(url, i, p + 1).Some? {
          var q :| p + 1 <= q < |Prefixes| && MatchesAt(url, i, q) && NoneMatch(url, i, p + 1, q)
            && TryPrefixes(url, i, p + 1).value == IdAfter(url, i, q);
          assert NoneMatch(url, i, p, q);
        }
      }
    }
  }

  /** `extractYouTubeVideoId(url)`. */
  function ExtractYouTubeVideoId(url: string): string {
    ScanFrom(url, 0)
  }

  /** The result is either empty or an eleven-character id without `"`, `&`, `?`, `/` or
      whitespace; a non-empty result comes right after a known prefix in the URL, and the
      empty result means no prefix in the URL is followed by an id. */
  lemma ExtractShape(url: string)
    ensures var r := ExtractYouTubeVideoId(url);
      r == [] || (|r| == 11 && forall k :: 0 <= k < |r| ==> IsIdChar(r[k]))
    ensures var r := ExtractYouTubeVideoId(url);
      r != [] ==> exists q :: 0 <= q < |Prefixes| && Contains(url, Prefixes[q] + r)
    ensures ExtractYouTubeVideoId(url) == [] <==>
      forall j, q :: 0 <= j < |url| && 0 <= q < |Prefixes| ==> !MatchesAt(url, j, q)
  {
    var r := ExtractYouTubeVideoId(url);
    if r != [] {
      var j, q :| 0 <= j < |url| && 0 <= q < |Prefixes| && OccursAt(Prefixes[q] + r, url, j);
      assert Contains(url, Prefixes[q] + r);
    }
  }

  /** Text before the first `y` never matches, since every prefix starts with `y`. */
  lemma {:induction false} SkipToY(url: string, i: nat, m: nat)
    requires i <= m <= |url|
    requires 'y' !in url[i..m]
    ensures ScanFrom(url, i) == ScanFrom(url, m)
    decreases m - i
  {
    if i < m {
      assert url[i] == url[i..m][0] && url[i + 1..m] == url[i..m][1..];
      NoMatchBeforeY(url, i);
      ScanPastNoMatch(url, i);
      SkipToY(url, i + 1, m);
    }
  }

  lemma ScanPastNoMatch(url: string, i: nat)
    requires i < |url| && TryPrefixes(url, i, 0) == None
    ensures ScanFrom(url, i) == ScanFrom(url, i + 1)
  {
  }

  lemma NoMatchBeforeY(url: string, i: nat)
    requires i < |url| && url[i] != 'y'
    ensures TryPrefixes(url, i, 0) == None
  {
    TryPrefixesSpec(url, i, 0);
    PrefixesStartWithY();
    forall q | 0 <= q < |Prefixes| ensures !OccursAt(Prefixes[q], url, i) {
      FirstCharDiffers(Prefixes[q], url, i);
    }
  }

  lemma PrefixesStartWithY()
    ensures forall q :: 0 <= q < |Prefixes| ==> |Prefixes[q]| > 0 && Prefixes[q][0] == 'y'
  {
  }

  lemma FirstCharDiffers(t: string, s: string, i: nat)
    requires |t| > 0 && i < |s| && s[i] != t[0]
    ensures !OccursAt(t, s, i)
  {
  }

  /** A scheme and host part without `y`, then prefix number `q` and an id: the id is what the
      extractor returns, provided no earlier prefix also matches there. */
  lemma ExtractAfter(lead: string, q: nat, id: string, rest: string)
    requires q < |Prefixes| && IsVideoId(id)
    requires forall k :: 0 <= k < |lead| ==> lead[k] != 'y'
    requires forall p :: 0 <= p < q ==> !OccursAt(Prefixes[p], lead + Prefixes[q] + id + rest, |lead|)
    ensures ExtractYouTubeVideoId(lead + Prefixes[q] + id + rest) == id
  {
    var pre := Prefixes[q];
    var url := lead + pre + id + rest;
    var i := |lead|;
    Pieces(lead, pre, id, rest);
    SkipToY(url, 0, i);
    assert MatchesAt(url, i, q);
    FirstMatchingPrefix(url, i, 0, q);
    TryHere(url, i, q);
  }

  /** Where the pieces of `lead + pre + id + rest` sit. */
  lemma Pieces(lead: string, pre: string, id: string, rest: string)
    ensures var url := lead + pre + id + rest;
      && (forall k :: 0 <= k < |lead| ==> url[k] == lead[k])
      && OccursAt(pre, url, |lead|)
      && url[|lead| + |pre|..|lead| + |pre| + |id|] == id
  {
    var url := lead + pre + id + rest;
    assert url[|lead|..|lead| + |pre|] == pre;
  }

  lemma {:induction false} FirstMatchingPrefix(url: string, i: nat, p: nat, q: nat)
    requires p <= q <= |Prefixes|
    requires NoneMatch(url, i, p, q)
    ensures TryPrefixes(url, i, p) == TryPrefixes(url, i, q)
    decreases q - p
  {
    if p < q {
      TryNext(url, i, p);
      FirstMatchingPrefix(url, i, p + 1, q);
    }
  }

  /** None of the prefixes `p, …, q-1` matches at index `i`. */
  predicate NoneMatch(url: string, i: nat, p: nat, q: nat)
    requires q <= |Prefixes|
  {
    forall p' :: p <= p' < q ==> !MatchesAt(url, i, p')
  }

  lemma TryNext(url: string, i: nat, p: nat)
    requires p < |Prefixes| && !MatchesAt(url, i, p)
    ensures TryPrefixes(url, i, p) == TryPrefixes(url, i, p + 1)
  {
  }

  lemma TryHere(url: string, i: nat, p: nat)
    requires p < |Prefixes| && MatchesAt(url, i, p)
    ensures TryPrefixes(url, i, p) == Some(url[i + |Prefixes[p]|..i + |Prefixes[p]| + IdLength])
  {
  }

  /** The short-link shape. */
  lemma ShortLinkRoundTrip(id: string)
    requires IsVideoId(id)
    ensures ExtractYouTubeVideoId("https://" + Prefixes[0] + id) == id
  {
    assert "https://" + Prefixes[0] + id == "https://" + Prefixes[0] + id + [];
    ExtractAfter("https://", 0, id, []);
  }

  /** The watch-page shape. */
  lemma WatchLinkRoundTrip(id: string)
    requires IsVideoId(id)
    ensures ExtractYouTubeVideoId("https://www." + Prefixes[4] + id) == id
  {
    var url := "https://www." + Prefixes[4] + id;
    assert url == "https://www." + Prefixes[4] + id + [];
    forall p | 0 <= p < 4 ensures !OccursAt(Prefixes[p], url, 12) {
      if p == 0 {
        assert url[17] == 'b';
      } else {
        assert url[24] == 'w';
      }
    }
    ExtractAfter("https://www.", 4, id, []);
  }

  const EmbedPrefix: string := "https://www.youtube.com/embed/"
  const EmbedQuery: string := "?controls=1&autoplay=0"

  /** The source of the embedded player for an id. */
  function EmbedSrc(id: string): string {
    EmbedPrefix + id + EmbedQuery
  }

  /** The player URL is itself an embed-shape link: extracting from it gives the id back. */
  lemma EmbedSrcRoundTrip(id: string)
    requires IsVideoId(id)
    ensures ExtractYouTubeVideoId(EmbedSrc(id)) == id
  {
    var url := EmbedSrc(id);
    assert EmbedPrefix == "https://www." + Prefixes[1];
    assert url == "https://www." + Prefixes[1] + id + EmbedQuery;
    assert !OccursAt(Prefixes[0], url, 12) by {
      assert url[17] == 'b';
    }
    ExtractAfter("https://www.", 1, id, EmbedQuery);
  }

  /** A URL with no known prefix yields no id. */
  lemma UnknownLinkHasNoId()
    ensures ExtractYouTubeVideoId("https://vimeo.com/12345678901") == []
  {
    var url := "https://vimeo.com/12345678901";
    SkipToY(url, 0, |url|);
  }
}
