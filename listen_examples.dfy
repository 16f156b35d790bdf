/** Worked inputs of `convertYouTubeUrl`, among them the two default live-performance links. */
module ListenExamples {
  import opened Strings
  import opened ListenSection

  const WatchPage: string := "https://www.youtube.com/watch"

  // ---------------------------------------------------------------------------
  // Watch-page URLs with a query of plain pairs
  // ---------------------------------------------------------------------------

  /**
   * A parsable URL holding the watch marker, whose query comes after a
   * `?`-free base and serializes `params`, converts through the first `v` and
   * `t` pairs of `params`.
   */
  lemma WatchUrlWithQuery(base: string, params: seq<Param>, v: string, t: string)
    requires '?' !in base && '#' !in base
    requires Includes(base + "?" + Serialize(params), WatchMarker) && HasScheme(base + "?" + Serialize(params))
    requires forall i :: 0 <= i < |params| ==> IsPlainParam(params[i])
    requires '#' !in Serialize(params)
    requires IsParamOrEmpty(params, "v", v) && IsParamOrEmpty(params, "t", t)
    ensures ConvertYouTubeUrl(base + "?" + Serialize(params))
         == Returns(EmbedBase + v + RelSuffix + (if t == "" then "" else StartKey + RemoveFirst(t, 's')))
  {
    QueryAfterQuestionMark(base, Serialize(params));
    SearchParamsRoundTrip(params);
    WatchPageOutput(base + "?" + Serialize(params), v, t);
  }

  /** A query on the watch page converts through its first `v` and `t` pairs. */
  lemma WatchPageWithQuery(params: seq<Param>, v: string, t: string)
    requires forall i :: 0 <= i < |params| ==> IsPlainParam(params[i])
    requires '#' !in Serialize(params)
    requires IsParamOrEmpty(params, "v", v) && IsParamOrEmpty(params, "t", t)
    ensures ConvertYouTubeUrl(WatchPage + "?" + Serialize(params))
         == Returns(EmbedBase + v + RelSuffix + (if t == "" then "" else StartKey + RemoveFirst(t, 's')))
  {
    assert '?' !in WatchPage && '#' !in WatchPage;
    WatchPageParses(Serialize(params));
    WatchUrlWithQuery(WatchPage, params, v, t);
  }

  /** Every query on the watch page leaves the URL parsable and holding the watch marker. */
  lemma WatchPageParses(query: string)
    ensures Includes(WatchPage + "?" + query, WatchMarker) && HasScheme(WatchPage + "?" + query)
  {
    WatchPageIncludesMarker(query);
    WatchPageHasScheme(query);
  }

  lemma WatchPageIncludesMarker(query: string)
    ensures Includes(WatchPage + "?" + query, WatchMarker)
  {
    ConcatRegroups(WatchPage, "https://www.", WatchMarker, "?", query);
    IncludesMiddle("https://www.", WatchMarker, "?" + query);
  }

  lemma WatchPageHasScheme(query: string)
    ensures HasScheme(WatchPage + "?" + query)
  {
    ConcatRegroups(WatchPage, "https" + ":", "//www.youtube.com/watch", "?", query);
    assert forall i :: 0 <= i < 5 ==> IsSchemeChar("https"[i]);
    HasSchemeWhenSchemeFirst("https", "//www.youtube.com/watch" + ("?" + query));
  }

  lemma SerializeOne(a: Param)
    ensures Serialize([a]) == a.name + "=" + a.value
  {
    assert Pieces([a]) == [a.name + "=" + a.value];
  }

  lemma SerializeTwo(a: Param, b: Param)
    ensures Serialize([a, b]) == a.name + "=" + a.value + "&" + (b.name + "=" + b.value)
  {
    var pieces := Pieces([a, b]);
    assert pieces == [a.name + "=" + a.value, b.name + "=" + b.value];
    assert pieces[1..] == [b.name + "=" + b.value];
    assert Join(pieces, '&') == pieces[0] + ['&'] + Join(pieces[1..], '&');
  }

  // ---------------------------------------------------------------------------
  // The two default links, and the offset's `s`
  // ---------------------------------------------------------------------------

  /** The first default link: the `t=6567s` offset becomes `&start=6567`. */
  lemma DefaultLinkWithTimestamp()
    ensures ConvertYouTubeUrl("https://www.youtube.com/watch?v=_q5MzsACRJQ&t=6567s")
         == Returns("https://www.youtube.com/embed/_q5MzsACRJQ?rel=0&start=6567")
  {
    var params := TimestampParams();
    TimestampQuerySerialized();
    TimestampQueryUrl();
    WatchPageWithQuery(params, "_q5MzsACRJQ", "6567s");
    TimestampStart();
    TimestampOutput();
  }

  /** Only the trailing `s` of the offset is removed. */
  lemma TimestampStart()
    ensures RemoveFirst("6567s", 's') == "6567"
  {
  }

  /** `replace('s', '')` removes the first `s` only: an offset `5s10s` starts at `510s`. */
  lemma StartParamKeepsLaterS()
    ensures StartParam("5s10s") == StartKey + "510s"
  {
    assert RemoveFirst("5s10s", 's') == "510s";
  }

  /** The second default link, without a time offset: no `&start=` is appended. */
  lemma DefaultLinkWithoutTimestamp()
    ensures ConvertYouTubeUrl("https://www.youtube.com/watch?v=PNb54t9KMGs")
         == Returns("https://www.youtube.com/embed/PNb54t9KMGs?rel=0")
  {
    var params := PlainParams();
    PlainQuerySerialized();
    PlainQueryUrl();
    WatchPageWithQuery(params, "PNb54t9KMGs", "");
    PlainOutput();
  }

  // ---------------------------------------------------------------------------
  // Branch priority, short links, and URLs returned as they are
  // ---------------------------------------------------------------------------

  /** A watch URL whose later parameter mentions `youtu.be` still takes the watch branch. */
  lemma WatchBranchComesFirst()
    ensures ConvertYouTubeUrl("https://www.youtube.com/watch?v=abc&feature=youtu.be")
         == Returns("https://www.youtube.com/embed/abc?rel=0")
  {
    var params := FeatureParams();
    FeatureQuerySerialized();
    FeatureQueryUrl();
    WatchPageWithQuery(params, "abc", "");
    FeatureOutput();
  }

  /** A short link `https://youtu.be/<id><after>`, with `<after>` empty or a `?`-query, converts to the embed URL of `<id>`. */
  lemma ShortLinkWithQuery(id: string, after: string)
    requires '/' !in id && '?' !in id && 'w' !in id
    requires '/' !in after && 'w' !in after && (after == [] || after[0] == '?')
    ensures ConvertYouTubeUrl("https://youtu.be/" + id + after) == Returns(EmbedBase + id + RelSuffix)
  {
    var before := "https://youtu.be/";
    var url := before + id + after;
    assert before == "https://" + ShortMarker + "/" && before[|before| - 1] == '/' && 'w' !in before;
    assert url == "https://" + ShortMarker + ("/" + id + after);
    IncludesMiddle("https://", ShortMarker, "/" + id + after);
    assert WatchMarker[12] == 'w' && 'w' !in url;
    NotIncludedWithoutChar(url, WatchMarker, 12);
    ShortLinkIdAfterLastSlash(before, id, after);
    ShortLinkOutput(url, id);
  }

  /** A short link: the identifier after the last `/` is moved onto the embed base. */
  lemma ShortLink()
    ensures ConvertYouTubeUrl("https://youtu.be/XYZ789") == Returns("https://www.youtube.com/embed/XYZ789?rel=0")
  {
    var id := ExampleId();
    ShortLinkWithQuery(id, "");
    ShortLinkUrls();
    ShortLinkEmbed();
  }

  /** A short link's own query, even a time offset, is dropped. */
  lemma ShortLinkDropsQuery()
    ensures ConvertYouTubeUrl("https://youtu.be/XYZ789?t=42") == Returns("https://www.youtube.com/embed/XYZ789?rel=0")
  {
    var id := ExampleId();
    ShortLinkWithQuery(id, "?t=42");
    ShortLinkUrls();
    ShortLinkEmbed();
  }

  /** An embed URL is returned as it is. */
  lemma EmbedLinkPassesThrough()
    ensures ConvertYouTubeUrl("https://www.youtube.com/embed/ABC123?rel=0")
         == Returns("https://www.youtube.com/embed/ABC123?rel=0")
  {
    WithoutYIsMarkerFree("ABC123");
    WithoutYIsMarkerFree("");
    EmbedUrlIsFixedPoint("ABC123", "");
    EmbedLinkPieces();
  }

  /** Both markers start with `y`, so a string without one holds neither. */
  lemma WithoutYIsMarkerFree(s: string)
    requires 'y' !in s
    ensures MarkerFree(s)
  {
    NotIncludedWithoutChar(s, WatchMarker, 0);
    NotIncludedWithoutChar(s, ShortMarker, 0);
  }

  /** A URL of another site is returned as it is. */
  lemma OtherSitePassesThrough()
    ensures ConvertYouTubeUrl("https://example.com/video/42") == Returns("https://example.com/video/42")
  {
    var url := "https://example.com/video/42";
    assert 'y' !in url;
    WithoutYIsMarkerFree(url);
  }

  /** A watch address without a scheme makes `new URL` throw. */
  lemma WatchPageWithoutSchemeThrows()
    ensures ConvertYouTubeUrl("youtube.com/watch?v=abc") == ThrowsTypeError
  {
    SchemelessParts();
    IncludesMiddle("", WatchMarker, "?v=abc");
    NoSchemeWithoutColon("youtube.com/watch?v=abc");
  }

  // ---------------------------------------------------------------------------
  // Literal facts
  // ---------------------------------------------------------------------------

  // The solver handles long string literals poorly; each fact about the
  // literals of one example above is stated and proved on its own here.

  lemma TimestampParams() returns (params: seq<Param>)
    ensures params == [Param("v", "_q5MzsACRJQ"), Param("t", "6567s")]
    ensures forall i :: 0 <= i < |params| ==> IsPlainParam(params[i])
    ensures IsParamOrEmpty(params, "v", "_q5MzsACRJQ") && IsParamOrEmpty(params, "t", "6567s")
  {
    params := [Param("v", "_q5MzsACRJQ"), Param("t", "6567s")];
    assert FirstPairNamed(params, "v", 0) && FirstPairNamed(params, "t", 1);
  }

  lemma TimestampQuerySerialized()
    ensures Serialize([Param("v", "_q5MzsACRJQ"), Param("t", "6567s")]) == "v=_q5MzsACRJQ&t=6567s"
  {
    SerializeTwo(Param("v", "_q5MzsACRJQ"), Param("t", "6567s"));
    assert "v" + "=" + "_q5MzsACRJQ" + "&" + ("t" + "=" + "6567s") == "v=_q5MzsACRJQ&t=6567s";
  }

  lemma TimestampQueryUrl()
    ensures '#' !in "v=_q5MzsACRJQ&t=6567s"
    ensures WatchPage + "?" + "v=_q5MzsACRJQ&t=6567s" == "https://www.youtube.com/watch?v=_q5MzsACRJQ&t=6567s"
  {
  }

  lemma TimestampOutput()
    ensures EmbedBase + "_q5MzsACRJQ" + RelSuffix + (StartKey + "6567")
         == "https://www.youtube.com/embed/_q5MzsACRJQ?rel=0&start=6567"
  {
  }

  lemma PlainParams() returns (params: seq<Param>)
    ensures params == [Param("v", "PNb54t9KMGs")]
    ensures forall i :: 0 <= i < |params| ==> IsPlainParam(params[i])
    ensures IsParamOrEmpty(params, "v", "PNb54t9KMGs") && IsParamOrEmpty(params, "t", "")
  {
    params := [Param("v", "PNb54t9KMGs")];
    assert FirstPairNamed(params, "v", 0);
  }

  lemma PlainQuerySerialized()
    ensures Serialize([Param("v", "PNb54t9KMGs")]) == "v=PNb54t9KMGs"
  {
    SerializeOne(Param("v", "PNb54t9KMGs"));
  }

  lemma PlainQueryUrl()
    ensures '#' !in "v=PNb54t9KMGs"
    ensures WatchPage + "?" + "v=PNb54t9KMGs" == "https://www.youtube.com/watch?v=PNb54t9KMGs"
  {
  }

  lemma PlainOutput()
    ensures EmbedBase + "PNb54t9KMGs" + RelSuffix + "" == "https://www.youtube.com/embed/PNb54t9KMGs?rel=0"
  {
  }

  lemma FeatureParams() returns (params: seq<Param>)
    ensures params == [Param("v", "abc"), Param("feature", "youtu.be")]
    ensures forall i :: 0 <= i < |params| ==> IsPlainParam(params[i])
    ensures IsParamOrEmpty(params, "v", "abc") && IsParamOrEmpty(params, "t", "")
  {
    params := [Param("v", "abc"), Param("feature", "youtu.be")];
    assert FirstPairNamed(params, "v", 0);
  }

  lemma FeatureQuerySerialized()
    ensures Serialize([Param("v", "abc"), Param("feature", "youtu.be")]) == "v=abc&feature=youtu.be"
  {
    SerializeTwo(Param("v", "abc"), Param("feature", "youtu.be"));
    assert "v" + "=" + "abc" + "&" + ("feature" + "=" + "youtu.be") == "v=abc&feature=youtu.be";
  }

  lemma FeatureQueryUrl()
    ensures '#' !in "v=abc&feature=youtu.be"
    ensures WatchPage + "?" + "v=abc&feature=youtu.be" == "https://www.youtube.com/watch?v=abc&feature=youtu.be"
  {
  }

  lemma FeatureOutput()
    ensures EmbedBase + "abc" + RelSuffix + "" == "https://www.youtube.com/embed/abc?rel=0"
  {
  }

  lemma ExampleId() returns (id: string)
    ensures id == "XYZ789" && '/' !in id && '?' !in id && 'w' !in id
  {
    id := "XYZ789";
  }

  lemma ShortLinkUrls()
    ensures "https://youtu.be/" + "XYZ789" + "" == "https://youtu.be/XYZ789"
    ensures "https://youtu.be/" + "XYZ789" + "?t=42" == "https://youtu.be/XYZ789?t=42"
  {
  }

  lemma ShortLinkEmbed()
    ensures EmbedBase + "XYZ789" + RelSuffix == "https://www.youtube.com/embed/XYZ789?rel=0"
  {
  }

  lemma EmbedLinkPieces()
    ensures EmbedBase + "ABC123" + RelSuffix + "" == "https://www.youtube.com/embed/ABC123?rel=0"
  {
  }

  lemma SchemelessParts()
    ensures "" + WatchMarker + "?v=abc" == "youtube.com/watch?v=abc"
    ensures ':' !in "youtube.com/watch?v=abc"
  {
  }
}
