/**
 * The YouTube link normaliser of the "Listen" section: `convertYouTubeUrl`
 * turns a watch-page URL or a short link into the embeddable
 * `https://www.youtube.com/embed/<id>?rel=0[&start=<t>]` form and returns
 * every other string unchanged.
 */
module ListenSection {
  import opened Wrappers
  import opened Strings

  const WatchMarker: string := "youtube.com/watch"
  const ShortMarker: string := "youtu.be"
  const EmbedMarker: string := "/embed/"
  const EmbedBase: string := "https://www.youtube.com/embed/"
  const RelSuffix: string := "?rel=0"
  const StartKey: string := "&start="

  /** A call of `convertYouTubeUrl` either returns a string or throws the `TypeError` of `new URL`. */
  datatype Outcome = Returns(value: string) | ThrowsTypeError

  // ---------------------------------------------------------------------------
  // `new URL(url)` and its `searchParams`, reduced to what the normaliser reads
  // ---------------------------------------------------------------------------

  predicate IsAsciiAlpha(c: char)
  {
    'a' <= c <= 'z' || 'A' <= c <= 'Z'
  }

  predicate IsSchemeChar(c: char)
  {
    IsAsciiAlpha(c) || '0' <= c <= '9' || c == '+' || c == '-' || c == '.'
  }

  /** The URL parser first strips leading C0 control characters and spaces (U+0000 to U+0020). */
  function DropLeadingControls(s: string): (r: string)
    ensures |r| <= |s| && r == s[|s| - |r|..]
    ensures r == [] || r[0] > ' '
    ensures forall i :: 0 <= i < |s| - |r| ==> s[i] <= ' '
  {
    if s != [] && s[0] <= ' ' then DropLeadingControls(s[1..]) else s
  }

  predicate IsTabOrNewline(c: char)
  {
    c == '\t' || c == '\n' || c == '\r'
  }

  /** The URL parser then removes every ASCII tab and newline, wherever it stands. */
  function RemoveTabsAndNewlines(s: string): string
  {
    if s == [] then []
    else (if IsTabOrNewline(s[0]) then [] else [s[0]]) + RemoveTabsAndNewlines(s[1..])
  }

  /** Removal adds no character, and leaves no tab or newline. */
  lemma {:induction false} RemovalKeepsOtherChars(s: string)
    ensures forall c :: c in RemoveTabsAndNewlines(s) ==> c in s && !IsTabOrNewline(c)
    decreases |s|
  {
    if s != [] {
      RemovalKeepsOtherChars(s[1..]);
      forall c | c in s[1..] ensures c in s {
        assert s == [s[0]] + s[1..];
      }
    }
  }

  /** A string without tabs and newlines is left as it is. */
  lemma {:induction false} RemovalWithoutTabs(s: string)
    requires forall i :: 0 <= i < |s| ==> !IsTabOrNewline(s[i])
    ensures RemoveTabsAndNewlines(s) == s
    decreases |s|
  {
    if s != [] {
      RemovalWithoutTabs(s[1..]);
      assert s == [s[0]] + s[1..];
    }
  }

  /** Removing tabs and newlines from a concatenation removes them from each part. */
  lemma {:induction false} RemoveTabsAndNewlinesConcat(a: string, b: string)
    ensures RemoveTabsAndNewlines(a + b) == RemoveTabsAndNewlines(a) + RemoveTabsAndNewlines(b)
    decreases |a|
  {
    if a == [] {
      assert a + b == b;
    } else {
      assert (a + b)[1..] == a[1..] + b;
      RemoveTabsAndNewlinesConcat(a[1..], b);
    }
  }

  /** `s` starts with a scheme: an ASCII letter, then letters, digits, `+`, `-` or `.`, then `:`. */
  predicate StartsWithScheme(s: string)
  {
    var k := IndexOf(s, ':');
    1 <= k < |s| && IsAsciiAlpha(s[0]) && forall i :: 1 <= i < k ==> IsSchemeChar(s[i])
  }

  /**
   * `new URL(url)` without a base URL throws unless `url`, once its leading
   * controls and spaces and all its tabs and newlines are gone, starts with a scheme.
   */
  predicate HasScheme(url: string)
  {
    StartsWithScheme(RemoveTabsAndNewlines(DropLeadingControls(url)))
  }

  /** A URL without a colon has no scheme, so `new URL` rejects it. */
  lemma NoSchemeWithoutColon(url: string)
    requires ':' !in url
    ensures !HasScheme(url)
  {
    var s := DropLeadingControls(url);
    assert forall c :: c in s ==> c in url;
    RemovalKeepsOtherChars(s);
    IndexOfAbsent(RemoveTabsAndNewlines(s), ':');
  }

  /** The query of a URL: what follows its first `?`, up to its first `#` (empty when no `?` comes before a `#`). */
  function Query(url: string): string
  {
    var beforeFragment := url[..IndexOf(url, '#')];
    var k := IndexOf(beforeFragment, '?');
    if k == |beforeFragment| then "" else beforeFragment[k + 1..]
  }

  /** One name/value pair of `URLSearchParams`. */
  datatype Param = Param(name: string, value: string)

  /** Form decoding turns `+` into a space. */
  function PlusToSpace(s: string): string
  {
    seq(|s|, i requires 0 <= i < |s| => if s[i] == '+' then ' ' else s[i])
  }

  /** A non-empty `&`-separated piece: the name is what precedes its first `=`, the value what follows it. */
  function ParseParam(piece: string): Param
  {
    var k := IndexOf(piece, '=');
    if k == |piece| then Param(PlusToSpace(piece), "")
    else Param(PlusToSpace(piece[..k]), PlusToSpace(piece[k + 1..]))
  }

  /** Empty pieces (from `&&`, or a leading or trailing `&`) give no pair. */
  function ParsePieces(pieces: seq<string>): seq<Param>
  {
    if pieces == [] then []
    else (if pieces[0] == "" then [] else [ParseParam(pieces[0])]) + ParsePieces(pieces[1..])
  }

  /** `new URL(url).searchParams`, in order. */
  function SearchParams(url: string): seq<Param>
  {
    ParsePieces(Split(Query(url), '&'))
  }

  /** `URLSearchParams.toString()` for pairs that need no percent-encoding: `name=value` pieces joined by `&`. */
  function Serialize(params: seq<Param>): string
  {
    if params == [] then "" else Join(Pieces(params), '&')
  }

  function Pieces(params: seq<Param>): seq<string>
  {
    seq(|params|, i requires 0 <= i < |params| => params[i].name + "=" + params[i].value)
  }

  /** A pair whose serialization needs no escaping: no `&` or `+` anywhere, no `=` in the name. */
  predicate IsPlainParam(p: Param)
  {
    '&' !in p.name && '&' !in p.value && '=' !in p.name && '+' !in p.name && '+' !in p.value
  }

  lemma PlusToSpaceKeepsPlain(s: string)
    requires '+' !in s
    ensures PlusToSpace(s) == s
  {
  }

  /** Parsing a query gives back the plain pairs it was serialized from, in order. */
  lemma {:induction false} SearchParamsRoundTrip(params: seq<Param>)
    requires forall i :: 0 <= i < |params| ==> IsPlainParam(params[i])
    ensures ParsePieces(Split(Serialize(params), '&')) == params
  {
    if params == [] {
      assert Split("", '&') == [""];
    } else {
      var pieces := Pieces(params);
      forall i | 0 <= i < |pieces| ensures '&' !in pieces[i] {
        assert pieces[i] == params[i].name + ("=" + params[i].value);
      }
      SplitJoin(pieces, '&');
      PiecesParse(params);
    }
  }

  lemma {:induction false} PiecesParse(params: seq<Param>)
    requires forall i :: 0 <= i < |params| ==> IsPlainParam(params[i])
    ensures ParsePieces(Pieces(params)) == params
    decreases |params|
  {
    if params != [] {
      var p := params[0];
      var piece := p.name + "=" + p.value;
      assert piece == p.name + ("=" + p.value);
      IndexOfAfter(p.name, '=', "=" + p.value);
      assert piece[..|p.name|] == p.name && piece[|p.name| + 1..] == p.value;
      PlusToSpaceKeepsPlain(p.name);
      PlusToSpaceKeepsPlain(p.value);
      assert ParseParam(piece) == p;
      assert Pieces(params)[1..] == Pieces(params[1..]);
      PiecesParse(params[1..]);
      assert params == [p] + params[1..];
    }
  }

  /** The query of `base?query` is `query` when `base` holds no `?` and neither part a `#`. */
  lemma QueryAfterQuestionMark(base: string, query: string)
    requires '?' !in base && '#' !in base && '#' !in query
    ensures Query(base + "?" + query) == query
  {
    var url := base + "?" + query;
    IndexOfAbsent(url, '#');
    assert url[..|url|] == url;
    IndexOfAfter(base, '?', "?" + query);
    assert url == base + ("?" + query);
    assert url[|base| + 1..] == query;
  }

  /** A string that starts with a well-formed scheme and `:` starts with a scheme. */
  lemma SchemeFirstStartsWithScheme(scheme: string, rest: string)
    requires scheme != [] && IsAsciiAlpha(scheme[0])
    requires forall i :: 0 <= i < |scheme| ==> IsSchemeChar(scheme[i])
    ensures StartsWithScheme(scheme + ":" + rest)
  {
    var url := scheme + (":" + rest);
    assert url == scheme + ":" + rest;
    assert url[0] == scheme[0];
    IndexOfAfter(scheme, ':', ":" + rest);
    forall i | 1 <= i < |scheme| ensures IsSchemeChar(url[i]) {
      assert url[i] == scheme[i];
    }
  }

  /** A URL that starts with a well-formed scheme and `:` can be parsed. */
  lemma HasSchemeWhenSchemeFirst(scheme: string, rest: string)
    requires scheme != [] && IsAsciiAlpha(scheme[0])
    requires forall i :: 0 <= i < |scheme| ==> IsSchemeChar(scheme[i])
    ensures HasScheme(scheme + ":" + rest)
  {
    var url := scheme + ":" + rest;
    assert url[0] == scheme[0];
    assert DropLeadingControls(url) == url;
    RemoveTabsAndNewlinesConcat(scheme + ":", rest);
    RemoveTabsAndNewlinesConcat(scheme, ":");
    RemovalWithoutTabs(scheme);
    assert RemoveTabsAndNewlines(":") == ":";
    assert RemoveTabsAndNewlines(url) == scheme + ":" + RemoveTabsAndNewlines(rest);
    SchemeFirstStartsWithScheme(scheme, RemoveTabsAndNewlines(rest));
  }

  /** A tab inside the scheme is removed before the scheme is read: `h<TAB>ttps:` parses as `https:`. */
  lemma TabInSchemeIsIgnored(before: string, after: string, rest: string)
    requires before != [] && IsAsciiAlpha(before[0])
    requires forall i :: 0 <= i < |before| ==> IsSchemeChar(before[i])
    requires forall i :: 0 <= i < |after| ==> IsSchemeChar(after[i])
    ensures HasScheme(before + "\t" + after + ":" + rest)
  {
    var scheme := before + after;
    var url := before + "\t" + after + ":" + rest;
    assert url[0] == before[0];
    assert DropLeadingControls(url) == url;
    TabRemovedFromScheme(before, after, rest);
    forall i | 0 <= i < |scheme| ensures IsSchemeChar(scheme[i]) {
      if i >= |before| {
        assert scheme[i] == after[i - |before|];
      }
    }
    SchemeFirstStartsWithScheme(scheme, RemoveTabsAndNewlines(rest));
  }

  lemma TabRemovedFromScheme(before: string, after: string, rest: string)
    requires forall i :: 0 <= i < |before| ==> !IsTabOrNewline(before[i])
    requires forall i :: 0 <= i < |after| ==> !IsTabOrNewline(after[i])
    ensures RemoveTabsAndNewlines(before + "\t" + after + ":" + rest)
         == before + after + ":" + RemoveTabsAndNewlines(rest)
  {
    var tail := after + ([':'] + rest);
    assert before + "\t" + after + ":" + rest == before + ['\t'] + tail;
    RemovalSkipsChar(before, '\t', tail);
    RemovalWithoutTabs(before);
    RemoveTabsAndNewlinesConcat(after, [':'] + rest);
    RemovalWithoutTabs(after);
    RemovalKeepsChar(':', rest);
  }

  lemma RemovalSkipsChar(a: string, c: char, b: string)
    requires IsTabOrNewline(c)
    ensures RemoveTabsAndNewlines(a + [c] + b) == RemoveTabsAndNewlines(a) + RemoveTabsAndNewlines(b)
  {
    RemoveTabsAndNewlinesConcat(a + [c], b);
    RemoveTabsAndNewlinesConcat(a, [c]);
    assert RemoveTabsAndNewlines([c]) == [];
  }

  lemma RemovalKeepsChar(c: char, b: string)
    requires !IsTabOrNewline(c)
    ensures RemoveTabsAndNewlines([c] + b) == [c] + RemoveTabsAndNewlines(b)
  {
    assert ([c] + b)[1..] == b;
  }

  /** The index of the first pair called `name`, or `|params|` when there is none. */
  function FirstNamed(params: seq<Param>, name: string): (k: nat)
    ensures k <= |params|
    ensures forall j :: 0 <= j < k ==> params[j].name != name
    ensures k < |params| ==> params[k].name == name
  {
    if params == [] then 0
    else if params[0].name == name then 0
    else 1 + FirstNamed(params[1..], name)
  }

  /** `searchParams.get(name)`: the value of the first pair called `name`, or null. */
  function Get(params: seq<Param>, name: string): Option<string>
  {
    var k := FirstNamed(params, name);
    if k < |params| then Some(params[k].value) else None
  }

  /** `value` is what `searchParams.get(name) || ''` gives: the first `name` pair's value, or "" when there is none. */
  ghost predicate IsParamOrEmpty(params: seq<Param>, name: string, value: string)
  {
    (exists i :: FirstPairNamed(params, name, i) && params[i].value == value)
    || (value == "" && forall i :: 0 <= i < |params| ==> params[i].name != name)
  }

  ghost predicate FirstPairNamed(params: seq<Param>, name: string, i: int)
  {
    0 <= i < |params| && params[i].name == name && forall j :: 0 <= j < i ==> params[j].name != name
  }

  /** `get(name) || ''` is the one value `IsParamOrEmpty` allows. */
  lemma {:induction false} GetOrEmptyIsParamOrEmpty(params: seq<Param>, name: string, value: string)
    ensures IsParamOrEmpty(params, name, value) <==> value == Get(params, name).GetOr("")
  {
    var k := FirstNamed(params, name);
    if k < |params| {
      assert FirstPairNamed(params, name, k);
      if IsParamOrEmpty(params, name, value) {
        var i :| FirstPairNamed(params, name, i) && params[i].value == value;
        assert i == k;
      }
    }
  }

  // ---------------------------------------------------------------------------
  // The short-link identifier
  // ---------------------------------------------------------------------------

  /** `parts[parts.length - 1].split('?')[0]` with `parts = url.split('/')`. */
  function ShortLinkId(url: string): string
  {
    var parts := Split(url, '/');
    Split(parts[|parts| - 1], '?')[0]
  }

  /**
   * `id` starts at `i`, just after the last `/` of `url` (or at its start when
   * it has none), and runs up to the first `?` after that or to the end.
   */
  ghost predicate ShortLinkIdAt(url: string, id: string, i: int)
  {
    0 <= i && i + |id| <= |url| && url[i..i + |id|] == id
    && (i == 0 || url[i - 1] == '/') && '/' !in url[i..]
    && '?' !in id && (i + |id| == |url| || url[i + |id|] == '?')
  }

  ghost predicate IsShortLinkId(url: string, id: string)
  {
    exists i :: ShortLinkIdAt(url, id, i)
  }

  /** The text after the last `/`, up to the first `?`, is what the short-link branch extracts. */
  lemma {:induction false} ShortLinkIdIsLastSegment(url: string)
    ensures ShortLinkIdAt(url, ShortLinkId(url), LastSegmentStart(url))
  {
    var parts := Split(url, '/');
    var n := |parts|;
    var last := parts[n - 1];
    var i := LastSegmentStart(url);
    if n > 1 {
      JoinLast(parts, '/');
      assert url == Join(parts[..n - 1], '/') + ['/'] + last;
    }
    assert url[i..] == last;
    var pieces := Split(last, '?');
    var id := pieces[0];
    if |pieces| > 1 {
      assert last == id + ['?'] + Join(pieces[1..], '?');
      assert url[i..][..|id|] == id;
      assert url[i..][|id|] == '?';
    } else {
      assert last == id;
    }
  }

  /** Where the last `/`-separated segment of `url` starts. */
  function LastSegmentStart(url: string): nat
  {
    var parts := Split(url, '/');
    if |parts| == 1 then 0 else |Join(parts[..|parts| - 1], '/')| + 1
  }

  /** The text after a final `/` up to a `?` (or the end) is the short-link identifier. */
  lemma ShortLinkIdAfterLastSlash(before: string, id: string, after: string)
    requires before == [] || before[|before| - 1] == '/'
    requires '/' !in id && '?' !in id && '/' !in after
    requires after == [] || after[0] == '?'
    ensures IsShortLinkId(before + id + after, id)
  {
    var url := before + id + after;
    assert url[|before|..] == id + after;
    assert url[|before|..|before| + |id|] == id;
    assert ShortLinkIdAt(url, id, |before|);
  }

  /** The short-link identifier of a URL is unique. */
  lemma {:induction false} ShortLinkIdUnique(url: string, a: string, i: int, b: string, j: int)
    requires ShortLinkIdAt(url, a, i) && ShortLinkIdAt(url, b, j)
    ensures a == b && i == j
  {
    if i < j {
      SuffixChar(url, i, j - 1);
    } else if j < i {
      SuffixChar(url, j, i - 1);
    } else if |a| < |b| {
      SliceChar(url, j, b, |a|);
    } else if |b| < |a| {
      SliceChar(url, i, a, |b|);
    }
  }

  // ---------------------------------------------------------------------------
  // convertYouTubeUrl
  // ---------------------------------------------------------------------------

  /** `&start=<t>` with the first `s` of `t` removed, or nothing when `t` is empty. */
  function StartParam(timestamp: string): string
  {
    if timestamp == "" then "" else StartKey + RemoveFirst(timestamp, 's')
  }

  /**
   * `convertYouTubeUrl(url)`: a watch-page URL is rebuilt from its `v` and `t`
   * parameters (parsing it may throw), a short link from its last path
   * segment, and anything else is returned as it is.
   */
  function ConvertYouTubeUrl(url: string): (r: Outcome)
    ensures r.ThrowsTypeError? <==> Includes(url, WatchMarker) && !HasScheme(url)
    ensures !Includes(url, WatchMarker) && !Includes(url, ShortMarker) ==> r == Returns(url)
  {
    if Includes(url, WatchMarker) then
      if !HasScheme(url) then ThrowsTypeError
      else
        var params := SearchParams(url);
        var videoId := Get(params, "v").GetOr("");
        var timestamp := Get(params, "t").GetOr("");
        Returns(EmbedBase + videoId + RelSuffix + StartParam(timestamp))
    else if Includes(url, ShortMarker) then
      Returns(EmbedBase + ShortLinkId(url) + RelSuffix)
    else if Includes(url, EmbedMarker) then
      Returns(url)
    else
      Returns(url)
  }

  /**
   * A parsable URL holding `youtube.com/watch` becomes the embed URL of its
   * first `v` parameter (or of "") with `&start=` and its first `t` parameter
   * less the first `s` when that is non-empty, whether or not it also holds
   * `youtu.be`.
   */
  lemma WatchPageOutput(url: string, v: string, t: string)
    requires Includes(url, WatchMarker) && HasScheme(url)
    requires IsParamOrEmpty(SearchParams(url), "v", v)
    requires IsParamOrEmpty(SearchParams(url), "t", t)
    ensures ConvertYouTubeUrl(url)
         == Returns(EmbedBase + v + RelSuffix + (if t == "" then "" else StartKey + RemoveFirst(t, 's')))
  {
    GetOrEmptyIsParamOrEmpty(SearchParams(url), "v", v);
    GetOrEmptyIsParamOrEmpty(SearchParams(url), "t", t);
  }

  /**
   * A URL holding `youtu.be` but not `youtube.com/watch` becomes the embed URL
   * of the text after its last `/` up to the first `?`, never with a start offset.
   */
  lemma ShortLinkOutput(url: string, id: string)
    requires !Includes(url, WatchMarker) && Includes(url, ShortMarker)
    requires IsShortLinkId(url, id)
    ensures ConvertYouTubeUrl(url) == Returns(EmbedBase + id + RelSuffix)
  {
    var i :| ShortLinkIdAt(url, id, i);
    ShortLinkIdIsLastSegment(url);
    ShortLinkIdUnique(url, id, i, ShortLinkId(url), LastSegmentStart(url));
  }

  /** Neither marker occurs in `s`. */
  predicate MarkerFree(s: string)
  {
    !Includes(s, WatchMarker) && !Includes(s, ShortMarker)
  }

  /** An embed URL whose id and tail hold neither marker is passed through unchanged. */
  lemma EmbedUrlIsFixedPoint(id: string, tail: string)
    requires MarkerFree(id) && MarkerFree(tail)
    ensures ConvertYouTubeUrl(EmbedBase + id + RelSuffix + tail) == Returns(EmbedBase + id + RelSuffix + tail)
  {
    EmbedUrlIsMarkerFree(id, tail);
  }

  /** Building an embed URL from marker-free pieces creates no marker. */
  lemma EmbedUrlIsMarkerFree(id: string, tail: string)
    requires MarkerFree(id) && MarkerFree(tail)
    ensures MarkerFree(EmbedBase + id + RelSuffix + tail)
  {
    IdAndQueryAreMarkerFree(id, tail);
    MarkerFreeAfterEmbedBase(id + (RelSuffix + tail));
    ConcatAssociates(EmbedBase, id, RelSuffix, tail);
  }

  lemma MarkerFreeAfterEmbedBase(rest: string)
    requires MarkerFree(rest)
    ensures MarkerFree(EmbedBase + rest)
  {
    EmbedBaseIsMarkerFree();
    EmbedBaseHasNoLateY();
    MarkerFreeAfterPrefix(EmbedBase, rest);
  }

  lemma IdAndQueryAreMarkerFree(id: string, tail: string)
    requires MarkerFree(id) && MarkerFree(tail)
    ensures MarkerFree(id + (RelSuffix + tail))
  {
    QueryPartsAreMarkerFree();
    MarkerFreeAfterPrefix(RelSuffix, tail);
    MarkerFreeBeforeQuery(id, RelSuffix + tail);
  }

  /** The only `y` of `EmbedBase` starts `youtube.com/embed/`, which is neither marker. */
  lemma EmbedBaseIsMarkerFree()
    ensures MarkerFree(EmbedBase)
  {
    forall i | OccursAt(EmbedBase, WatchMarker, i) ensures false {
      OccurrenceChars(EmbedBase, WatchMarker, i, 12);
    }
    forall i | OccursAt(EmbedBase, ShortMarker, i) ensures false {
      OccurrenceChars(EmbedBase, ShortMarker, i, 5);
    }
  }

  lemma OccurrenceChars(s: string, p: string, i: int, k: int)
    requires OccursAt(s, p, i) && 0 <= k < |p|
    ensures s[i] == p[0] && s[i + k] == p[k]
  {
    SliceChar(s, i, p, 0);
    SliceChar(s, i, p, k);
  }

  /** No `y` of `EmbedBase` comes late enough for a marker to run past its end. */
  lemma EmbedBaseHasNoLateY()
    ensures forall i :: 14 <= i < |EmbedBase| ==> EmbedBase[i] != 'y'
  {
  }

  /** The query parts of an embed URL are too short to hold a marker and hold no `y`. */
  lemma QueryPartsAreMarkerFree()
    ensures MarkerFree(RelSuffix) && MarkerFree(StartKey)
    ensures 'y' !in RelSuffix && 'y' !in StartKey
  {
  }

  /** What follows a marker-free prefix with no late `y` adds no marker. */
  lemma MarkerFreeAfterPrefix(fixed: string, rest: string)
    requires MarkerFree(fixed) && MarkerFree(rest)
    requires forall i :: 0 <= i < |fixed| && |fixed| < i + |WatchMarker| ==> fixed[i] != 'y'
    ensures MarkerFree(fixed + rest)
  {
    IncludedAcrossHead(fixed, rest, WatchMarker);
    IncludedAcrossHead(fixed, rest, ShortMarker);
  }

  /** No marker runs from an id into the `?` that follows it. */
  lemma MarkerFreeBeforeQuery(id: string, rest: string)
    requires MarkerFree(id) && MarkerFree(rest)
    requires rest != [] && rest[0] == '?'
    ensures MarkerFree(id + rest)
  {
    IncludedAcrossSeparator(id, rest, WatchMarker);
    IncludedAcrossSeparator(id, rest, ShortMarker);
  }

  /** Converting a watch-page URL twice gives what converting it once gives, when its id and start offset hold neither marker. */
  lemma WatchPageOutputIsFixedPoint(url: string)
    requires Includes(url, WatchMarker) && HasScheme(url)
    requires MarkerFree(Get(SearchParams(url), "v").GetOr(""))
    requires MarkerFree(RemoveFirst(Get(SearchParams(url), "t").GetOr(""), 's'))
    ensures ConvertYouTubeUrl(url).Returns?
    ensures ConvertYouTubeUrl(ConvertYouTubeUrl(url).value) == ConvertYouTubeUrl(url)
  {
    var t := Get(SearchParams(url), "t").GetOr("");
    if t != "" {
      QueryPartsAreMarkerFree();
      MarkerFreeAfterPrefix(StartKey, RemoveFirst(t, 's'));
    }
    EmbedUrlIsFixedPoint(Get(SearchParams(url), "v").GetOr(""), StartParam(t));
  }

  /** Converting a short link twice gives what converting it once gives, when its id holds neither marker. */
  lemma ShortLinkOutputIsFixedPoint(url: string, id: string)
    requires !Includes(url, WatchMarker) && Includes(url, ShortMarker)
    requires IsShortLinkId(url, id) && MarkerFree(id)
    ensures ConvertYouTubeUrl(url).Returns?
    ensures ConvertYouTubeUrl(ConvertYouTubeUrl(url).value) == ConvertYouTubeUrl(url)
  {
    ShortLinkOutput(url, id);
    EmbedUrlIsFixedPoint(id, "");
    assert EmbedBase + id + RelSuffix + "" == EmbedBase + id + RelSuffix;
  }
}
