# Watch and listen sections: a Dafny model

The project models the two parts of the artist page that hold logic.

**The YouTube URL normaliser** is `convertYouTubeUrl` in the listen section. It turns a link into an embeddable URL:

- A watch-page link (one holding `youtube.com/watch`) is parsed with `new URL`. It becomes `https://www.youtube.com/embed/<v>?rel=0`, followed by `&start=<t>` when the `t` parameter is non-empty. The first `s` of `t` is removed.
- A short link (one holding `youtu.be`) becomes the embed URL of its last path segment, cut at the first `?`.
- Anything else is returned unchanged.

**The video gallery of the watch section** has four parts:

- its catalog of videos;
- the split of the catalog into three rows;
- the tiles the render shows;
- the modal player, which has two pieces of state: `selectedVideo` and `isPlaying`.

The modal's three handlers (click a tile, close, toggle play/pause) change that state and call `play()`/`pause()` on the modal's `<video>` element. Two things happen later as separate events:

- the animation frame scheduled by a click;
- the settling of each `play()` promise (it fulfils or rejects).

Modules:

- `Wrappers` (`wrappers.dfy`): the `Option` type, used for `T | null`.
- `Strings` (`strings.dfy`): the JavaScript string operations the normaliser uses:
  - `includes`, specified by occurrence;
  - `split` on one character, with its `join` round trip;
  - `replace` of a one-character string.
- `ListenSection` (`listen_section.dfy`):
  - the reduced `new URL` and `searchParams`;
  - the short-link identifier;
  - `ConvertYouTubeUrl` and the lemmas about each branch, branch priority and idempotence.
- `ListenExamples` (`listen_examples.dfy`): concrete conversions. These include the two links the listen section ships with.
- `WatchSection` (`watch_section.dfy`):
  - the `VideoItem` record and the default catalog;
  - the rows and the gallery render;
  - the modal as pure transition functions over `ModalState`, with an invariant kept by every run of events;
  - the class `Modal`, whose fields the handlers update in place. Each method is specified by the matching transition function.

Behaviour of the code worth noting (the model follows the code in each case):

- **No guard against stale rejections.** The rejection handler of a click's `play()` (`WatchSection.tsx:75-78`) always sets `isPlaying` to false. This holds even when another video has been opened since (`LateRejectionPausesNewSelection`).
- **Toggle rejections do not pause.** A `play()` issued by the toggle only logs its rejection, so `isPlaying` stays true (`WatchSection.tsx:96-99`).
- **Close pauses only an open modal.** Closing sends `pause()` only when the `<video>` element is mounted, that is, while a video is selected (`WatchSection.tsx:84-86`, `270-281`).
- **Switching videos reuses one element.** Selecting a new video while one is open sends no pause. The single `<video>` element is given the new source, and a `play()` follows on the next frame.
- **Short catalogs crash the render.** The rows are indexed without checks, so a catalog of fewer than four videos makes the render throw (`RenderGallery`).

## Model

| member | source | states |
|---|---|---|
| Strings.Includes | src/app/components/Main/ListenSection.tsx:12 | `s.includes(p)` is true exactly when `p` occurs at some index of `s` |
| Strings.Split | src/app/components/Main/ListenSection.tsx:22-23 | `split` on one character gives at least one part; no part holds the separator; joining the parts with it gives the string back |
| Strings.SplitJoin | src/app/components/Main/ListenSection.tsx:22-23 | splitting a join of separator-free parts gives the parts back |
| Strings.RemoveFirst | src/app/components/Main/ListenSection.tsx:17 | `replace('s', '')` changes nothing when there is no `s`; otherwise it drops exactly the first `s` and keeps everything around it |
| ListenSection.DropLeadingControls | src/app/components/Main/ListenSection.tsx:13 | the URL parser drops the leading run of C0 controls and spaces; what remains is a suffix that starts with neither |
| ListenSection.HasScheme | src/app/components/Main/ListenSection.tsx:13 | no contract of its own: after the leading controls and spaces and every tab and newline are removed, the string must start with a scheme and `:`; specified by `NoSchemeWithoutColon`, `HasSchemeWhenSchemeFirst` and `TabInSchemeIsIgnored` |
| ListenSection.RemoveTabsAndNewlines | src/app/components/Main/ListenSection.tsx:13 | no contract of its own; specified by `RemovalKeepsOtherChars` and `RemovalWithoutTabs` |
| ListenSection.RemovalKeepsOtherChars | src/app/components/Main/ListenSection.tsx:13 | removing tabs and newlines adds no character and leaves none of them |
| ListenSection.RemovalWithoutTabs | src/app/components/Main/ListenSection.tsx:13 | a string without tabs and newlines is left as it is |
| ListenSection.NoSchemeWithoutColon | src/app/components/Main/ListenSection.tsx:13 | `new URL` throws on a string with no `:`, since it has no scheme |
| ListenSection.HasSchemeWhenSchemeFirst | src/app/components/Main/ListenSection.tsx:13 | a string that starts with a well-formed scheme and `:` is accepted by `new URL` |
| ListenSection.TabInSchemeIsIgnored | src/app/components/Main/ListenSection.tsx:13 | a tab inside a well-formed scheme does not stop `new URL`: `h<TAB>ttps:...` is accepted like `https:...` |
| ListenSection.Query | src/app/components/Main/ListenSection.tsx:13 | no contract of its own: the text after the first `?` and before the first `#`; specified by `QueryAfterQuestionMark` |
| ListenSection.ParseParam | src/app/components/Main/ListenSection.tsx:13 | no contract of its own: a piece split at its first `=`, with `+` read as a space; specified, with `ParsePieces`, by `SearchParamsRoundTrip` |
| ListenSection.ParsePieces | src/app/components/Main/ListenSection.tsx:13 | no contract of its own: the pairs of the non-empty pieces, in order; specified by `SearchParamsRoundTrip` |
| ListenSection.SearchParams | src/app/components/Main/ListenSection.tsx:13 | no contract of its own: the pairs of the query split on `&`; specified by `QueryAfterQuestionMark` and `SearchParamsRoundTrip` |
| ListenSection.QueryAfterQuestionMark | src/app/components/Main/ListenSection.tsx:13 | the query of `base?query` is `query` when `base` holds no `?` and neither part holds a `#` |
| ListenSection.SearchParamsRoundTrip | src/app/components/Main/ListenSection.tsx:13 | parsing the serialization of plain pairs gives the same pairs back, in order |
| ListenSection.FirstNamed | src/app/components/Main/ListenSection.tsx:14 | `searchParams.get` finds the first pair with the name: every earlier pair has another name, and the pair found has this one |
| ListenSection.Get | src/app/components/Main/ListenSection.tsx:14-16 | no contract of its own: `searchParams.get`, the value at `FirstNamed`, or null; specified by `GetOrEmptyIsParamOrEmpty` |
| ListenSection.GetOrEmptyIsParamOrEmpty | src/app/components/Main/ListenSection.tsx:14-16 | `get(name) \|\| ''` is exactly the value of the first pair called `name`, or "" when there is none |
| ListenSection.ShortLinkId | src/app/components/Main/ListenSection.tsx:22-23 | no contract of its own: the last `/`-separated part, cut at its first `?`; specified by `ShortLinkIdIsLastSegment` and `ShortLinkIdUnique` |
| ListenSection.ShortLinkIdIsLastSegment | src/app/components/Main/ListenSection.tsx:22-23 | `parts[parts.length - 1].split('?')[0]` starts just after the last `/` and runs up to the first `?` after it, or to the end |
| ListenSection.ShortLinkIdAfterLastSlash | src/app/components/Main/ListenSection.tsx:22-23 | in `before + id + after`, with `before` ending in `/`, `id` free of `/` and `?`, and `after` empty or starting with `?` and free of `/`, the identifier is `id` |
| ListenSection.ShortLinkIdUnique | src/app/components/Main/ListenSection.tsx:22-23 | a URL has only one short-link identifier and only one position for it |
| ListenSection.StartParam | src/app/components/Main/ListenSection.tsx:17 | no contract of its own: `&start=` and the offset less its first `s`, or nothing for an empty offset; specified by `WatchPageOutput`, `TimestampStart` and `StartParamKeepsLaterS` |
| ListenSection.ConvertYouTubeUrl | src/app/components/Main/ListenSection.tsx:10-30 | the call throws exactly when the URL holds `youtube.com/watch` and the scheme check of `new URL` (`HasScheme`) rejects it; a URL holding neither marker is returned unchanged |
| ListenSection.WatchPageOutput | src/app/components/Main/ListenSection.tsx:12-19 | a parsable watch URL becomes `https://www.youtube.com/embed/` + first `v` (or "") + `?rel=0`, then `&start=` + the first `t` less its first `s` when `t` is non-empty; this holds whether or not the URL also holds `youtu.be` |
| ListenSection.ShortLinkOutput | src/app/components/Main/ListenSection.tsx:21-24 | a URL with `youtu.be` and without `youtube.com/watch` becomes the embed base + its identifier + `?rel=0`, with no start offset |
| ListenSection.EmbedUrlIsFixedPoint | src/app/components/Main/ListenSection.tsx:26-29 | an embed URL whose id and tail hold neither marker is returned unchanged |
| ListenSection.EmbedUrlIsMarkerFree | src/app/components/Main/ListenSection.tsx:19 | building the embed URL from marker-free pieces creates neither marker |
| ListenSection.EmbedBaseIsMarkerFree | src/app/components/Main/ListenSection.tsx:19 | `https://www.youtube.com/embed/` holds neither `youtube.com/watch` nor `youtu.be` |
| ListenSection.WatchPageOutputIsFixedPoint | src/app/components/Main/ListenSection.tsx:12-29 | converting the output for a watch URL again changes nothing, when its id and start offset hold neither marker |
| ListenSection.ShortLinkOutputIsFixedPoint | src/app/components/Main/ListenSection.tsx:21-29 | converting the output for a short link again changes nothing, when its id holds neither marker |
| ListenExamples.WatchUrlWithQuery | src/app/components/Main/ListenSection.tsx:12-19 | a parsable watch URL `base?query`, with a query that serializes plain pairs, converts through the first `v` and `t` pairs |
| ListenExamples.WatchPageWithQuery | src/app/components/Main/ListenSection.tsx:12-19 | the same for every query on `https://www.youtube.com/watch` |
| ListenExamples.DefaultLinkWithTimestamp | src/app/components/Main/ListenSection.tsx:38 | the first default link `...watch?v=_q5MzsACRJQ&t=6567s` becomes `https://www.youtube.com/embed/_q5MzsACRJQ?rel=0&start=6567` |
| ListenExamples.DefaultLinkWithoutTimestamp | src/app/components/Main/ListenSection.tsx:39 | the second default link `...watch?v=PNb54t9KMGs` becomes `https://www.youtube.com/embed/PNb54t9KMGs?rel=0`, with no `&start=` |
| ListenExamples.TimestampStart | src/app/components/Main/ListenSection.tsx:17 | the offset `6567s` loses its `s` |
| ListenExamples.StartParamKeepsLaterS | src/app/components/Main/ListenSection.tsx:17 | only the first `s` is removed: `5s10s` starts at `510s` |
| ListenExamples.WatchBranchComesFirst | src/app/components/Main/ListenSection.tsx:12-24 | `...watch?v=abc&feature=youtu.be` takes the watch branch and becomes `.../embed/abc?rel=0` |
| ListenExamples.ShortLinkWithQuery | src/app/components/Main/ListenSection.tsx:21-24 | `https://youtu.be/<id><after>` becomes the embed URL of `<id>` when `<after>` is empty or a `?`-query, neither holds `/` or `w`, and `<id>` holds no `?` |
| ListenExamples.ShortLink | src/app/components/Main/ListenSection.tsx:21-24 | `https://youtu.be/XYZ789` becomes `https://www.youtube.com/embed/XYZ789?rel=0` |
| ListenExamples.ShortLinkDropsQuery | src/app/components/Main/ListenSection.tsx:21-24 | `https://youtu.be/XYZ789?t=42` loses its query, time offset included |
| ListenExamples.EmbedLinkPassesThrough | src/app/components/Main/ListenSection.tsx:26-27 | `https://www.youtube.com/embed/ABC123?rel=0` is returned as it is |
| ListenExamples.OtherSitePassesThrough | src/app/components/Main/ListenSection.tsx:29 | `https://example.com/video/42` is returned as it is |
| ListenExamples.WatchPageWithoutSchemeThrows | src/app/components/Main/ListenSection.tsx:13 | `youtube.com/watch?v=abc` has no scheme, so `new URL` throws |
| WatchSection.DefaultVideos | src/app/components/Main/WatchSection.tsx:22-61 | a constant holding the four catalog entries field by field; its shape is stated by `DefaultCatalog` |
| WatchSection.DefaultCatalog | src/app/components/Main/WatchSection.tsx:22-61 | the default catalog has four videos with ids `video1` to `video4`, pairwise distinct; the first is vertical and the rest horizontal |
| WatchSection.DefaultCatalogRendersEveryVideo | src/app/components/Main/WatchSection.tsx:63 | rendering the default catalog shows all four videos as tiles, in order |
| WatchSection.FirstRow | src/app/components/Main/WatchSection.tsx:105 | no contract of its own: `videos.slice(0, 2)`; specified by `RowsPartition` |
| WatchSection.SecondRow | src/app/components/Main/WatchSection.tsx:106 | no contract of its own: `videos.slice(2, 4)`; specified by `RowsPartition` |
| WatchSection.ThirdRow | src/app/components/Main/WatchSection.tsx:107 | no contract of its own: `videos.slice(4)`; specified by `RowsPartition` |
| WatchSection.RowsPartition | src/app/components/Main/WatchSection.tsx:105-107 | the rows are `videos[..min(2,n)]`, `videos[min(2,n)..min(4,n)]` and `videos[min(4,n)..]`, and together, in order, they are `videos` |
| WatchSection.RenderGallery | src/app/components/Main/WatchSection.tsx:119-241 | no contract of its own: the tiles of the rendered gallery, or a throw on a missing row entry; specified by `GalleryTiles` and `LaterVideosAreHidden` |
| WatchSection.GalleryTiles | src/app/components/Main/WatchSection.tsx:119-241 | the render succeeds exactly when there are at least four videos; it then shows the first five, because the third row contributes only its first entry, and only when non-empty |
| WatchSection.LaterVideosAreHidden | src/app/components/Main/WatchSection.tsx:236-241 | a video after the fifth is never a tile unless an earlier entry equals it |
| WatchSection.Click | src/app/components/Main/WatchSection.tsx:68-71 | no contract of its own: `handleVideoClick` on the abstract state; specified by `ClickSelects`, `ClickThenFrame` and `StepPreservesConsistent` |
| WatchSection.Frame | src/app/components/Main/WatchSection.tsx:72-80 | no contract of its own: the click's animation frame; specified by `ClickThenFrame` and `FrameAfterCloseIsSilent` |
| WatchSection.Close | src/app/components/Main/WatchSection.tsx:83-89 | no contract of its own: `handleCloseModal`; specified by `CloseFromAnyState` |
| WatchSection.Toggle | src/app/components/Main/WatchSection.tsx:91-103 | no contract of its own: `togglePlayPause`; specified by `ToggleWhenClosed`, `ToggleWhenOpen` and `TwoTogglesRestore` |
| WatchSection.Rejected | src/app/components/Main/WatchSection.tsx:75-78 | no contract of its own: a `play()` rejection, which clears `isPlaying` for a click's play and only logs for the toggle's (97-99); specified by `ClickRejectedPauses`, `LateRejectionPausesNewSelection` and `ToggleRejectionKeepsPlaying` |
| WatchSection.Fulfilled | src/app/components/Main/WatchSection.tsx:74 | no contract of its own: a `play()` fulfilment, to which no handler reacts; it keeps the invariant by `StepPreservesConsistent` |
| WatchSection.ClickSelects | src/app/components/Main/WatchSection.tsx:68-71 | a click selects the video and marks it playing from any state, another open video included; nothing is sent to the element yet |
| WatchSection.ClickThenFrame | src/app/components/Main/WatchSection.tsx:68-80 | a click and its frame send exactly one `play()`; the video stays selected and playing |
| WatchSection.ClickRejectedPauses | src/app/components/Main/WatchSection.tsx:74-78 | when that `play()` rejects, the video stays selected and `isPlaying` becomes false |
| WatchSection.LateRejectionPausesNewSelection | src/app/components/Main/WatchSection.tsx:75-78 | a rejection of an earlier click's `play()` that arrives after another video was opened marks the new video paused |
| WatchSection.FrameAfterCloseIsSilent | src/app/components/Main/WatchSection.tsx:72-74 | a frame that runs after the modal was closed finds no element and sends nothing |
| WatchSection.CloseFromAnyState | src/app/components/Main/WatchSection.tsx:83-89 | closing from any state leaves nothing selected and nothing playing; it sends one pause if the modal was open, none otherwise |
| WatchSection.ToggleWhenClosed | src/app/components/Main/WatchSection.tsx:91-92 | without a mounted element, the toggle changes nothing |
| WatchSection.ToggleWhenOpen | src/app/components/Main/WatchSection.tsx:91-103 | on an open modal the toggle flips `isPlaying` and keeps the selection; it sends pause when playing and play otherwise |
| WatchSection.ToggleRejectionKeepsPlaying | src/app/components/Main/WatchSection.tsx:96-101 | a rejected `play()` from the toggle leaves `isPlaying` true and the selection unchanged |
| WatchSection.TwoTogglesRestore | src/app/components/Main/WatchSection.tsx:91-103 | two toggles restore `isPlaying` and leave the selection untouched; on an open modal they send one pause and one play |
| WatchSection.InitialConsistent | src/app/components/Main/WatchSection.tsx:64-65 | the mount state (nothing selected, not playing) satisfies the invariant |
| WatchSection.StepPreservesConsistent | src/app/components/Main/WatchSection.tsx:68-103 | every handler and every settling keeps the invariant: nothing plays without a selection, and every unsettled promise belongs to a `play()` that was sent, with the same origin |
| WatchSection.RunPreservesConsistent | src/app/components/Main/WatchSection.tsx:68-103 | any sequence of events that can happen keeps the invariant |
| WatchSection.ReachableConsistent | src/app/components/Main/WatchSection.tsx:64-103 | every state reachable from the mount state satisfies the invariant |
| WatchSection.Modal.constructor | src/app/components/Main/WatchSection.tsx:64-65 | the component mounts with nothing selected, not playing, and nothing pending or sent |
| WatchSection.Modal.HandleVideoClick | src/app/components/Main/WatchSection.tsx:68-81 | the new state is `Click` of the old one, and the invariant holds |
| WatchSection.Modal.RunAnimationFrame | src/app/components/Main/WatchSection.tsx:72-80 | the new state is `Frame` of the old one: one `play()` when the element is mounted, nothing otherwise |
| WatchSection.Modal.HandleCloseModal | src/app/components/Main/WatchSection.tsx:83-89 | the new state is `Close` of the old one, and the invariant holds |
| WatchSection.Modal.TogglePlayPause | src/app/components/Main/WatchSection.tsx:91-103 | the new state is `Toggle` of the old one, and the invariant holds |
| WatchSection.Modal.PlayRejected | src/app/components/Main/WatchSection.tsx:75-78 | the new state is `Rejected` of the old one: a click's play clears `isPlaying`, a toggle's play changes nothing but the pending list |
| WatchSection.Modal.PlayFulfilled | src/app/components/Main/WatchSection.tsx:74 | the new state is `Fulfilled` of the old one: the promise leaves the pending list and nothing else changes |

## Left out

- ListenSection.ConvertYouTubeUrl: `new URL` is reduced to its scheme check (`HasScheme`). The check removes the leading C0 controls and spaces and every tab and newline, then requires a scheme and `:`, as the WHATWG URL parser does before it reads the rest. The model therefore throws only where the parser throws. It returns a value in cases where the real parser throws, for example on an invalid host or port, or on `https:` with nothing after it. The full WHATWG URL parser is a library the model does not include.
- `searchParams` is reduced as follows:
  - the query runs from the first `?` to the first `#`;
  - it is split on `&`, and empty pieces are skipped;
  - each piece is split at its first `=`;
  - `+` becomes a space.

  Percent-decoding is not modelled. Nor is the removal of tabs, newlines and trailing controls and spaces from the query: a query holding them yields pairs that keep them.
- Strings are sequences of characters. JavaScript's UTF-16 code units and surrogate pairs are not modelled, since no operation here depends on them.
- `requestAnimationFrame` and the promise returned by `play()` are explicit events: `RunAnimationFrame`, `PlayRejected` and `PlayFulfilled`. They are not concurrency. The model does not fix when the browser runs them, so any order the events can take is covered.
- React's re-render and ref attachment are modelled as follows: the state setters apply at once, and the ref points to an element exactly while a video is selected (`VideoMounted`).
- The overlay that hides the tiles while the modal is open is styling. Tile clicks are always possible in the model.
- `console.error` logging (`WatchSection.tsx:76`, `98`) is left out.
- The JSX layout, Tailwind classes, `next/image` properties and the `format`-based CSS choice are left out. So is the iframe list that renders the converted YouTube links.
- The SoundCloud embed URL (`ListenSection.tsx:67`) depends on `encodeURIComponent`, a library call. It is not part of this model.
- The about section's language toggle, the navigation bar's scroll listener and menu flag, and the footer's current year are left out. The remaining files are static markup and composition.
