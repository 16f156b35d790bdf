/**
 * The video gallery of the watch section: the catalog of videos, the split of
 * the catalog into three rows, which tiles the gallery renders, and the modal
 * player with its `selectedVideo`/`isPlaying` state and the play and pause
 * requests it sends to the page's video element.
 */
module WatchSection {
  import opened Wrappers

  // ---------------------------------------------------------------------------
  // Videos and the default catalog
  // ---------------------------------------------------------------------------

  datatype Format = Vertical | Horizontal
  datatype Size = Regular | Large
  datatype Position = Left | Right | Center

  /** One video of the gallery; `size` and `position` are optional. */
  datatype VideoItem = VideoItem(
    id: string,
    title: string,
    description: string,
    format: Format,
    thumbnail: string,
    videoUrl: string,
    size: Option<Size>,
    position: Option<Position>)

  /** The catalog shown when the section is given no videos. */
  const DefaultVideos: seq<VideoItem> := [
    VideoItem("video1", "Key Mood w/ Glowal & Massano", "Warmup for Massano & Glowal at Hangar 33, 2024.",
              Vertical, "/media/fotos/LECH1676.jpg", "/media/videos/8.mp4", None, Some(Left)),
    VideoItem("video2", "Key w/ Solomun", "Warmup for Solomun at Hangar 33, 2023.",
              Horizontal, "/media/fotos/@matijara-08886.jpg", "/media/videos/SolomunWarmup.mp4", Some(Large), Some(Right)),
    VideoItem("video3", "Club showcase", "Live performance",
              Horizontal, "/media/fotos/DanzeriaKaminevox.jpg", "/media/videos/OtroMundoClip.mp4", None, Some(Left)),
    VideoItem("video4", "Black Coffee at Arenas Magnum", "Closing for Black Coffee in Arenas Magnum, Punta del este 2022.",
              Horizontal, "/media/fotos/BlackCoffee.jpg", "/media/videos/BlackCoffee.mp4", Some(Regular), Some(Right))
  ]

  /** The default catalog holds four videos, `video1` to `video4`, no two with the same id. */
  lemma DefaultCatalog()
    ensures |DefaultVideos| == 4
    ensures DefaultVideos[0].id == "video1" && DefaultVideos[1].id == "video2"
    ensures DefaultVideos[2].id == "video3" && DefaultVideos[3].id == "video4"
    ensures forall i, j :: 0 <= i < j < |DefaultVideos| ==> DefaultVideos[i].id != DefaultVideos[j].id
    ensures DefaultVideos[0].format == Vertical
    ensures forall i :: 1 <= i < |DefaultVideos| ==> DefaultVideos[i].format == Horizontal
  {
  }

  /** The default catalog is rendered whole: four tiles, one per video. */
  lemma DefaultCatalogRendersEveryVideo()
    ensures RenderGallery(DefaultVideos) == Rendered(DefaultVideos)
  {
    DefaultCatalog();
    GalleryTiles(DefaultVideos);
    assert DefaultVideos[..4] == DefaultVideos;
  }

  // ---------------------------------------------------------------------------
  // The three rows
  // ---------------------------------------------------------------------------

  function Min(a: int, b: int): int
  {
    if a <= b then a else b
  }

  /** `Array.prototype.slice(start, end)` for non-negative bounds: both are clamped to the length. */
  function Slice<T>(s: seq<T>, start: nat, end: nat): seq<T>
  {
    var lo, hi := Min(start, |s|), Min(end, |s|);
    if lo < hi then s[lo..hi] else []
  }

  /** `Array.prototype.slice(start)`: from the clamped start to the end. */
  function SliceFrom<T>(s: seq<T>, start: nat): seq<T>
  {
    s[Min(start, |s|)..]
  }

  function FirstRow(videos: seq<VideoItem>): seq<VideoItem>
  {
    Slice(videos, 0, 2)
  }

  function SecondRow(videos: seq<VideoItem>): seq<VideoItem>
  {
    Slice(videos, 2, 4)
  }

  function ThirdRow(videos: seq<VideoItem>): seq<VideoItem>
  {
    SliceFrom(videos, 4)
  }

  /**
   * The rows partition the catalog: the first takes up to two videos, the
   * second up to the next two, the third all the rest, and in order they give
   * the catalog back.
   */
  lemma RowsPartition(videos: seq<VideoItem>)
    ensures FirstRow(videos) == videos[..Min(2, |videos|)]
    ensures SecondRow(videos) == videos[Min(2, |videos|)..Min(4, |videos|)]
    ensures ThirdRow(videos) == videos[Min(4, |videos|)..]
    ensures FirstRow(videos) + SecondRow(videos) + ThirdRow(videos) == videos
  {
    var n := |videos|;
    assert videos == videos[..Min(2, n)] + videos[Min(2, n)..Min(4, n)] + videos[Min(4, n)..];
  }

  // ---------------------------------------------------------------------------
  // The rendered gallery
  // ---------------------------------------------------------------------------

  /** Rendering either shows a list of clickable tiles or throws on a missing row entry. */
  datatype Gallery = Rendered(tiles: seq<VideoItem>) | RenderThrows

  /**
   * The first and second rows are read at indices 0 and 1 without a check, so
   * a missing entry makes the render throw; the third row is shown only when
   * it is non-empty, and then only its first video.
   */
  function RenderGallery(videos: seq<VideoItem>): Gallery
  {
    var first, second, third := FirstRow(videos), SecondRow(videos), ThirdRow(videos);
    if |first| < 2 || |second| < 2 then RenderThrows
    else Rendered([first[0], first[1], second[0], second[1]] + (if |third| > 0 then [third[0]] else []))
  }

  /**
   * The gallery renders exactly when the catalog has at least four videos, and
   * then it shows the first five of them (all of them when there are at most five).
   */
  lemma GalleryTiles(videos: seq<VideoItem>)
    ensures RenderGallery(videos).Rendered? <==> |videos| >= 4
    ensures RenderGallery(videos).Rendered? ==> RenderGallery(videos).tiles == videos[..Min(5, |videos|)]
  {
    RowsPartition(videos);
    if |videos| >= 4 {
      var tiles := RenderGallery(videos).tiles;
      assert |tiles| == Min(5, |videos|);
      forall k | 0 <= k < |tiles| ensures tiles[k] == videos[k] {
        if k == 4 {
          assert ThirdRow(videos)[0] == videos[4];
        }
      }
    }
  }

  /** A video after the fifth is never shown as a tile unless an earlier entry equals it. */
  lemma LaterVideosAreHidden(videos: seq<VideoItem>, k: nat)
    requires RenderGallery(videos).Rendered? && 5 <= k < |videos|
    requires forall j :: 0 <= j < 5 ==> videos[j] != videos[k]
    ensures videos[k] !in RenderGallery(videos).tiles
  {
    GalleryTiles(videos);
  }

  // ---------------------------------------------------------------------------
  // The modal player: abstract state and transitions
  // ---------------------------------------------------------------------------

  /** Which handler called `play()`: the click's animation frame, or the play/pause toggle. */
  datatype PlayOrigin = FromClick | FromToggle

  /** A request sent to the video element. */
  datatype Request = Play(origin: PlayOrigin) | Pause

  /**
   * The modal's state: the two state variables, the animation frames the
   * clicks have scheduled and not yet run, the `play()` promises that have not
   * yet settled (with the handler that created each), and every request sent
   * to the video element so far.
   */
  datatype ModalState = ModalState(
    selected: Option<VideoItem>,
    isPlaying: bool,
    scheduledFrames: nat,
    pendingPlays: seq<PlayOrigin>,
    requests: seq<Request>)

  const Initial: ModalState := ModalState(None, false, 0, [], [])

  /** The modal, and with it the video element the ref points to, is mounted exactly while a video is selected. */
  predicate VideoMounted(s: ModalState)
  {
    s.selected.Some?
  }

  /** `handleVideoClick`: select the video, mark it playing and schedule an animation frame. */
  function Click(s: ModalState, video: VideoItem): ModalState
  {
    s.(selected := Some(video), isPlaying := true, scheduledFrames := s.scheduledFrames + 1)
  }

  /** The scheduled frame: if the video element is mounted, call `play()` on it. */
  function Frame(s: ModalState): ModalState
    requires s.scheduledFrames > 0
  {
    var t := s.(scheduledFrames := s.scheduledFrames - 1);
    if VideoMounted(s) then t.(pendingPlays := s.pendingPlays + [FromClick], requests := s.requests + [Play(FromClick)])
    else t
  }

  /** `handleCloseModal`: pause the element if it is mounted, then clear the selection and stop playing. */
  function Close(s: ModalState): ModalState
  {
    s.(selected := None, isPlaying := false, requests := if VideoMounted(s) then s.requests + [Pause] else s.requests)
  }

  /** `togglePlayPause`: nothing without a mounted element; otherwise pause or play, and flip `isPlaying`. */
  function Toggle(s: ModalState): ModalState
  {
    if !VideoMounted(s) then s
    else if s.isPlaying then s.(isPlaying := false, requests := s.requests + [Pause])
    else s.(isPlaying := true, pendingPlays := s.pendingPlays + [FromToggle], requests := s.requests + [Play(FromToggle)])
  }

  function RemoveAt<T>(s: seq<T>, i: nat): seq<T>
    requires i < |s|
  {
    s[..i] + s[i + 1..]
  }

  /**
   * The `i`-th unsettled `play()` promise rejects. The click's handler sets
   * `isPlaying` to false, whatever is selected now; the toggle's handler only logs.
   */
  function Rejected(s: ModalState, i: nat): ModalState
    requires i < |s.pendingPlays|
  {
    var t := s.(pendingPlays := RemoveAt(s.pendingPlays, i));
    if s.pendingPlays[i] == FromClick then t.(isPlaying := false) else t
  }

  /** The `i`-th unsettled `play()` promise fulfils; no handler reacts. */
  function Fulfilled(s: ModalState, i: nat): ModalState
    requires i < |s.pendingPlays|
  {
    s.(pendingPlays := RemoveAt(s.pendingPlays, i))
  }

  // ---------------------------------------------------------------------------
  // Facts about single transitions and short sequences of them
  // ---------------------------------------------------------------------------

  /** A click selects the video and marks it playing from any state, another open video included; it sends nothing yet. */
  lemma ClickSelects(s: ModalState, video: VideoItem)
    ensures Click(s, video).selected == Some(video) && Click(s, video).isPlaying
    ensures Click(s, video).requests == s.requests && Click(s, video).pendingPlays == s.pendingPlays
  {
  }

  /** A click followed by its animation frame sends exactly one `play()` and leaves the video selected and playing. */
  lemma ClickThenFrame(s: ModalState, video: VideoItem)
    ensures var t := Frame(Click(s, video));
      && t.selected == Some(video) && t.isPlaying
      && t.requests == s.requests + [Play(FromClick)]
      && t.pendingPlays == s.pendingPlays + [FromClick]
      && t.scheduledFrames == s.scheduledFrames
  {
  }

  /** When that `play()` is rejected, the video stays selected and is marked paused. */
  lemma ClickRejectedPauses(s: ModalState, video: VideoItem)
    ensures var t := Frame(Click(s, video));
      && |s.pendingPlays| < |t.pendingPlays|
      && var u := Rejected(t, |s.pendingPlays|);
      && u.selected == Some(video) && !u.isPlaying
      && u.pendingPlays == s.pendingPlays && u.requests == s.requests + [Play(FromClick)]
  {
    var t := Frame(Click(s, video));
    assert RemoveAt(t.pendingPlays, |s.pendingPlays|) == s.pendingPlays;
  }

  /**
   * There is no guard against late rejections: a `play()` from an earlier click
   * that is rejected after another video was opened marks the new video paused.
   */
  lemma LateRejectionPausesNewSelection(s: ModalState, a: VideoItem, b: VideoItem)
    ensures var t := Frame(Click(Frame(Click(s, a)), b));
      && t.pendingPlays == s.pendingPlays + [FromClick, FromClick]
      && var u := Rejected(t, |s.pendingPlays|);
      && u.selected == Some(b) && !u.isPlaying
  {
    var t := Frame(Click(Frame(Click(s, a)), b));
    assert t.pendingPlays == s.pendingPlays + [FromClick] + [FromClick];
  }

  /** A frame that runs after the modal was closed sends nothing. */
  lemma FrameAfterCloseIsSilent(s: ModalState, video: VideoItem)
    ensures Frame(Close(Click(s, video))).requests == Close(Click(s, video)).requests
    ensures Frame(Close(Click(s, video))).pendingPlays == s.pendingPlays
  {
  }

  /** Closing from any state leaves nothing selected and nothing playing; it sends a pause exactly when the modal was open. */
  lemma CloseFromAnyState(s: ModalState)
    ensures Close(s).selected == None && !Close(s).isPlaying
    ensures VideoMounted(s) ==> Close(s).requests == s.requests + [Pause]
    ensures !VideoMounted(s) ==> Close(s).requests == s.requests
    ensures Close(s).pendingPlays == s.pendingPlays && Close(s).scheduledFrames == s.scheduledFrames
  {
  }

  /** Toggling a closed modal changes nothing. */
  lemma ToggleWhenClosed(s: ModalState)
    requires !VideoMounted(s)
    ensures Toggle(s) == s
  {
  }

  /** Toggling an open modal flips `isPlaying`, keeps the selection, and sends pause when it was playing and play otherwise. */
  lemma ToggleWhenOpen(s: ModalState)
    requires VideoMounted(s)
    ensures Toggle(s).isPlaying == !s.isPlaying && Toggle(s).selected == s.selected
    ensures s.isPlaying ==> Toggle(s).requests == s.requests + [Pause]
    ensures !s.isPlaying ==> Toggle(s).requests == s.requests + [Play(FromToggle)]
  {
  }

  /** A rejected `play()` from the toggle leaves the modal marked playing. */
  lemma ToggleRejectionKeepsPlaying(s: ModalState)
    requires VideoMounted(s) && !s.isPlaying
    ensures var t := Toggle(s);
      && |s.pendingPlays| < |t.pendingPlays|
      && var u := Rejected(t, |s.pendingPlays|);
      && u.isPlaying && u.selected == s.selected && u.pendingPlays == s.pendingPlays
  {
    var t := Toggle(s);
    assert RemoveAt(t.pendingPlays, |s.pendingPlays|) == s.pendingPlays;
  }

  /** Two toggles restore `isPlaying` and the selection; on an open modal they send one pause and one play. */
  lemma TwoTogglesRestore(s: ModalState)
    ensures Toggle(Toggle(s)).isPlaying == s.isPlaying
    ensures Toggle(Toggle(s)).selected == s.selected
    ensures VideoMounted(s) && s.isPlaying ==> Toggle(Toggle(s)).requests == s.requests + [Pause, Play(FromToggle)]
    ensures VideoMounted(s) && !s.isPlaying ==> Toggle(Toggle(s)).requests == s.requests + [Play(FromToggle), Pause]
  {
  }

  // ---------------------------------------------------------------------------
  // Events, runs and the invariant they keep
  // ---------------------------------------------------------------------------

  /** What can happen next: a user click, an animation frame, or a `play()` promise settling. */
  datatype Event =
    | VideoClicked(video: VideoItem)
    | CloseClicked
    | PlayPauseClicked
    | AnimationFrame
    | PlayRejected(index: nat)
    | PlayFulfilled(index: nat)

  /**
   * The close button and the play/pause controls exist only inside the
   * mounted modal; a frame needs one scheduled; a settlement needs an
   * unsettled promise. Gallery tiles can always be clicked.
   */
  predicate Enabled(s: ModalState, e: Event)
  {
    match e
    case VideoClicked(_) => true
    case CloseClicked => VideoMounted(s)
    case PlayPauseClicked => VideoMounted(s)
    case AnimationFrame => s.scheduledFrames > 0
    case PlayRejected(i) => i < |s.pendingPlays|
    case PlayFulfilled(i) => i < |s.pendingPlays|
  }

  function Step(s: ModalState, e: Event): ModalState
    requires Enabled(s, e)
  {
    match e
    case VideoClicked(v) => Click(s, v)
    case CloseClicked => Close(s)
    case PlayPauseClicked => Toggle(s)
    case AnimationFrame => Frame(s)
    case PlayRejected(i) => Rejected(s, i)
    case PlayFulfilled(i) => Fulfilled(s, i)
  }

  /** The state after the events, or None when one of them cannot happen where it comes. */
  function Run(s: ModalState, events: seq<Event>): Option<ModalState>
    decreases |events|
  {
    if events == [] then Some(s)
    else if !Enabled(s, events[0]) then None
    else Run(Step(s, events[0]), events[1..])
  }

  /** The origins of all `play()` calls sent so far, in order. */
  function PlayOrigins(requests: seq<Request>): seq<PlayOrigin>
  {
    if requests == [] then []
    else (if requests[0].Play? then [requests[0].origin] else []) + PlayOrigins(requests[1..])
  }

  lemma {:induction false} PlayOriginsAppend(requests: seq<Request>, r: Request)
    ensures PlayOrigins(requests + [r]) == PlayOrigins(requests) + (if r.Play? then [r.origin] else [])
    decreases |requests|
  {
    if requests != [] {
      assert (requests + [r])[1..] == requests[1..] + [r];
      PlayOriginsAppend(requests[1..], r);
    }
  }

  /**
   * What every reachable state satisfies: nothing plays without a selected
   * video, and every unsettled promise belongs to a `play()` call that was sent.
   */
  ghost predicate Consistent(s: ModalState)
  {
    && (s.selected == None ==> !s.isPlaying)
    && multiset(s.pendingPlays) <= multiset(PlayOrigins(s.requests))
  }

  lemma InitialConsistent()
    ensures Consistent(Initial)
  {
  }

  lemma RemoveAtMultiset<T>(s: seq<T>, i: nat)
    requires i < |s|
    ensures multiset(RemoveAt(s, i)) == multiset(s) - multiset{s[i]}
  {
    assert s == s[..i] + [s[i]] + s[i + 1..];
  }

  /** Every transition keeps the invariant. */
  lemma StepPreservesConsistent(s: ModalState, e: Event)
    requires Consistent(s) && Enabled(s, e)
    ensures Consistent(Step(s, e))
  {
    match e
    case VideoClicked(_) =>
    case CloseClicked => PauseKeepsConsistent(s, Close(s));
    case PlayPauseClicked =>
      if s.isPlaying {
        PauseKeepsConsistent(s, Toggle(s));
      } else {
        PlayKeepsConsistent(s, Toggle(s), FromToggle);
      }
    case AnimationFrame =>
      if VideoMounted(s) {
        PlayKeepsConsistent(s, Frame(s), FromClick);
      }
    case PlayRejected(i) => SettleKeepsConsistent(s, Rejected(s, i), i);
    case PlayFulfilled(i) => SettleKeepsConsistent(s, Fulfilled(s, i), i);
  }

  /** Sending a pause leaves the promises and the sent plays as they were. */
  lemma PauseKeepsConsistent(s: ModalState, t: ModalState)
    requires Consistent(s)
    requires t.selected == None ==> !t.isPlaying
    requires t.pendingPlays == s.pendingPlays && t.requests == s.requests + [Pause]
    ensures Consistent(t)
  {
    PlayOriginsAppend(s.requests, Pause);
  }

  /** Sending a play adds one promise and one sent play of the same origin. */
  lemma PlayKeepsConsistent(s: ModalState, t: ModalState, o: PlayOrigin)
    requires Consistent(s)
    requires t.selected == None ==> !t.isPlaying
    requires t.pendingPlays == s.pendingPlays + [o] && t.requests == s.requests + [Play(o)]
    ensures Consistent(t)
  {
    PlayOriginsAppend(s.requests, Play(o));
    assert multiset(t.pendingPlays) == multiset(s.pendingPlays) + multiset{o};
    assert multiset(PlayOrigins(t.requests)) == multiset(PlayOrigins(s.requests)) + multiset{o};
  }

  /** A promise settling removes it and sends nothing. */
  lemma SettleKeepsConsistent(s: ModalState, t: ModalState, i: nat)
    requires Consistent(s) && i < |s.pendingPlays|
    requires t.selected == None ==> !t.isPlaying
    requires t.pendingPlays == RemoveAt(s.pendingPlays, i) && t.requests == s.requests
    ensures Consistent(t)
  {
    RemoveAtMultiset(s.pendingPlays, i);
  }

  /** Every run from a consistent state ends in a consistent state. */
  lemma {:induction false} RunPreservesConsistent(s: ModalState, events: seq<Event>)
    requires Consistent(s)
    ensures Run(s, events).Some? ==> Consistent(Run(s, events).value)
    decreases |events|
  {
    if events != [] && Enabled(s, events[0]) {
      StepPreservesConsistent(s, events[0]);
      RunPreservesConsistent(Step(s, events[0]), events[1..]);
    }
  }

  /** In particular, every state reachable from the initial one is consistent. */
  lemma ReachableConsistent(events: seq<Event>)
    ensures Run(Initial, events).Some? ==> Consistent(Run(Initial, events).value)
  {
    InitialConsistent();
    RunPreservesConsistent(Initial, events);
  }

  // ---------------------------------------------------------------------------
  // The component, with state updated in place
  // ---------------------------------------------------------------------------

  /**
   * The watch section's modal controller. `selectedVideo` and `isPlaying` are
   * the component's state, `scheduledFrames` and `pendingPlays` the callbacks
   * the browser still holds for it, and `requests` records every call made on
   * the video element.
   */
  class Modal {
    var selectedVideo: Option<VideoItem>
    var isPlaying: bool
    var scheduledFrames: nat
    var pendingPlays: seq<PlayOrigin>
    ghost var requests: seq<Request>

    ghost function State(): ModalState
      reads this
    {
      ModalState(selectedVideo, isPlaying, scheduledFrames, pendingPlays, requests)
    }

    ghost predicate Valid()
      reads this
    {
      Consistent(State())
    }

    /** The component mounts with nothing selected and nothing playing. */
    constructor ()
      ensures Valid() && State() == Initial
    {
      selectedVideo := None;
      isPlaying := false;
      scheduledFrames := 0;
      pendingPlays := [];
      requests := [];
    }

    method HandleVideoClick(video: VideoItem)
      requires Valid()
      modifies this
      ensures Valid() && State() == Click(old(State()), video)
    {
      ghost var before := State();
      StepPreservesConsistent(before, VideoClicked(video));
      selectedVideo := Some(video);
      isPlaying := true;
      scheduledFrames := scheduledFrames + 1;
      assert State() == Click(before, video);
    }

    /** The animation frame a click scheduled. */
    method RunAnimationFrame()
      requires Valid() && scheduledFrames > 0
      modifies this
      ensures Valid() && State() == Frame(old(State()))
    {
      ghost var before := State();
      StepPreservesConsistent(before, AnimationFrame);
      if selectedVideo.Some? {
        pendingPlays := pendingPlays + [FromClick];
        requests := requests + [Play(FromClick)];
      }
      scheduledFrames := scheduledFrames - 1;
      assert State() == Frame(before);
    }

    method HandleCloseModal()
      requires Valid()
      modifies this
      ensures Valid() && State() == Close(old(State()))
    {
      ghost var before := State();
      if selectedVideo.Some? {
        StepPreservesConsistent(before, CloseClicked);
        requests := requests + [Pause];
      }
      selectedVideo := None;
      isPlaying := false;
      assert State() == Close(before);
    }

    method TogglePlayPause()
      requires Valid()
      modifies this
      ensures Valid() && State() == Toggle(old(State()))
    {
      ghost var before := State();
      if selectedVideo.Some? {
        StepPreservesConsistent(before, PlayPauseClicked);
        if isPlaying {
          requests := requests + [Pause];
        } else {
          pendingPlays := pendingPlays + [FromToggle];
          requests := requests + [Play(FromToggle)];
        }
        isPlaying := !isPlaying;
      }
      assert State() == Toggle(before);
    }

    /** The rejection handler of the `i`-th unsettled `play()` promise. */
    method PlayRejected(i: nat)
      requires Valid() && i < |pendingPlays|
      modifies this
      ensures Valid() && State() == Rejected(old(State()), i)
    {
      ghost var before := State();
      StepPreservesConsistent(before, Event.PlayRejected(i));
      var origin := pendingPlays[i];
      pendingPlays := RemoveAt(pendingPlays, i);
      if origin == FromClick {
        isPlaying := false;
      }
      assert State() == Rejected(before, i);
    }

    /** The `i`-th unsettled `play()` promise fulfils. */
    method PlayFulfilled(i: nat)
      requires Valid() && i < |pendingPlays|
      modifies this
      ensures Valid() && State() == Fulfilled(old(State()), i)
    {
      ghost var before := State();
      StepPreservesConsistent(before, Event.PlayFulfilled(i));
      pendingPlays := RemoveAt(pendingPlays, i);
      assert State() == Fulfilled(before, i);
    }
  }
}
