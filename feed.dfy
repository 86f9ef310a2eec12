/**
 The feed navigation engine of the app component: the drag session fed by
 mouse and touch handlers, the index-to-element registry the video cards
 fill in, the bounds-checked `scrollToVideo`, and the intersection handler
 that plays, pauses and moves the current index as cards enter and leave
 the viewport. Only vertical coordinates are tracked; a press always
 starts a new session.
 */
module Feed {
  import opened Js
  import opened Media

  /** One video of the feed, as the sample list describes it. */
  datatype FeedEntry = FeedEntry(
    url: string, profilePic: string, username: string, description: string, song: string,
    likes: NumberOrString, comments: NumberOrString, saves: NumberOrString, shares: NumberOrString)

  datatype MouseEvent = MouseEvent(clientX: real, clientY: real)
  datatype Touch = Touch(clientX: real, clientY: real)
  datatype TouchEvent = TouchEvent(touches: seq<Touch>)

  /** An `IntersectionObserverEntry`: the observed element and whether it has
      just become visible (true) or stopped being visible (false). */
  datatype IntersectionEntry = IntersectionEntry(target: MediaElement, isIntersecting: bool)

  datatype Navigation = GoNext | GoPrevious | Stay

  /** Minimum vertical drag distance, in CSS pixels, that navigates. */
  const DragThreshold: real := 50.0

  /** What a release does with the drag distance `startY - currentY`: dragging up
      by more than the threshold goes to the next video, dragging down by more
      than it goes to the previous one, anything in between stays. */
  function ReleaseNavigation(startY: real, currentY: real): (n: Navigation)
    ensures n == GoNext <==> startY - currentY > DragThreshold
    ensures n == GoPrevious <==> startY - currentY < -DragThreshold
    ensures n == Stay <==> -DragThreshold <= startY - currentY <= DragThreshold
  {
    var distance := startY - currentY;
    if distance > DragThreshold then GoNext
    else if distance < -DragThreshold then GoPrevious
    else Stay
  }

  /** The index a release asks `scrollToVideo` for, if any. */
  function ReleaseTarget(startY: real, currentY: real, current: int): (t: Option<int>)
    ensures t == Some(current + 1) <==> startY - currentY > DragThreshold
    ensures t == Some(current - 1) <==> startY - currentY < -DragThreshold
    ensures t == None <==> -DragThreshold <= startY - currentY <= DragThreshold
  {
    match ReleaseNavigation(startY, currentY)
    case GoNext => Some(current + 1)
    case GoPrevious => Some(current - 1)
    case Stay => None
  }

  // ---------------------------------------------------------------------------
  // The registry `videoRefs.current`: an array with holes (null here)

  /** `registry.indexOf(e)`: the first position holding `e`, or -1. */
  function IndexOf(registry: seq<MediaElement?>, e: MediaElement): (r: int)
    ensures -1 <= r < |registry|
    ensures r == -1 <==> e !in registry
    ensures r >= 0 ==> registry[r] == e && forall j :: 0 <= j < r ==> registry[j] != e
  {
    if registry == [] then -1
    else if registry[0] == e then 0
    else
      var k := IndexOf(registry[1..], e);
      if k == -1 then -1 else k + 1
  }

  /** `registry[index] = ref`: only slot `index` changes; writing past the end
      grows the array and leaves holes between the old end and `index`. */
  function Store(registry: seq<MediaElement?>, index: nat, ref: MediaElement?): (r: seq<MediaElement?>)
    ensures |r| == if index < |registry| then |registry| else index + 1
    ensures r[index] == ref
    ensures forall j :: 0 <= j < |r| && j != index ==>
              r[j] == if j < |registry| then registry[j] else null
  {
    if index < |registry| then registry[index := ref]
    else registry + seq(index - |registry|, _ => null) + [ref]
  }

  /** The guard of `scrollToVideo(index)`: in range and registered. */
  predicate CanScrollTo(videoCount: nat, registry: seq<MediaElement?>, index: int)
  {
    0 <= index < videoCount && index < |registry| && registry[index] != null
  }

  // ---------------------------------------------------------------------------
  // Intersection batches

  /** An entry that moves the current index: visible, and found in the registry. */
  predicate Found(registry: seq<MediaElement?>, entry: IntersectionEntry)
  {
    entry.isIntersecting && IndexOf(registry, entry.target) != -1
  }

  /** The current index after the entries of a batch are handled in order: the
      old index, or the registry position of an entry of the batch that was
      visible and found. */
  function BatchIndex(registry: seq<MediaElement?>, entries: seq<IntersectionEntry>, current: int): (r: int)
    ensures r == current || exists j :: 0 <= j < |entries| && Found(registry, entries[j]) &&
                                       r == IndexOf(registry, entries[j].target)
  {
    if entries == [] then current
    else
      var n := |entries| - 1;
      var last := entries[n];
      if Found(registry, last) then IndexOf(registry, last.target)
      else
        assert forall j :: 0 <= j < n ==> entries[..n][j] == entries[j];
        BatchIndex(registry, entries[..n], current)
  }

  /** The elements a batch reports on. */
  function Targets(entries: seq<IntersectionEntry>): set<MediaElement>
  {
    set j | 0 <= j < |entries| :: entries[j].target
  }

  /** Whether the last entry of the batch about `e` said it is visible; None when
      no entry is about `e`. */
  function LastVisibility(entries: seq<IntersectionEntry>, e: MediaElement): (r: Option<bool>)
    ensures r.None? ==> forall j :: 0 <= j < |entries| ==> entries[j].target != e
  {
    if entries == [] then None
    else
      var n := |entries| - 1;
      if entries[n].target == e then Some(entries[n].isIntersecting)
      else
        assert forall j :: 0 <= j < n ==> entries[..n][j] == entries[j];
        LastVisibility(entries[..n], e)
  }

  /** A last report is the visibility of an entry about `e` that no later entry
      about `e` follows. */
  lemma {:induction false} LastVisibilityIsLastReport(entries: seq<IntersectionEntry>, e: MediaElement)
    requires LastVisibility(entries, e).Some?
    ensures exists j :: 0 <= j < |entries| && entries[j].target == e &&
              entries[j].isIntersecting == LastVisibility(entries, e).value &&
              forall k :: j < k < |entries| ==> entries[k].target != e
  {
    var n := |entries| - 1;
    if entries[n].target != e {
      assert forall j :: 0 <= j < n ==> entries[..n][j] == entries[j];
      LastVisibilityIsLastReport(entries[..n], e);
    }
  }

  /** With no found visible entry, a batch leaves the index as it was. */
  lemma {:induction false} NoFoundEntryKeepsIndex(registry: seq<MediaElement?>, entries: seq<IntersectionEntry>, current: int)
    requires forall j :: 0 <= j < |entries| ==> !Found(registry, entries[j])
    ensures BatchIndex(registry, entries, current) == current
  {
    if entries != [] {
      var n := |entries| - 1;
      assert forall j :: 0 <= j < n ==> entries[..n][j] == entries[j];
      NoFoundEntryKeepsIndex(registry, entries[..n], current);
    }
  }

  /** The last found visible entry of a batch decides the current index: the
      first registry position of its element. */
  lemma {:induction false} LastFoundEntryWins(registry: seq<MediaElement?>, entries: seq<IntersectionEntry>, current: int, j: nat)
    requires j < |entries| && Found(registry, entries[j])
    requires forall k :: j < k < |entries| ==> !Found(registry, entries[k])
    ensures BatchIndex(registry, entries, current) == IndexOf(registry, entries[j].target)
  {
    var n := |entries| - 1;
    if j < n {
      assert forall k :: 0 <= k < n ==> entries[..n][k] == entries[k];
      LastFoundEntryWins(registry, entries[..n], current, j);
    }
  }

  /** A batch leaves the index where it was or moves it to a registered slot. */
  lemma {:induction false} BatchIndexInRegistry(registry: seq<MediaElement?>, entries: seq<IntersectionEntry>, current: int)
    ensures var r := BatchIndex(registry, entries, current);
            r == current || (0 <= r < |registry| && registry[r] != null)
  {
    if entries != [] {
      BatchIndexInRegistry(registry, entries[..|entries| - 1], current);
    }
  }

  /** An entry about an element leaving the view never moves the index. */
  lemma ExitedEntryKeepsIndex(registry: seq<MediaElement?>, entries: seq<IntersectionEntry>, e: MediaElement, current: int)
    ensures BatchIndex(registry, entries + [IntersectionEntry(e, false)], current)
         == BatchIndex(registry, entries, current)
  {
    assert (entries + [IntersectionEntry(e, false)])[..|entries|] == entries;
  }

  /** An entry about an element leaving the view, anywhere in a batch, never
      moves the index. */
  lemma {:induction false} ExitedEntryAnywhereKeepsIndex(registry: seq<MediaElement?>, a: seq<IntersectionEntry>,
                                                         e: MediaElement, b: seq<IntersectionEntry>, current: int)
    ensures BatchIndex(registry, a + [IntersectionEntry(e, false)] + b, current)
         == BatchIndex(registry, a + b, current)
    decreases |b|
  {
    var x := IntersectionEntry(e, false);
    if b == [] {
      assert a + [x] + b == a + [x];
      assert a + b == a;
      ExitedEntryKeepsIndex(registry, a, e, current);
    } else {
      var n := |b| - 1;
      var s := a + [x] + b;
      var t := a + b;
      assert s[..|s| - 1] == a + [x] + b[..n];
      assert t[..|t| - 1] == a + b[..n];
      assert s[|s| - 1] == b[n] && t[|t| - 1] == b[n];
      ExitedEntryAnywhereKeepsIndex(registry, a, e, b[..n], current);
    }
  }

  /** Handling one more entry of a batch: the index and the last reports of a
      prefix one entry longer. */
  lemma BatchStep(registry: seq<MediaElement?>, entries: seq<IntersectionEntry>, k: nat, current: int)
    requires k < |entries|
    ensures BatchIndex(registry, entries[..k + 1], current) ==
              if Found(registry, entries[k]) then IndexOf(registry, entries[k].target)
              else BatchIndex(registry, entries[..k], current)
    ensures forall e :: LastVisibility(entries[..k + 1], e) ==
              if entries[k].target == e then Some(entries[k].isIntersecting)
              else LastVisibility(entries[..k], e)
  {
    var t := entries[..k + 1];
    assert t[..k] == entries[..k] && t[k] == entries[k] && |t| - 1 == k;
    forall e
      ensures LastVisibility(t, e) ==
                if entries[k].target == e then Some(entries[k].isIntersecting)
                else LastVisibility(entries[..k], e)
    {
    }
  }

  /** Every element a batch reports on has a last report. */
  lemma {:induction false} TargetHasLastVisibility(entries: seq<IntersectionEntry>, e: MediaElement)
    ensures e in Targets(entries) <==> LastVisibility(entries, e).Some?
  {
    if entries != [] {
      var n := |entries| - 1;
      TargetHasLastVisibility(entries[..n], e);
      assert Targets(entries) == Targets(entries[..n]) + {entries[n].target} by {
        assert forall j :: 0 <= j < n ==> entries[..n][j] == entries[j];
      }
    }
  }

  // ---------------------------------------------------------------------------
  // State

  /** `dragState.current`. */
  class DragState {
    var isDragging: bool
    var startY: real
    var currentY: real

    constructor ()
      ensures !isDragging && startY == 0.0 && currentY == 0.0
    {
      isDragging := false;
      startY := 0.0;
      currentY := 0.0;
    }
  }

  /** The app component's state: the feed, the registry, the current index, the
      drag session, and the elements it has asked to scroll into view. */
  class App {
    var videos: seq<FeedEntry>
    var registry: seq<MediaElement?>
    var currentIndex: int
    const drag: DragState
    var scrollRequests: seq<MediaElement>

    /** The registry never outgrows the feed and the current index is a position of
        the feed once the feed has any. */
    ghost predicate Valid()
      reads this
    {
      |registry| <= |videos| && 0 <= currentIndex && (currentIndex < |videos| || currentIndex == 0)
    }

    /** The first render: no videos yet, index 0, no drag. */
    constructor ()
      ensures Valid() && fresh(drag)
      ensures videos == [] && registry == [] && currentIndex == 0 && scrollRequests == []
      ensures !drag.isDragging && drag.startY == 0.0 && drag.currentY == 0.0
    {
      videos := [];
      registry := [];
      currentIndex := 0;
      drag := new DragState();
      scrollRequests := [];
    }

    /** The mount effect that loads the feed; it runs once, after the first render,
        before any card has mounted. */
    method LoadFeed(entries: seq<FeedEntry>)
      requires Valid() && videos == [] && registry == []
      modifies this
      ensures Valid()
      ensures videos == entries && registry == [] && currentIndex == old(currentIndex)
      ensures scrollRequests == old(scrollRequests)
    {
      videos := entries;
    }

    /** `handleVideoRef(index)(ref)`: writes slot `index` of the registry and nothing
        else. The app creates these callbacks only for positions of the feed. */
    method HandleVideoRef(index: nat, ref: MediaElement?)
      requires Valid() && index < |videos|
      modifies this
      ensures Valid()
      ensures registry == Store(old(registry), index, ref)
      ensures videos == old(videos) && currentIndex == old(currentIndex)
      ensures scrollRequests == old(scrollRequests)
    {
      registry := Store(registry, index, ref);
    }

    /** `scrollToVideo(index)`: scrolls to and selects `index` when it is inside the
        feed and its element is registered; otherwise does nothing. */
    method ScrollToVideo(index: int)
      requires Valid()
      modifies this
      ensures Valid()
      ensures videos == old(videos) && registry == old(registry)
      ensures Scrolled(index, old(currentIndex), old(scrollRequests))
    {
      if 0 <= index < |videos| && index < |registry| && registry[index] != null {
        scrollRequests := scrollRequests + [registry[index]];
        currentIndex := index;
      }
    }

    /** The state after `scrollToVideo(index)` from `index0` and `log0`. */
    ghost predicate Scrolled(index: int, index0: int, log0: seq<MediaElement>)
      reads this
    {
      if CanScrollTo(|videos|, registry, index)
      then currentIndex == index && scrollRequests == log0 + [registry[index]]
      else currentIndex == index0 && scrollRequests == log0
    }

    /** The state after a release of a session that was `wasDragging` with
        `startY0`, `currentY0`, from index `index0` and scroll log `log0`. */
    ghost predicate ReleasedFrom(wasDragging: bool, startY0: real, currentY0: real, index0: int, log0: seq<MediaElement>)
      reads this
    {
      var target := ReleaseTarget(startY0, currentY0, index0);
      if wasDragging && target.Some? then Scrolled(target.value, index0, log0)
      else currentIndex == index0 && scrollRequests == log0
    }

    method MouseDown(e: MouseEvent)
      modifies drag
      ensures drag.isDragging && drag.startY == e.clientY && drag.currentY == e.clientY
    {
      drag.isDragging := true;
      drag.startY := e.clientY;
      drag.currentY := e.clientY;
    }

    method MouseMove(e: MouseEvent)
      modifies drag
      ensures drag.isDragging == old(drag.isDragging) && drag.startY == old(drag.startY)
      ensures drag.currentY == if old(drag.isDragging) then e.clientY else old(drag.currentY)
    {
      if !drag.isDragging {
        return;
      }
      drag.currentY := e.clientY;
    }

    /** `handleMouseUp`: with no session, nothing changes; otherwise the drag
        distance may request a neighbour, and the session ends. */
    method MouseUp()
      requires Valid()
      modifies this, drag
      ensures Valid()
      ensures videos == old(videos) && registry == old(registry)
      ensures drag.startY == old(drag.startY) && drag.currentY == old(drag.currentY)
      ensures drag.isDragging == false
      ensures ReleasedFrom(old(drag.isDragging), old(drag.startY), old(drag.currentY), old(currentIndex), old(scrollRequests))
    {
      if !drag.isDragging {
        return;
      }
      var dragDistance := drag.startY - drag.currentY;
      if dragDistance > DragThreshold {
        ScrollToVideo(currentIndex + 1);
      } else if dragDistance < -DragThreshold {
        ScrollToVideo(currentIndex - 1);
      }
      drag.isDragging := false;
    }

    /** `handleMouseLeave`: a release, but only while a session is active. */
    method MouseLeave()
      requires Valid()
      modifies this, drag
      ensures Valid()
      ensures videos == old(videos) && registry == old(registry)
      ensures drag.startY == old(drag.startY) && drag.currentY == old(drag.currentY)
      ensures drag.isDragging == false
      ensures ReleasedFrom(old(drag.isDragging), old(drag.startY), old(drag.currentY), old(currentIndex), old(scrollRequests))
    {
      if drag.isDragging {
        MouseUp();
      }
    }

    /** `handleTouchStart`: starts a session at the first touch point. */
    method TouchStart(e: TouchEvent)
      requires |e.touches| > 0
      modifies drag
      ensures drag.isDragging && drag.startY == e.touches[0].clientY && drag.currentY == e.touches[0].clientY
    {
      drag.isDragging := true;
      drag.startY := e.touches[0].clientY;
      drag.currentY := e.touches[0].clientY;
    }

    method TouchMove(e: TouchEvent)
      requires |e.touches| > 0
      modifies drag
      ensures drag.isDragging == old(drag.isDragging) && drag.startY == old(drag.startY)
      ensures drag.currentY == if old(drag.isDragging) then e.touches[0].clientY else old(drag.currentY)
    {
      if !drag.isDragging {
        return;
      }
      drag.currentY := e.touches[0].clientY;
    }

    /** `handleTouchEnd`: the same release as the mouse's. */
    method TouchEnd()
      requires Valid()
      modifies this, drag
      ensures Valid()
      ensures videos == old(videos) && registry == old(registry)
      ensures drag.startY == old(drag.startY) && drag.currentY == old(drag.currentY)
      ensures drag.isDragging == false
      ensures ReleasedFrom(old(drag.isDragging), old(drag.startY), old(drag.currentY), old(currentIndex), old(scrollRequests))
    {
      MouseUp();
    }

    /** `handleIntersection(entries)`: each visible entry plays its element and, when
        the element is registered, selects its first position; each other entry
        pauses its element. */
    method HandleIntersection(entries: seq<IntersectionEntry>)
      requires Valid()
      modifies this, Targets(entries)
      ensures Valid()
      ensures videos == old(videos) && registry == old(registry) && scrollRequests == old(scrollRequests)
      ensures currentIndex == BatchIndex(registry, entries, old(currentIndex))
      ensures forall e :: e in Targets(entries) ==>
                e.muted == old(e.muted) && LastVisibility(entries, e).Some? &&
                e.paused == !LastVisibility(entries, e).value
    {
      var k := 0;
      while k < |entries|
        invariant 0 <= k <= |entries|
        invariant Valid()
        invariant videos == old(videos) && registry == old(registry) && scrollRequests == old(scrollRequests)
        invariant currentIndex == BatchIndex(registry, entries[..k], old(currentIndex))
        invariant forall e :: e in Targets(entries) ==>
                    e.muted == old(e.muted) &&
                    e.paused == match LastVisibility(entries[..k], e)
                                case None => old(e.paused)
                                case Some(visible) => !visible
      {
        var entry := entries[k];
        assert entry.target in Targets(entries);
        BatchStep(registry, entries, k, old(currentIndex));
        if entry.isIntersecting {
          entry.target.Play();
          var index := IndexOf(registry, entry.target);
          if index != -1 {
            currentIndex := index;
          }
        } else {
          entry.target.Pause();
        }
        k := k + 1;
      }
      assert entries[..k] == entries;
      forall e | e in Targets(entries) ensures LastVisibility(entries, e).Some? {
        TargetHasLastVisibility(entries, e);
      }
    }
  }

  // ---------------------------------------------------------------------------
  // Scenarios

  /** A press followed by a release with no move never navigates. */
  method PressThenRelease(app: App, x: real, y: real)
    requires app.Valid()
    modifies app, app.drag
    ensures app.Valid() && !app.drag.isDragging
    ensures app.currentIndex == old(app.currentIndex) && app.scrollRequests == old(app.scrollRequests)
  {
    app.MouseDown(MouseEvent(x, y));
    app.MouseUp();
  }

  /** Dragging up at the last video, or down at the first, changes no index. */
  method DragPastEnd(app: App)
    requires app.Valid() && app.drag.isDragging
    requires var d := app.drag.startY - app.drag.currentY;
             (d > DragThreshold && app.currentIndex == |app.videos| - 1) ||
             (d < -DragThreshold && app.currentIndex == 0)
    modifies app, app.drag
    ensures app.currentIndex == old(app.currentIndex) && app.scrollRequests == old(app.scrollRequests)
    ensures !app.drag.isDragging
  {
    app.MouseUp();
  }
}
