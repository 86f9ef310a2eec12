/**
 A video card: the ref it keeps to its `<video>` element and forwards to the
 app's registry, the mute toggle that mirrors the element's `muted` flag in
 `isMuted`, play/pause on press, and autoplay on mount.
 */
module Card {
  import opened Media
  import Feed

  class VideoCard {
    /** The `autoplay` prop. */
    const autoplay: bool
    /** The app and the feed position behind the `setVideoRef` prop, which the app
        builds as `handleVideoRef(index)`. */
    const app: Feed.App
    const index: nat
    var videoRef: MediaElement?
    var isMuted: bool

    constructor (app: Feed.App, index: nat, autoplay: bool)
      ensures this.app == app && this.index == index && this.autoplay == autoplay
      ensures videoRef == null && isMuted
    {
      this.app := app;
      this.index := index;
      this.autoplay := autoplay;
      videoRef := null;
      isMuted := true;
    }

    /** The ref callback of the `<video>` element: the same element (or null, on
        unmount) is kept locally and handed to the app's registry. */
    method SetRef(ref: MediaElement?)
      requires app.Valid() && index < |app.videos|
      modifies this, app
      ensures videoRef == ref && isMuted == old(isMuted)
      ensures app.Valid() && app.registry == Feed.Store(old(app.registry), index, ref)
      ensures app.registry[index] == videoRef
      ensures app.videos == old(app.videos) && app.currentIndex == old(app.currentIndex)
      ensures app.scrollRequests == old(app.scrollRequests)
    {
      videoRef := ref;
      app.HandleVideoRef(index, ref);
    }

    /** The autoplay effect: plays the element only when `autoplay` is set and the
        element is mounted. */
    method AutoplayEffect()
      modifies videoRef
      ensures videoRef != null ==> videoRef.muted == old(videoRef.muted)
      ensures videoRef != null ==> videoRef.paused == (old(videoRef.paused) && !autoplay)
    {
      if autoplay && videoRef != null {
        videoRef.Play();
      }
    }

    /** `handleMuteToggle`: flips the element's `muted` flag and copies it into
        `isMuted`; without an element nothing changes. */
    method MuteToggle()
      modifies this, videoRef
      ensures videoRef == old(videoRef)
      ensures videoRef == null ==> isMuted == old(isMuted)
      ensures videoRef != null ==>
                videoRef.muted == !old(videoRef.muted) && isMuted == videoRef.muted &&
                videoRef.paused == old(videoRef.paused)
    {
      if videoRef != null {
        videoRef.muted := !videoRef.muted;
        isMuted := videoRef.muted;
      }
    }

    /** `onVideoPress`: plays a paused element and pauses a playing one; without
        an element nothing changes. */
    method VideoPress()
      modifies videoRef
      ensures videoRef != null ==>
                videoRef.paused == !old(videoRef.paused) && videoRef.muted == old(videoRef.muted)
    {
      if videoRef == null {
        return;
      }
      if videoRef.paused {
        videoRef.Play();
      } else {
        videoRef.Pause();
      }
    }
  }

  /** The app renders the card for feed position `index` with `autoplay` set only
      for position 0; the card's `<video muted>` element mounts, its ref reaches
      the registry, and the autoplay effect runs. The card starts muted, in step
      with its element, and only the first card is playing. */
  method MountCard(app: Feed.App, index: nat) returns (card: VideoCard)
    requires app.Valid() && index < |app.videos|
    modifies app
    ensures fresh(card) && card.app == app && card.index == index && card.autoplay == (index == 0)
    ensures card.videoRef != null && fresh(card.videoRef)
    ensures app.Valid() && app.registry == Feed.Store(old(app.registry), index, card.videoRef)
    ensures card.isMuted && card.videoRef.muted
    ensures card.videoRef.paused == (index != 0)
    ensures app.videos == old(app.videos) && app.currentIndex == old(app.currentIndex)
    ensures app.scrollRequests == old(app.scrollRequests)
  {
    card := new VideoCard(app, index, index == 0);
    var element := new MediaElement(true);
    card.SetRef(element);
    card.AutoplayEffect();
  }

  /** Two mute toggles restore the element's `muted` flag and `isMuted`. */
  method MuteTwice(card: VideoCard)
    requires card.videoRef != null && card.isMuted == card.videoRef.muted
    modifies card, card.videoRef
    ensures card.videoRef == old(card.videoRef)
    ensures card.videoRef.muted == old(card.videoRef.muted) && card.isMuted == old(card.isMuted)
  {
    card.MuteToggle();
    card.MuteToggle();
  }
}
