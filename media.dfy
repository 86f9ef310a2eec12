/**
 The browser's `<video>` element, reduced to the two flags the components
 read and write: `muted` and `paused`. Playback itself is not modelled:
 `Play` and `Pause` only flip `paused`, as the element would once the
 request is honoured.
 */
module Media {

  class MediaElement {
    var muted: bool
    var paused: bool

    /** A freshly mounted element: paused, and muted exactly when its `muted`
        attribute is set. */
    constructor (muted: bool)
      ensures this.muted == muted && paused
    {
      this.muted := muted;
      paused := true;
    }

    /** `element.play()`. */
    method Play()
      modifies this
      ensures !paused && muted == old(muted)
    {
      paused := false;
    }

    /** `element.pause()`. */
    method Pause()
      modifies this
      ensures paused && muted == old(muted)
    {
      paused := true;
    }
  }
}
