/**
 * The browser's `HTMLAudioElement`, reduced to what the widgets observe:
 * its source and whether it is paused. Decoding, buffering and the
 * network are outside the model.
 */
module Media {

  class AudioElement {
    const src: string
    var paused: bool

    /** `new Audio(src)`: a fresh element starts paused. */
    constructor (src: string)
      ensures this.src == src && paused
    {
      this.src := src;
      paused := true;
    }

    /** `audio.play()`: playing unless the browser rejects the returned promise. */
    method Play(rejected: bool)
      modifies this
      ensures paused == rejected
    {
      paused := rejected;
    }

    /** `audio.pause()`. */
    method Pause()
      modifies this
      ensures paused
    {
      paused := true;
    }
  }
}
