/**
 * src/contexts/AudioContext.tsx: one shared, nullable "currently playing"
 * marker that every audio widget under the provider reads and writes.
 */
module AudioContext {
  import opened Wrappers

  /** The provider's state cell `currentlyPlayingId`, shared by reference by all consumers. */
  class PlaybackMarker {
    var currentlyPlayingId: Option<string>

    /** The provider mounts with no widget playing. */
    constructor ()
      ensures currentlyPlayingId == None
    {
      currentlyPlayingId := None;
    }

    /** `setCurrentlyPlayingId`: the marker becomes exactly the given value, `null` included. */
    method SetCurrentlyPlayingId(id: Option<string>)
      modifies this
      ensures currentlyPlayingId == id
    {
      currentlyPlayingId := id;
    }
  }

  const NoProviderMessage: string := "useAudio must be used within an AudioProvider"

  datatype Outcome<T> = Ok(value: T) | Thrown(message: string)

  /**
   * `useAudio`: the provider's value, or the error thrown when the calling
   * component is not under a provider (`context` is the looked-up context).
   */
  function UseAudio(context: Option<PlaybackMarker>): (r: Outcome<PlaybackMarker>)
    ensures r.Thrown? <==> context.None?
    ensures r.Thrown? ==> r.message == NoProviderMessage
    ensures r.Ok? ==> r.value == context.value
  {
    match context
    case None => Thrown(NoProviderMessage)
    case Some(m) => Ok(m)
  }
}
