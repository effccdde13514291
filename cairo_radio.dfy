/**
 * src/components/person-detail/CairoQuranRadio.tsx: the Cairo Quran radio
 * player, which takes the shared playback marker on play and gives it
 * back on pause or end only while it still holds it.
 */
module CairoQuranRadio {
  import opened Wrappers
  import opened AudioContext

  /** The marker value that names this player. */
  const CairoId: string := "cairo"

  /** The marker after this player's pause (or end) event, given the marker before it. */
  function AfterPause(m: Option<string>): (r: Option<string>)
    ensures r == None <==> m == None || m == Some(CairoId)
    ensures r != None ==> r == m
  {
    if m == Some(CairoId) then None else m
  }

  class CairoRadioView {
    var isCollapsed: bool
    const marker: PlaybackMarker

    /** The panel starts expanded. */
    constructor (marker: PlaybackMarker)
      ensures this.marker == marker && !isCollapsed
    {
      this.marker := marker;
      isCollapsed := false;
    }

    /** `toggleCollapse`. */
    method ToggleCollapse()
      modifies this
      ensures isCollapsed == !old(isCollapsed)
    {
      isCollapsed := !isCollapsed;
    }

    /** `handlePlay`: the marker names this player, whoever held it before. */
    method HandlePlay()
      modifies marker
      ensures marker.currentlyPlayingId == Some(CairoId)
      ensures isCollapsed == old(isCollapsed)
    {
      marker.SetCurrentlyPlayingId(Some(CairoId));
    }

    /** `handlePause`: the marker is cleared only when this player holds it. */
    method HandlePause()
      modifies marker
      ensures marker.currentlyPlayingId == AfterPause(old(marker.currentlyPlayingId))
      ensures isCollapsed == old(isCollapsed)
    {
      if marker.currentlyPlayingId == Some(CairoId) {
        marker.SetCurrentlyPlayingId(None);
      }
    }

    /** `onEnded` is bound to `handlePause`. */
    method HandleEnded()
      modifies marker
      ensures marker.currentlyPlayingId == AfterPause(old(marker.currentlyPlayingId))
      ensures isCollapsed == old(isCollapsed)
    {
      HandlePause();
    }
  }
}
