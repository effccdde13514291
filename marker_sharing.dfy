/**
 * The three widgets that write the shared playback marker of
 * src/contexts/AudioContext.tsx, taken together: the values they write
 * never collide, and the two radio widgets give the marker up only when
 * it names them.
 */
module MarkerSharing {
  import opened Wrappers
  import opened AudioContext
  import Cairo = CairoQuranRadio
  import Api = ApiRadioStations
  import Surahs = ReciterSurahList

  /** No two widgets write the same marker value: "cairo", "api-…" and "surah-…" differ in their first letter. */
  lemma OwnerLabelsDistinct(index: int, readId: int, surahId: int)
    ensures Cairo.CairoId != Api.ApiLabel(index)
    ensures Cairo.CairoId != Surahs.SharedLabel(readId, surahId)
    ensures Api.ApiLabel(index) != Surahs.SharedLabel(readId, surahId)
  {
    assert Cairo.CairoId[0] == 'c';
    assert Api.ApiLabel(index)[0] == 'a';
    assert Surahs.SharedLabel(readId, surahId)[0] == 's';
  }

  /** A radio's pause or end leaves a marker that names another widget as it was. */
  lemma RadioPauseKeepsOtherOwners(index: int, readId: int, surahId: int)
    ensures Cairo.AfterPause(Some(Api.ApiLabel(index))) == Some(Api.ApiLabel(index))
    ensures Cairo.AfterPause(Some(Surahs.SharedLabel(readId, surahId))) == Some(Surahs.SharedLabel(readId, surahId))
    ensures Api.AfterPause(index, Some(Cairo.CairoId)) == Some(Cairo.CairoId)
    ensures Api.AfterPause(index, Some(Surahs.SharedLabel(readId, surahId))) == Some(Surahs.SharedLabel(readId, surahId))
  {
    OwnerLabelsDistinct(index, readId, surahId);
  }

  /**
   * Widgets built on one provider share its cell: after station 2 starts,
   * the Cairo player's pause finds the marker naming station 2 and leaves it.
   */
  method SharedCell(marker: PlaybackMarker) returns (cairo: Cairo.CairoRadioView, api: Api.ApiRadioView)
    modifies marker
    ensures cairo.marker == marker && api.marker == marker
    ensures marker.currentlyPlayingId == Some(Api.ApiLabel(2))
  {
    cairo := new Cairo.CairoRadioView(marker);
    api := new Api.ApiRadioView(marker);
    cairo.HandlePlay();
    api.HandlePlay(2);
    OwnerLabelsDistinct(2, 0, 0);
    cairo.HandlePause();
  }
}
