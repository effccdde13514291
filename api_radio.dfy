/**
 * src/components/person-detail/ApiRadioStations.tsx: the list of fetched
 * radio stations. Playing one pauses every other mounted player and takes
 * the shared marker under the station's list index.
 */
module ApiRadioStations {
  import opened Wrappers
  import opened Text
  import opened AudioContext
  import opened Media

  /** The marker value for the station at list position `index`: `api-${index}`. */
  function ApiLabel(index: int): string {
    "api-" + IntToString(index)
  }

  /** The marker after station `index`'s pause (or end) event, given the marker before it. */
  function AfterPause(index: int, m: Option<string>): (r: Option<string>)
    ensures r == None <==> m == None || m == Some(ApiLabel(index))
    ensures r != None ==> r == m
  {
    if m == Some(ApiLabel(index)) then None else m
  }

  /** Different list positions give different marker values. */
  lemma ApiLabelInjective(i: nat, j: nat)
    requires ApiLabel(i) == ApiLabel(j)
    ensures i == j
  {
    assert NatToString(i) == ApiLabel(i)[4..];
    assert NatToString(j) == ApiLabel(j)[4..];
    NumberRoundTrip(i);
    NumberRoundTrip(j);
  }

  /** One station's pause never clears the marker another station holds. */
  lemma PauseKeepsOtherStation(i: nat, j: nat)
    requires i != j
    ensures AfterPause(i, Some(ApiLabel(j))) == Some(ApiLabel(j))
  {
    if ApiLabel(i) == ApiLabel(j) {
      ApiLabelInjective(i, j);
    }
  }

  class ApiRadioView {
    var isCollapsed: bool
    /** `audioRefs.current`: slot `index` holds the player rendered for station `index`, if mounted. */
    var audioRefs: seq<Option<AudioElement>>
    const marker: PlaybackMarker

    /** The mounted players. */
    ghost function Players(): set<AudioElement>
      reads this
    {
      set j | 0 <= j < |audioRefs| && audioRefs[j].Some? :: audioRefs[j].value
    }

    /** Among the first `k` slots, player `p` sits in slot `index` only. */
    ghost predicate OnlyInSlot(p: AudioElement, index: int, k: int)
      reads this
    {
      forall j :: 0 <= j < k && j < |audioRefs| && audioRefs[j] == Some(p) ==> j == index
    }

    /** The panel starts collapsed and no player is mounted. */
    constructor (marker: PlaybackMarker)
      ensures this.marker == marker && isCollapsed && audioRefs == []
    {
      this.marker := marker;
      isCollapsed := true;
      audioRefs := [];
    }

    /** `toggleCollapse`. */
    method ToggleCollapse()
      modifies this
      ensures isCollapsed == !old(isCollapsed) && audioRefs == old(audioRefs)
    {
      isCollapsed := !isCollapsed;
    }

    /**
     * The ref callback `audioRefs.current[index] = el`; writing past the end
     * leaves holes, which hold no player.
     */
    method SetRef(index: nat, el: Option<AudioElement>)
      modifies this
      ensures |audioRefs| == if index < |old(audioRefs)| then |old(audioRefs)| else index + 1
      ensures audioRefs[index] == el
      ensures forall j :: 0 <= j < |audioRefs| && j != index ==>
        audioRefs[j] == if j < |old(audioRefs)| then old(audioRefs)[j] else None
      ensures isCollapsed == old(isCollapsed)
    {
      if index < |audioRefs| {
        audioRefs := audioRefs[index := el];
      } else {
        audioRefs := audioRefs + seq(index - |audioRefs|, _ => None) + [el];
      }
    }

    /**
     * `handlePlay(index)`: every mounted player in another slot is paused,
     * then the marker names this station.
     */
    method HandlePlay(index: int)
      modifies marker, Players()
      ensures forall j :: 0 <= j < |audioRefs| && j != index && audioRefs[j].Some? ==> audioRefs[j].value.paused
      ensures forall p :: p in Players() && OnlyInSlot(p, index, |audioRefs|) ==> p.paused == old(p.paused)
      ensures marker.currentlyPlayingId == Some(ApiLabel(index))
      ensures audioRefs == old(audioRefs) && isCollapsed == old(isCollapsed)
    {
      for k := 0 to |audioRefs|
        invariant forall j :: 0 <= j < k && j != index && audioRefs[j].Some? ==> audioRefs[j].value.paused
        invariant forall p :: p in Players() && OnlyInSlot(p, index, k) ==> p.paused == old(p.paused)
      {
        if audioRefs[k].Some? && k != index {
          audioRefs[k].value.Pause();
        }
      }
      marker.SetCurrentlyPlayingId(Some(ApiLabel(index)));
    }

    /** `handlePause(index)`, also bound to `onEnded`: clears the marker only when this station holds it. */
    method HandlePause(index: int)
      modifies marker
      ensures marker.currentlyPlayingId == AfterPause(index, old(marker.currentlyPlayingId))
      ensures audioRefs == old(audioRefs) && isCollapsed == old(isCollapsed)
    {
      if marker.currentlyPlayingId == Some(ApiLabel(index)) {
        marker.SetCurrentlyPlayingId(None);
      }
    }
  }
}
