/**
 The fixed track catalog of the application (`soundButtons` in app/page.tsx),
 the catalog lookup `soundButtons.find((b) => b.id === id)`, and the test that
 decides which button is drawn highlighted.
 */
module Catalog {
  import opened Options

  /** One button of the catalog. The icon is presentation and is not kept. */
  datatype Track = Track(id: string, name: string, activity: string, soundSrc: string)

  const LullabySound := "/sounds/hush-little-baby.mp3"
  const MidnightBeachSound := "/sounds/moonlit-beach-soundscape.mp3"
  const CalmingRainSound := "/sounds/nature-rain-medium-heavy-consistent.mp3"
  const SweetLullabySound := "/sounds/sweet-lullaby.mp3"

  /** The four buttons, in the order they are rendered. */
  const SoundButtons: seq<Track> := [
    Track("lullaby", "Lullaby", "Sleeping", LullabySound),
    Track("midnight-beach", "Midnight Beach", "Chill Nights", MidnightBeachSound),
    Track("calming-rain", "Calming Rain", "Comfort", CalmingRainSound),
    Track("sweet-lullaby", "Sweet Lullaby", "Resting", SweetLullabySound)
  ]

  /** No two entries of the catalog share an id. */
  predicate UniqueIds(catalog: seq<Track>) {
    forall i, j :: 0 <= i < |catalog| && 0 <= j < |catalog| && catalog[i].id == catalog[j].id ==> i == j
  }

  lemma SoundButtonsUnique()
    ensures |SoundButtons| == 4
    ensures UniqueIds(SoundButtons)
  {
  }

  /**
   Linear search from the front, as `Array.prototype.find` does: the first
   entry whose id is `id`, or None when there is none.
   */
  function Find(catalog: seq<Track>, id: string): (r: Option<Track>)
    ensures r.None? <==> forall i :: 0 <= i < |catalog| ==> catalog[i].id != id
    ensures r.Some? ==> r.value.id == id
    ensures r.Some? ==> exists i :: 0 <= i < |catalog| && catalog[i] == r.value &&
                                    forall j :: 0 <= j < i ==> catalog[j].id != id
    decreases |catalog|
  {
    if catalog == [] then None
    else if catalog[0].id == id then Some(catalog[0])
    else
      var r := Find(catalog[1..], id);
      if r.None? then None
      else
        ghost var i :| 0 <= i < |catalog[1..]| && catalog[1..][i] == r.value &&
                       forall j :: 0 <= j < i ==> catalog[1..][j].id != id;
        assert catalog[i + 1] == r.value;
        assert forall j :: 0 <= j < i + 1 ==> catalog[j].id != id by {
          forall j | 0 <= j < i + 1 ensures catalog[j].id != id {
            if j > 0 { assert catalog[j] == catalog[1..][j - 1]; }
          }
        }
        r
  }

  /** With distinct ids, looking up the id of an entry finds that very entry. */
  lemma FindEntry(catalog: seq<Track>, i: int)
    requires UniqueIds(catalog)
    requires 0 <= i < |catalog|
    ensures Find(catalog, catalog[i].id) == Some(catalog[i])
  {
  }

  /** The highlight test `activeSound === button.id`: `null` matches no button. */
  predicate Highlighted(activeSound: Option<string>, button: Track) {
    activeSound == Some(button.id)
  }

  /** How many buttons of the catalog are drawn highlighted. */
  function HighlightCount(catalog: seq<Track>, activeSound: Option<string>): nat
    decreases |catalog|
  {
    if catalog == [] then 0
    else (if Highlighted(activeSound, catalog[0]) then 1 else 0) + HighlightCount(catalog[1..], activeSound)
  }

  /**
   With distinct ids at most one button is highlighted; exactly one when the
   active sound is the id of a catalog entry, and none otherwise.
   */
  lemma {:induction false} HighlightCountExact(catalog: seq<Track>, activeSound: Option<string>)
    requires UniqueIds(catalog)
    ensures HighlightCount(catalog, activeSound) <= 1
    ensures HighlightCount(catalog, activeSound) == 1 <==>
              activeSound.Some? && Find(catalog, activeSound.value).Some?
    decreases |catalog|
  {
    if catalog != [] {
      var rest := catalog[1..];
      assert UniqueIds(rest) by {
        forall i, j | 0 <= i < |rest| && 0 <= j < |rest| && rest[i].id == rest[j].id ensures i == j {
          assert catalog[i + 1] == rest[i] && catalog[j + 1] == rest[j];
        }
      }
      HighlightCountExact(rest, activeSound);
    }
  }
}
