/**
 What the controller's handlers guarantee, stated over the value model of
 module Playback.
 */
module PlaybackLaws {
  import opened Options
  import opened Catalog
  import opened Playback

  /** The element right after a start, whatever state it was in before the stop. */
  function Started(button: Track, playSucceeds: bool): Audio {
    Audio(button.soundSrc, true, ModerateVolume, !playSucceeds, 0.0)
  }

  /**
   `stopCurrentSound` pauses and rewinds the element and touches nothing else;
   with no element it changes nothing.
   */
  lemma StopEffect(a: Option<Audio>)
    ensures Apply(a, StopOps(a)).Some? == a.Some?
    ensures a.Some? ==> Apply(a, StopOps(a)).value == a.value.(paused := true, currentTime := 0.0)
    ensures a.None? ==> Apply(a, StopOps(a)) == a
  {
    if a.Some? {
      assert StopOps(a) == [Pause] + [Rewind];
      ApplyAppend(a, [Pause], [Rewind]);
    }
  }

  /**
   Configuring an existing element sets its source, looping, volume and
   whether it plays, and leaves its time as it was.
   */
  lemma ConfigureEffect(c: Option<Audio>, button: Track, playSucceeds: bool)
    requires c.Some?
    ensures Apply(c, ConfigureOps(button, playSucceeds)) ==
              Some(c.value.(src := button.soundSrc, loop := true, volume := ModerateVolume, paused := !playSucceeds))
  {
    var tail := ConfigureOps(button, playSucceeds);
    assert tail == [tail[0]] + [tail[1]] + [tail[2]] + [tail[3]];
    ApplyAppend(c, [tail[0]] + [tail[1]] + [tail[2]], [tail[3]]);
    ApplyAppend(c, [tail[0]] + [tail[1]], [tail[2]]);
    ApplyAppend(c, [tail[0]], [tail[1]]);
  }

  /** The element after a start, whether or not an element existed before. */
  lemma StartEffect(a: Option<Audio>, button: Track, playSucceeds: bool)
    ensures Apply(Apply(a, StopOps(a)), StartOps(a, button, playSucceeds)) == Some(Started(button, playSucceeds))
  {
    var b := Apply(a, StopOps(a));
    StopEffect(a);
    var pre := if a.None? then [Create] else [];
    ApplyAppend(b, pre, ConfigureOps(button, playSucceeds));
    ConfigureEffect(Apply(b, pre), button, playSucceeds);
  }

  /**
   Toggle-off: pressing the active track clears the selection and leaves the
   element paused at the start, bound to the same track as before.
   */
  lemma ToggleOff(catalog: seq<Track>, p: Player, id: string, playSucceeds: bool)
    requires p.activeSound == Some(id)
    ensures Toggle(catalog, p, id, playSucceeds).activeSound == None
    ensures Toggle(catalog, p, id, playSucceeds).audio.Some? == p.audio.Some?
    ensures p.audio.Some? ==>
              Toggle(catalog, p, id, playSucceeds).audio.value == p.audio.value.(paused := true, currentTime := 0.0)
  {
    StopEffect(p.audio);
  }

  /**
   Selecting another track: a catalog id that is not the active one becomes
   the active sound, and the element is bound to that entry's track, looping
   at the moderate volume from the start, playing exactly when `play()`
   succeeds.
   */
  lemma SelectOther(catalog: seq<Track>, p: Player, i: int, playSucceeds: bool)
    requires UniqueIds(catalog)
    requires 0 <= i < |catalog|
    requires p.activeSound != Some(catalog[i].id)
    ensures Toggle(catalog, p, catalog[i].id, playSucceeds) ==
              Player(Some(catalog[i].id), Some(Started(catalog[i], playSucceeds)))
  {
    var id := catalog[i].id;
    FindEntry(catalog, i);
    ApplyAppend(p.audio, StopOps(p.audio), StartOps(p.audio, catalog[i], playSucceeds));
    StartEffect(p.audio, catalog[i], playSucceeds);
  }

  /**
   Stop before start: when an element exists and a different catalog track is
   started, the first two operations pause and rewind it, no later operation
   pauses it again, the new source is assigned only after them, and no
   element is created.
   */
  lemma StopBeforeStart(catalog: seq<Track>, p: Player, id: string, playSucceeds: bool)
    requires p.audio.Some?
    requires p.activeSound != Some(id)
    requires Find(catalog, id).Some?
    ensures |ToggleOps(catalog, p, id, playSucceeds)| > 2
    ensures ToggleOps(catalog, p, id, playSucceeds)[0] == Pause
    ensures ToggleOps(catalog, p, id, playSucceeds)[1] == Rewind
    ensures forall k :: 0 < k < |ToggleOps(catalog, p, id, playSucceeds)| ==>
              !ToggleOps(catalog, p, id, playSucceeds)[k].Pause?
    ensures forall k :: (0 <= k < |ToggleOps(catalog, p, id, playSucceeds)| &&
                         ToggleOps(catalog, p, id, playSucceeds)[k].SetSrc?) ==> k >= 2
    ensures Create !in ToggleOps(catalog, p, id, playSucceeds)
  {
  }

  /**
   One audio element: a toggle creates an element exactly when there is none,
   the id is not the active one, and the catalog has it; afterwards an element
   exists.
   */
  lemma CreatedOnlyWhenAbsent(catalog: seq<Track>, p: Player, id: string, playSucceeds: bool)
    ensures Create in ToggleOps(catalog, p, id, playSucceeds) <==>
              p.audio.None? && p.activeSound != Some(id) && Find(catalog, id).Some?
    ensures Create in ToggleOps(catalog, p, id, playSucceeds) ==> Toggle(catalog, p, id, playSucceeds).audio.Some?
  {
    if Create in ToggleOps(catalog, p, id, playSucceeds) {
      var button := Find(catalog, id).value;
      ApplyAppend(p.audio, StopOps(p.audio), StartOps(p.audio, button, playSucceeds));
      StartEffect(p.audio, button, playSucceeds);
    }
  }

  /**
   An id the catalog does not have (and that is not the active one) leaves the
   selection as it is and the element's source, loop and volume untouched;
   the element is still paused and rewound, because the stop comes before the
   lookup.
   */
  lemma UnknownId(catalog: seq<Track>, p: Player, id: string, playSucceeds: bool)
    requires Find(catalog, id).None?
    requires p.activeSound != Some(id)
    ensures Toggle(catalog, p, id, playSucceeds).activeSound == p.activeSound
    ensures Toggle(catalog, p, id, playSucceeds).audio.Some? == p.audio.Some?
    ensures p.audio.Some? ==>
              Toggle(catalog, p, id, playSucceeds).audio.value == p.audio.value.(paused := true, currentTime := 0.0)
  {
    assert StopOps(p.audio) + [] == StopOps(p.audio);
    StopEffect(p.audio);
  }

  /** In a reachable state an unknown id is never the active one. */
  lemma UnknownIdNeverActive(catalog: seq<Track>, p: Player, id: string)
    requires Inv(catalog, p)
    requires Find(catalog, id).None?
    ensures p.activeSound != Some(id)
  {
  }

  /**
   A rejected `play()` is not rolled back: the selection is the same whether
   or not playback starts, and the element differs at most in being paused.
   */
  lemma FailureNotRolledBack(catalog: seq<Track>, p: Player, id: string)
    ensures Toggle(catalog, p, id, false).activeSound == Toggle(catalog, p, id, true).activeSound
    ensures Toggle(catalog, p, id, false).audio.Some? == Toggle(catalog, p, id, true).audio.Some?
    ensures Toggle(catalog, p, id, false).audio.Some? ==>
              Toggle(catalog, p, id, false).audio.value == Toggle(catalog, p, id, true).audio.value.(paused := true)
    ensures Toggle(catalog, p, id, false).audio.Some? ==> Toggle(catalog, p, id, false).audio.value.paused
  {
    StopEffect(p.audio);
    if p.activeSound != Some(id) && Find(catalog, id).Some? {
      var button := Find(catalog, id).value;
      forall ok: bool ensures Toggle(catalog, p, id, ok).audio == Some(Started(button, ok)) {
        ApplyAppend(p.audio, StopOps(p.audio), StartOps(p.audio, button, ok));
        StartEffect(p.audio, button, ok);
      }
    } else {
      assert StopOps(p.audio) + [] == StopOps(p.audio);
    }
  }

  /** The state on mount satisfies the invariant. */
  lemma InitialInv(catalog: seq<Track>)
    ensures Inv(catalog, Initial)
  {
  }

  lemma ToggleKeepsInv(catalog: seq<Track>, p: Player, id: string, playSucceeds: bool)
    requires Inv(catalog, p)
    ensures Inv(catalog, Toggle(catalog, p, id, playSucceeds))
  {
    var r := Toggle(catalog, p, id, playSucceeds);
    StopEffect(p.audio);
    if p.activeSound != Some(id) {
      match Find(catalog, id)
      case None =>
        assert StopOps(p.audio) + [] == StopOps(p.audio);
      case Some(button) =>
        ApplyAppend(p.audio, StopOps(p.audio), StartOps(p.audio, button, playSucceeds));
        StartEffect(p.audio, button, playSucceeds);
    }
  }

  lemma StopPressedKeepsInv(catalog: seq<Track>, p: Player)
    requires Inv(catalog, p)
    ensures Inv(catalog, StopPressed(p))
  {
    StopEffect(p.audio);
  }

  lemma CleanupKeepsInv(catalog: seq<Track>, p: Player)
    requires Inv(catalog, p)
    ensures Inv(catalog, Cleanup(p))
  {
    StopEffect(p.audio);
  }

  /** The invariant holds after any series of user events from any state that satisfies it. */
  lemma {:induction false} RunKeepsInv(catalog: seq<Track>, p: Player, events: seq<Event>)
    requires Inv(catalog, p)
    requires ValidEvents(catalog, events)
    ensures Inv(catalog, Run(catalog, p, events))
    decreases |events|
  {
    if events != [] {
      var q := Dispatch(catalog, p, events[0]);
      match events[0] {
        case Press(id, ok) => ToggleKeepsInv(catalog, p, id, ok);
        case Shuffle(index, ok) => ToggleKeepsInv(catalog, p, catalog[index].id, ok);
        case StopButton => StopPressedKeepsInv(catalog, p);
      }
      assert ValidEvents(catalog, events[1..]) by {
        forall k | 0 <= k < |events[1..]| ensures ValidEvent(catalog, events[1..][k]) {
          assert events[1..][k] == events[k + 1];
        }
      }
      RunKeepsInv(catalog, q, events[1..]);
    }
  }

  /**
   At most one button is highlighted at any time: after any series of events
   from mount, exactly one button is highlighted while a sound is selected and
   none otherwise.
   */
  lemma SingleHighlight(catalog: seq<Track>, events: seq<Event>)
    requires UniqueIds(catalog)
    requires ValidEvents(catalog, events)
    ensures HighlightCount(catalog, Run(catalog, Initial, events).activeSound) <= 1
    ensures HighlightCount(catalog, Run(catalog, Initial, events).activeSound) ==
              if Run(catalog, Initial, events).activeSound.Some? then 1 else 0
  {
    InitialInv(catalog);
    RunKeepsInv(catalog, Initial, events);
    HighlightCountExact(catalog, Run(catalog, Initial, events).activeSound);
  }

  /**
   The "Stop Audio" handler clears the selection and leaves any element paused
   at the start; running it twice is running it once.
   */
  lemma StopPressedIdempotent(p: Player)
    ensures StopPressed(p).activeSound == None
    ensures StopPressed(p).audio.Some? == p.audio.Some?
    ensures p.audio.Some? ==> StopPressed(p).audio.value == p.audio.value.(paused := true, currentTime := 0.0)
    ensures StopPressed(StopPressed(p)) == StopPressed(p)
  {
    StopEffect(p.audio);
    StopEffect(StopPressed(p).audio);
  }

  /**
   The unmount cleanup leaves the selection as it is and any element paused at
   the start, so nothing keeps playing; running it twice is running it once.
   */
  lemma CleanupIdempotent(p: Player)
    ensures Cleanup(p).activeSound == p.activeSound
    ensures Cleanup(p).audio.Some? == p.audio.Some?
    ensures p.audio.Some? ==> Cleanup(p).audio.value == p.audio.value.(paused := true, currentTime := 0.0)
    ensures Cleanup(Cleanup(p)) == Cleanup(p)
  {
    StopEffect(p.audio);
    StopEffect(Cleanup(p).audio);
  }

  /**
   `playRandomSound` always toggles a catalog id: the selection afterwards is
   cleared when that track was the active one and is that track otherwise.
   */
  lemma RandomPicksCatalogId(catalog: seq<Track>, p: Player, index: int, playSucceeds: bool)
    requires 0 <= index < |catalog|
    ensures Find(catalog, catalog[index].id).Some?
    ensures RandomToggle(catalog, p, index, playSucceeds) == Toggle(catalog, p, catalog[index].id, playSucceeds)
    ensures RandomToggle(catalog, p, index, playSucceeds).activeSound ==
              if p.activeSound == Some(catalog[index].id) then None else Some(catalog[index].id)
  {
  }

  /** Pressing the same catalog track twice, starting from another selection, ends with nothing selected. */
  lemma SelectTwiceStops(catalog: seq<Track>, p: Player, id: string, ok1: bool, ok2: bool)
    requires Find(catalog, id).Some?
    requires p.activeSound != Some(id)
    ensures Toggle(catalog, Toggle(catalog, p, id, ok1), id, ok2).activeSound == None
  {
  }

  /**
   Switching from track `x` to track `y`: the element bound to `x` is paused
   and rewound before it is bound to `y`, and `y` ends up selected.
   */
  lemma SwitchTracks(catalog: seq<Track>, p: Player, i: int, j: int, ok1: bool, ok2: bool)
    requires UniqueIds(catalog)
    requires 0 <= i < |catalog| && 0 <= j < |catalog| && i != j
    requires p.activeSound != Some(catalog[i].id)
    ensures Toggle(catalog, p, catalog[i].id, ok1).audio.Some?
    ensures Toggle(catalog, p, catalog[i].id, ok1).audio.value.src == catalog[i].soundSrc
    ensures ToggleOps(catalog, Toggle(catalog, p, catalog[i].id, ok1), catalog[j].id, ok2)[..2] == [Pause, Rewind]
    ensures forall k :: 2 <= k < |ToggleOps(catalog, Toggle(catalog, p, catalog[i].id, ok1), catalog[j].id, ok2)| ==>
              !ToggleOps(catalog, Toggle(catalog, p, catalog[i].id, ok1), catalog[j].id, ok2)[k].Pause?
    ensures Toggle(catalog, Toggle(catalog, p, catalog[i].id, ok1), catalog[j].id, ok2) ==
              Player(Some(catalog[j].id), Some(Started(catalog[j], ok2)))
  {
    SelectOther(catalog, p, i, ok1);
    var q := Toggle(catalog, p, catalog[i].id, ok1);
    FindEntry(catalog, j);
    StopBeforeStart(catalog, q, catalog[j].id, ok2);
    SelectOther(catalog, q, j, ok2);
  }

  /**
   On the real catalog: press "midnight-beach", then "calming-rain", then
   "calming-rain" again, then "Stop Audio". The second press moves the
   selection and rebinds the element, the third clears the selection, and
   the stop then changes nothing at all.
   */
  lemma CatalogScenario(ok1: bool, ok2: bool, ok3: bool)
    ensures Toggle(SoundButtons, Initial, "midnight-beach", ok1).activeSound == Some("midnight-beach")
    ensures Toggle(SoundButtons, Toggle(SoundButtons, Initial, "midnight-beach", ok1), "calming-rain", ok2) ==
              Player(Some("calming-rain"), Some(Audio(CalmingRainSound, true, ModerateVolume, !ok2, 0.0)))
    ensures Toggle(SoundButtons, Toggle(SoundButtons, Toggle(SoundButtons, Initial, "midnight-beach", ok1),
                                        "calming-rain", ok2), "calming-rain", ok3).activeSound == None
    ensures StopPressed(Toggle(SoundButtons, Toggle(SoundButtons, Toggle(SoundButtons, Initial, "midnight-beach", ok1),
                                                    "calming-rain", ok2), "calming-rain", ok3)) ==
              Toggle(SoundButtons, Toggle(SoundButtons, Toggle(SoundButtons, Initial, "midnight-beach", ok1),
                                          "calming-rain", ok2), "calming-rain", ok3)
  {
    SoundButtonsUnique();
    var p1 := Toggle(SoundButtons, Initial, "midnight-beach", ok1);
    SelectOther(SoundButtons, Initial, 1, ok1);
    SelectOther(SoundButtons, p1, 2, ok2);
    var p2 := Toggle(SoundButtons, p1, "calming-rain", ok2);
    ToggleOff(SoundButtons, p2, "calming-rain", ok3);
    var p3 := Toggle(SoundButtons, p2, "calming-rain", ok3);
    StopEffect(p3.audio);
  }

  /**
   An unknown id is not a no-op: with "lullaby" playing, pressing an id the
   catalog does not have keeps "lullaby" selected but pauses its element.
   */
  lemma UnknownIdPausesActiveTrack()
    ensures Toggle(SoundButtons, Initial, "lullaby", true).audio == Some(Audio(LullabySound, true, ModerateVolume, false, 0.0))
    ensures Toggle(SoundButtons, Toggle(SoundButtons, Initial, "lullaby", true), "nonexistent-id", true) ==
              Player(Some("lullaby"), Some(Audio(LullabySound, true, ModerateVolume, true, 0.0)))
  {
    SoundButtonsUnique();
    SelectOther(SoundButtons, Initial, 0, true);
    var p := Toggle(SoundButtons, Initial, "lullaby", true);
    assert Find(SoundButtons, "nonexistent-id").None?;
    UnknownId(SoundButtons, p, "nonexistent-id", true);
  }
}
