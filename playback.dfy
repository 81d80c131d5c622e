/**
 The playback controller of `BabySoundApp` (app/page.tsx) on values.

 The state is the pair React keeps: `activeSound` and the audio element held
 in `audioRef.current` (absent until the first track is started). Each event
 handler is one atomic transition. What a handler does to the audio element is
 written as the list of operations it performs on it, in order (`AudioOp`);
 the element that results is that list played through `Apply`.
 */
module Playback {
  import opened Options
  import opened Catalog

  /** The fields of the audio element that the controller reads or writes. */
  datatype Audio = Audio(src: string, loop: bool, volume: real, paused: bool, currentTime: real)

  /** The volume the controller sets (a moderate level). */
  const ModerateVolume: real := 0.5
  /** The volume of a new audio element. */
  const DefaultVolume: real := 1.0

  /** A new audio element: no source, not looping, full volume, paused at the start. */
  const NewAudio: Audio := Audio("", false, DefaultVolume, true, 0.0)

  /** One operation of the controller on the audio element. */
  datatype AudioOp =
    | Create                    // `audioRef.current = new Audio()`
    | Pause                     // `pause()`
    | Rewind                    // `currentTime = 0`
    | SetSrc(src: string)       // `src = ...`
    | SetLoop(loop: bool)       // `loop = ...`
    | SetVolume(volume: real)   // `volume = ...`
    | Play(succeeds: bool)      // `play()`, with whether the browser lets it start

  /** The element after one operation; an operation on an absent element changes nothing. */
  function Step(a: Option<Audio>, op: AudioOp): Option<Audio> {
    match op
    case Create => Some(NewAudio)
    case Pause => if a.Some? then Some(a.value.(paused := true)) else a
    case Rewind => if a.Some? then Some(a.value.(currentTime := 0.0)) else a
    case SetSrc(s) => if a.Some? then Some(a.value.(src := s)) else a
    case SetLoop(b) => if a.Some? then Some(a.value.(loop := b)) else a
    case SetVolume(v) => if a.Some? then Some(a.value.(volume := v)) else a
    case Play(ok) => if a.Some? then Some(a.value.(paused := !ok)) else a
  }

  /** The element after a list of operations, performed from the first to the last. */
  function Apply(a: Option<Audio>, ops: seq<AudioOp>): Option<Audio>
    decreases |ops|
  {
    if ops == [] then a else Apply(Step(a, ops[0]), ops[1..])
  }

  /** Performing two lists one after the other is performing their concatenation. */
  lemma {:induction false} ApplyAppend(a: Option<Audio>, xs: seq<AudioOp>, ys: seq<AudioOp>)
    ensures Apply(a, xs + ys) == Apply(Apply(a, xs), ys)
    decreases |xs|
  {
    if xs == [] {
      assert [] + ys == ys;
    } else {
      assert (xs + ys)[1..] == xs[1..] + ys;
      ApplyAppend(Step(a, xs[0]), xs[1..], ys);
    }
  }

  /** The state of the controller: `activeSound` and `audioRef.current`. */
  datatype Player = Player(activeSound: Option<string>, audio: Option<Audio>)

  /** The state on mount: nothing selected, no audio element yet. */
  const Initial: Player := Player(None, None)

  /** `stopCurrentSound`: pause and rewind the element if there is one. */
  function StopOps(a: Option<Audio>): seq<AudioOp> {
    if a.Some? then [Pause, Rewind] else []
  }

  /**
   Starting `button`: create the element if there is none, bind it to the
   track, make it loop at the moderate volume, and call `play()`.
   */
  function StartOps(a: Option<Audio>, button: Track, playSucceeds: bool): seq<AudioOp> {
    (if a.None? then [Create] else []) + ConfigureOps(button, playSucceeds)
  }

  /** Binding the element to `button`'s track, looping at the moderate volume, then `play()`. */
  function ConfigureOps(button: Track, playSucceeds: bool): seq<AudioOp> {
    [SetSrc(button.soundSrc), SetLoop(true), SetVolume(ModerateVolume), Play(playSucceeds)]
  }

  /**
   The operations `toggleSound(id)` performs: only the stop when `id` is the
   active sound; otherwise the stop first, and then, when the catalog has `id`,
   the start of that track.
   */
  function ToggleOps(catalog: seq<Track>, p: Player, id: string, playSucceeds: bool): seq<AudioOp> {
    if p.activeSound == Some(id) then StopOps(p.audio)
    else
      StopOps(p.audio) +
        match Find(catalog, id)
        case None => []
        case Some(button) => StartOps(p.audio, button, playSucceeds)
  }

  /** `toggleSound(id)`, with the outcome of `play()` as a parameter. */
  function Toggle(catalog: seq<Track>, p: Player, id: string, playSucceeds: bool): Player {
    var active :=
      if p.activeSound == Some(id) then None
      else if Find(catalog, id).None? then p.activeSound
      else Some(id);
    Player(active, Apply(p.audio, ToggleOps(catalog, p, id, playSucceeds)))
  }

  /** `playRandomSound`, with the random index as a parameter. */
  function RandomToggle(catalog: seq<Track>, p: Player, index: int, playSucceeds: bool): Player
    requires 0 <= index < |catalog|
  {
    Toggle(catalog, p, catalog[index].id, playSucceeds)
  }

  /** The "Stop Audio" button: stop the element and clear the selection. */
  function StopPressed(p: Player): Player {
    Player(None, Apply(p.audio, StopOps(p.audio)))
  }

  /** The unmount cleanup: stop the element; the selection is left as it is. */
  function Cleanup(p: Player): Player {
    Player(p.activeSound, Apply(p.audio, StopOps(p.audio)))
  }

  /**
   What every reachable state satisfies: a selected sound is the id of a
   catalog entry and the element is bound to that entry's track, looping at
   the moderate volume; and the element only plays while a sound is selected.
   */
  predicate Inv(catalog: seq<Track>, p: Player) {
    && (p.activeSound.Some? ==>
          && Find(catalog, p.activeSound.value).Some?
          && p.audio.Some?
          && p.audio.value.src == Find(catalog, p.activeSound.value).value.soundSrc
          && p.audio.value.loop
          && p.audio.value.volume == ModerateVolume)
    && (p.audio.Some? && !p.audio.value.paused ==> p.activeSound.Some?)
  }

  /** A user event: a track button, the random button, or the "Stop Audio" button. */
  datatype Event =
    | Press(id: string, playSucceeds: bool)
    | Shuffle(index: int, playSucceeds: bool)
    | StopButton

  predicate ValidEvent(catalog: seq<Track>, e: Event) {
    e.Shuffle? ==> 0 <= e.index < |catalog|
  }

  predicate ValidEvents(catalog: seq<Track>, events: seq<Event>) {
    forall k :: 0 <= k < |events| ==> ValidEvent(catalog, events[k])
  }

  function Dispatch(catalog: seq<Track>, p: Player, e: Event): Player
    requires ValidEvent(catalog, e)
  {
    match e
    case Press(id, ok) => Toggle(catalog, p, id, ok)
    case Shuffle(index, ok) => RandomToggle(catalog, p, index, ok)
    case StopButton => StopPressed(p)
  }

  /** The state after a series of events, handled one at a time in order. */
  function Run(catalog: seq<Track>, p: Player, events: seq<Event>): Player
    requires ValidEvents(catalog, events)
    decreases |events|
  {
    if events == [] then p else Run(catalog, Dispatch(catalog, p, events[0]), events[1..])
  }
}
