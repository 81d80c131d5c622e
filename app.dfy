/**
 The component `BabySoundApp` (app/page.tsx) as it runs: an audio element
 whose fields the handlers change in place, and a controller that holds
 `activeSound` and the lazily created element (`audioRef.current`). Each
 handler is proved to move the state exactly as the transition of the same
 name in module Playback does.
 */
module SoundApp {
  import opened Options
  import opened Catalog
  import opened Playback
  import opened PlaybackLaws

  /** The part of the browser's `HTMLAudioElement` the controller uses. */
  class AudioElement {
    var src: string
    var loop: bool
    var volume: real
    var paused: bool
    var currentTime: real

    /** `new Audio()`. */
    constructor ()
      ensures Value() == NewAudio
    {
      src, loop, volume, paused, currentTime := "", false, DefaultVolume, true, 0.0;
    }

    function Value(): Audio
      reads this
    {
      Audio(src, loop, volume, paused, currentTime)
    }

    method Pause()
      modifies this
      ensures Value() == old(Value()).(paused := true)
    {
      paused := true;
    }

    /** `play()`: with whether the browser lets it start as a parameter. */
    method Play(succeeds: bool)
      modifies this
      ensures Value() == old(Value()).(paused := !succeeds)
    {
      paused := !succeeds;
    }
  }

  class BabySoundApp {
    const soundButtons: seq<Track>
    var activeSound: Option<string>
    var audioRef: AudioElement?
    /**
     The operations the handlers perform on the audio element, oldest first.
     Each handler appends the operations of its value-level counterpart in
     the order that counterpart lists them; the log is kept by hand and is
     not derived from the field writes, so the order of the writes in a
     method body is shown by the body itself and, for the value model, by
     `PlaybackLaws.StopBeforeStart`.
     */
    ghost var audioLog: seq<AudioOp>

    ghost function AudioValue(): Option<Audio>
      reads this, audioRef
    {
      if audioRef == null then None else Some(audioRef.Value())
    }

    ghost function State(): Player
      reads this, audioRef
    {
      Player(activeSound, AudioValue())
    }

    ghost predicate Valid()
      reads this, audioRef
    {
      Inv(soundButtons, State())
    }

    /** Mount: nothing selected and no audio element. */
    constructor ()
      ensures soundButtons == SoundButtons
      ensures Valid()
      ensures State() == Initial
      ensures audioLog == []
    {
      soundButtons := SoundButtons;
      activeSound := None;
      audioRef := null;
      audioLog := [];
    }

    /** `stopCurrentSound`: pause and rewind the element if there is one. */
    method StopCurrentSound()
      modifies this, audioRef
      ensures audioRef == old(audioRef)
      ensures activeSound == old(activeSound)
      ensures audioLog == old(audioLog) + StopOps(old(AudioValue()))
      ensures AudioValue() == Apply(old(AudioValue()), StopOps(old(AudioValue())))
    {
      if audioRef != null {
        ghost var a := AudioValue();
        audioRef.Pause();
        audioRef.currentTime := 0.0;
        audioLog := audioLog + [Pause, Rewind];
        ApplyAppend(a, [Pause], [Rewind]);
      }
    }

    /**
     The start part of `toggleSound`: reuse the element or create it when
     there is none, bind it to `button`'s track, make it loop at the moderate
     volume, and call `play()`.
     */
    method StartSound(button: Track, playSucceeds: bool)
      modifies this, audioRef
      ensures activeSound == old(activeSound)
      ensures audioRef != null
      ensures old(audioRef) != null ==> audioRef == old(audioRef)
      ensures old(audioRef) == null ==> fresh(audioRef)
      ensures audioLog == old(audioLog) + StartOps(old(AudioValue()), button, playSucceeds)
      ensures AudioValue() == Apply(old(AudioValue()), StartOps(old(AudioValue()), button, playSucceeds))
    {
      ghost var b := AudioValue();
      ghost var pre: seq<AudioOp> := [];
      if audioRef == null {
        audioRef := new AudioElement();
        pre := [Create];
      }
      ghost var c := AudioValue();
      assert c == Apply(b, pre);

      audioRef.src := button.soundSrc;
      audioRef.loop := true;
      audioRef.volume := ModerateVolume;
      audioRef.Play(playSucceeds);

      ghost var tail := ConfigureOps(button, playSucceeds);
      ConfigureEffect(c, button, playSucceeds);
      audioLog := audioLog + (pre + tail);
      ApplyAppend(b, pre, tail);
    }

    /** `toggleSound(id)`, with the outcome of `play()` as a parameter. */
    method ToggleSound(id: string, playSucceeds: bool)
      requires Valid()
      modifies this, audioRef
      ensures Valid()
      ensures State() == Toggle(soundButtons, old(State()), id, playSucceeds)
      ensures audioLog == old(audioLog) + ToggleOps(soundButtons, old(State()), id, playSucceeds)
      ensures old(audioRef) != null ==> audioRef == old(audioRef)
      ensures old(audioRef) == null && audioRef != null ==> fresh(audioRef)
    {
      ghost var p := State();
      ghost var q := Toggle(soundButtons, p, id, playSucceeds);
      ToggleKeepsInv(soundButtons, p, id, playSucceeds);
      if activeSound == Some(id) {
        StopCurrentSound();
        activeSound := None;
        assert State() == q;
        return;
      }

      StopCurrentSound();

      var button := Find(soundButtons, id);
      if button.None? {
        assert StopOps(p.audio) + [] == StopOps(p.audio);
        assert State() == q;
        return;
      }

      ghost var start := StartOps(p.audio, button.value, playSucceeds);
      assert ToggleOps(soundButtons, p, id, playSucceeds) == StopOps(p.audio) + start;
      StartSound(button.value, playSucceeds);
      activeSound := Some(id);
      ApplyAppend(p.audio, StopOps(p.audio), start);
      assert State() == q;
    }

    /** `playRandomSound`, with the random index as a parameter. */
    method PlayRandom(index: int, playSucceeds: bool)
      requires Valid()
      requires 0 <= index < |soundButtons|
      modifies this, audioRef
      ensures Valid()
      ensures State() == RandomToggle(soundButtons, old(State()), index, playSucceeds)
      ensures audioLog == old(audioLog) + ToggleOps(soundButtons, old(State()), soundButtons[index].id, playSucceeds)
      ensures old(audioRef) != null ==> audioRef == old(audioRef)
      ensures old(audioRef) == null && audioRef != null ==> fresh(audioRef)
    {
      var randomSoundId := soundButtons[index].id;
      ToggleSound(randomSoundId, playSucceeds);
    }

    /** The "Stop Audio" button. */
    method Stop()
      requires Valid()
      modifies this, audioRef
      ensures Valid()
      ensures State() == StopPressed(old(State()))
      ensures audioLog == old(audioLog) + StopOps(old(AudioValue()))
      ensures audioRef == old(audioRef)
    {
      StopPressedKeepsInv(soundButtons, State());
      StopCurrentSound();
      activeSound := None;
    }

    /** The cleanup run when the component unmounts. */
    method Unmount()
      requires Valid()
      modifies this, audioRef
      ensures Valid()
      ensures State() == Cleanup(old(State()))
      ensures audioLog == old(audioLog) + StopOps(old(AudioValue()))
      ensures audioRef == old(audioRef)
    {
      CleanupKeepsInv(soundButtons, State());
      StopCurrentSound();
    }

  }

  /** What a caller can conclude from the handlers' contracts alone. */
  method Client()
  {
    var app := new BabySoundApp();
    SoundButtonsUnique();
    SelectOther(SoundButtons, app.State(), 1, true);
    app.ToggleSound("midnight-beach", true);
    assert app.activeSound == Some("midnight-beach");
    var element := app.audioRef;
    SelectOther(SoundButtons, app.State(), 2, false);
    app.PlayRandom(2, false);
    assert app.activeSound == Some("calming-rain");
    assert app.audioRef == element && element != null;
    assert element.src == CalmingRainSound && element.paused;
    StopPressedIdempotent(app.State());
    app.Stop();
    assert app.activeSound == None;
    assert element.paused && element.currentTime == 0.0;
  }
}
