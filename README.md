# Baby Sleep Sounds: the playback controller

This project models the playback controller of the `BabySoundApp` component in
`app/page.tsx`. The controller keeps two things:

- `activeSound`: either nothing or the id of one track;
- one audio element, created the first time a track starts and reused after that.

Four events drive it:

- a track button calls `toggleSound(id)`;
- the random button calls `playRandomSound`;
- the "Stop Audio" button runs its own handler;
- unmounting the component runs a cleanup.

The catalog is a fixed list of four tracks with distinct ids. A button is
drawn highlighted when `activeSound === button.id`.

The project has two layers.

- **Values** (modules `Catalog`, `Playback`, `PlaybackLaws`). The state is a
  `Player(activeSound, audio)`. What a handler does to the audio element is
  written as the list of operations it performs, in order (`AudioOp`: create,
  pause, rewind, set the source, set looping, set the volume, play). The
  element that results is that list played through `Apply`. Each handler is one
  function, and the pieces they share are functions too:
  - `Playback.Toggle` models `toggleSound` (app/page.tsx:68-103);
  - `Playback.RandomToggle` models `playRandomSound` (app/page.tsx:106-110);
  - `Playback.StopPressed` models the "Stop Audio" handler (app/page.tsx:180-183);
  - `Playback.Cleanup` models the unmount cleanup (app/page.tsx:113-117);
  - `Playback.StopOps` models `stopCurrentSound` (app/page.tsx:61-66);
  - `Playback.StartOps` and `Playback.ConfigureOps` model the start (app/page.tsx:84-93);
  - `Catalog.Highlighted` models the highlight test (app/page.tsx:148).

  The lemmas of `PlaybackLaws` state what the handlers guarantee.
- **Objects** (module `SoundApp`). `AudioElement` is a class whose fields the
  handlers change in place. `BabySoundApp` holds `activeSound` and a nullable
  `audioRef`. Each of its methods follows the source statement by statement.
  Each is proved to move `State()` exactly as the value-level function does,
  and to append exactly that function's operations to a ghost log of audio
  operations. The log is written by hand beside the field writes; the order of
  the operations is proved on the value model (`StopBeforeStart`), and the
  method bodies perform the writes in that order. Object identity shows that an element is created only when there
  is none and is reused afterwards.

Two behaviours of `toggleSound` are easy to miss:

- **An unknown id is not a no-op.** `toggleSound` stops the current sound
  before it looks the id up, so the element is paused and rewound while
  `activeSound` keeps its value. `UnknownId` proves this in general, and
  `UnknownIdPausesActiveTrack` shows it on a concrete state. The buttons and
  the random choice only pass catalog ids, so the application never reaches
  this path.
- **A selected sound is not necessarily playing.** When `play()` is rejected,
  or after an unknown id, a sound stays selected while its element is paused.
  The invariant that does hold is `Inv`:
  - a selected sound is a catalog id;
  - the element is then bound to that id's track, looping at the moderate volume;
  - the element plays only while a sound is selected.

## Model

| member | source | states |
|---|---|---|
| Catalog.SoundButtonsUnique | app/page.tsx:29-58 | The catalog has four entries and no two of them share an id. |
| Catalog.Find | app/page.tsx:80 | The lookup finds nothing exactly when no entry has the id. Otherwise it returns the first entry with that id. |
| Catalog.FindEntry | app/page.tsx:80-81 | With distinct ids, looking up an entry's id returns that very entry. |
| Catalog.HighlightCountExact | app/page.tsx:148 | With distinct ids, at most one button is highlighted. Exactly one is highlighted when `activeSound` is a catalog id, and none otherwise. |
| PlaybackLaws.StopEffect | app/page.tsx:61-66 | `stopCurrentSound` pauses the element, sets its `currentTime` to 0 and changes nothing else. With no element it changes nothing. |
| PlaybackLaws.ConfigureEffect | app/page.tsx:88-93 | On an existing element, the four writes set its source to the track's, `loop` to true and volume to 0.5, and make it play exactly when `play()` succeeds. Its time is left as it was. |
| PlaybackLaws.StartEffect | app/page.tsx:84-93 | After the stop and the start, an element always exists. Its source is the track's, it loops at volume 0.5 from time 0, and it is playing exactly when `play()` succeeds. This holds whether or not an element existed before. |
| PlaybackLaws.ToggleOff | app/page.tsx:70-73 | Toggling the active id clears `activeSound`. The element is paused and rewound, and its other fields are unchanged. |
| PlaybackLaws.SelectOther | app/page.tsx:77-102 | Toggling a catalog id other than the active one makes it `activeSound`. The element then has that entry's `soundSrc`, `loop == true`, volume 0.5, time 0, and is paused exactly when `play()` fails. |
| PlaybackLaws.StopBeforeStart | app/page.tsx:77-88 | When an element exists and another catalog track starts, the first two operations pause and rewind it. Nothing pauses it again, the new source is set only after those two, and no element is created. |
| PlaybackLaws.CreatedOnlyWhenAbsent | app/page.tsx:84-86 | A toggle creates an element exactly when there is none, the id is not active and the catalog has the id. Afterwards an element exists. |
| PlaybackLaws.UnknownId | app/page.tsx:77-81 | An id that is not in the catalog and not active leaves `activeSound` unchanged and the source, loop and volume untouched. The element is still paused and rewound. |
| PlaybackLaws.UnknownIdNeverActive | app/page.tsx:80-81 | In a state satisfying `Inv`, an id that is not in the catalog is never the active one. |
| PlaybackLaws.UnknownIdPausesActiveTrack | app/page.tsx:77-81 | Concrete: after "lullaby" starts, toggling "nonexistent-id" keeps "lullaby" selected but leaves its element paused. |
| PlaybackLaws.FailureNotRolledBack | app/page.tsx:93-102 | Whether or not `play()` succeeds, `activeSound` ends up the same. The elements differ at most in `paused`, and after a failure the element is paused. |
| PlaybackLaws.InitialInv | app/page.tsx:25-26 | The mount state (nothing selected, no element) satisfies the invariant. |
| PlaybackLaws.ToggleKeepsInv | app/page.tsx:68-103 | `toggleSound` keeps the invariant for every id and every outcome of `play()`. |
| PlaybackLaws.StopPressedKeepsInv | app/page.tsx:180-183 | The Stop handler keeps the invariant. |
| PlaybackLaws.CleanupKeepsInv | app/page.tsx:113-117 | The unmount cleanup keeps the invariant. |
| PlaybackLaws.RunKeepsInv | app/page.tsx:68-110 | Any series of button, random and Stop events keeps the invariant. |
| PlaybackLaws.SingleHighlight | app/page.tsx:140-151 | After any series of events from mount, exactly one button is highlighted while a sound is selected, and none otherwise. |
| PlaybackLaws.StopPressedIdempotent | app/page.tsx:180-183 | The Stop handler clears the selection and leaves any element paused at time 0. Running it twice equals running it once. |
| PlaybackLaws.CleanupIdempotent | app/page.tsx:113-117 | The cleanup keeps the selection and leaves any element paused at time 0. Running it twice equals running it once. |
| PlaybackLaws.RandomPicksCatalogId | app/page.tsx:106-110 | The random handler toggles a catalog id and behaves exactly like `toggleSound` on that id. The selection is cleared if that id was active and becomes that id otherwise. |
| PlaybackLaws.SelectTwiceStops | app/page.tsx:70-73 | Pressing a catalog track that is not active, and then pressing it again, ends with nothing selected. |
| PlaybackLaws.SwitchTracks | app/page.tsx:77-102 | Switching from track x to track y: the element is bound to x. It is paused and rewound before it is bound to y, and it is not paused again afterwards. y ends up selected with its element configured. |
| PlaybackLaws.CatalogScenario | app/page.tsx:29-58 | On the real catalog: "midnight-beach", then "calming-rain" (selection moves, element rebound), then "calming-rain" again (cleared), then Stop, which changes nothing at all. |
| SoundApp.AudioElement.constructor | app/page.tsx:85 | `new Audio()`: no source, not looping, volume 1, paused at time 0. |
| SoundApp.AudioElement.Pause | app/page.tsx:63 | `pause()` sets `paused` and changes no other field. |
| SoundApp.AudioElement.Play | app/page.tsx:93 | `play()` leaves the element playing exactly when the browser allows it. No other field changes. |
| SoundApp.BabySoundApp.constructor | app/page.tsx:25-26 | Mount: nothing selected, no audio element, invariant established. |
| SoundApp.BabySoundApp.StopCurrentSound | app/page.tsx:61-66 | Performs `StopOps` on the element in place. The reference and `activeSound` stay unchanged. |
| SoundApp.BabySoundApp.StartSound | app/page.tsx:84-93 | Reuses the element, or creates a fresh one when there is none, and performs `StartOps` on it. |
| SoundApp.BabySoundApp.ToggleSound | app/page.tsx:68-103 | The new state is `Toggle` of the old one and the log grows by `ToggleOps`. An existing element is kept, a new element is fresh, and the invariant is preserved. |
| SoundApp.BabySoundApp.PlayRandom | app/page.tsx:106-110 | With an index in range, the new state is `RandomToggle` of the old one. This is `ToggleSound` on that entry's id. |
| SoundApp.BabySoundApp.Stop | app/page.tsx:180-183 | The new state is `StopPressed` of the old one on the same element, and the invariant is preserved. |
| SoundApp.BabySoundApp.Unmount | app/page.tsx:113-117 | The new state is `Cleanup` of the old one on the same element, and the invariant is preserved. |

`SoundApp.Client` shows a caller proving, from the contracts alone, the
following sequence:

1. Pressing "midnight-beach" selects it.
2. A random pick of index 2 moves the selection to "calming-rain" on the same
   element.
3. Stop leaves that element paused at time 0.

## Left out

- Rendering, styling, icons and layout (app/page.tsx:119-190): presentation. Only the highlight test of line 148 is kept, as `Catalog.Highlighted`. The track's icon is not a field of `Track`.
- React hook mechanics (`useState` batching, `useRef`, the effect lifecycle): each handler is one atomic transition. The handlers read `activeSound` as it was when they started, as the closure does.
- The browser's real playback and the asynchronous `play()` promise: `play()` is a boolean parameter saying whether playback starts. A late resolution racing a later stop is not modelled.
- The media load algorithm that assigning `src` triggers in a browser: assigning the source changes only `src`. The controller rewinds and pauses before assigning it anyway.
- `Math.floor(Math.random() * length)` (app/page.tsx:107): replaced by an index parameter that must lie in `[0, length)`, which is the range that expression produces.
- The `console.error` call on a rejected `play()` (app/page.tsx:98): logging, with no effect on the state.
- Volume is the `real` constant 0.5, with no numeric reasoning about it.
- The unmount cleanup is not one of the events of `Playback.Run`: nothing happens after unmount. Its effect is stated on its own by `CleanupIdempotent` and `CleanupKeepsInv`.
- The "Stop Audio" button is rendered only while a sound is selected (app/page.tsx:176-187). The model lets `StopButton` and `Stop` fire in every state. This is a superset of what the UI allows, so the invariant proofs still hold for the real UI. The second press in `StopPressedIdempotent` cannot happen in the UI: after the first press nothing is selected and the button is gone.
- The ghost `audioLog` is not tied to the field writes of `AudioElement`: it records the operations of each handler in the order its value-level counterpart lists them, and the order of the writes inside a method is not itself checked against it.
