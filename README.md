# MusicPlayer state model

A Dafny model of the state machine inside the `MusicPlayer` React component of a
browser music player (`src/components/MusicPlayer.js`), with proofs about it.

The component keeps seven pieces of state, six of which are modelled:
- the playlist of picked files;
- the index of the current track;
- a play/pause flag;
- the volume;
- the playback position;
- the name shown for the current track;
- the track duration, which is left out (see below).

Its event handlers append and remove files, play a track by index, step to the
next or previous track with wrap-around, flip the play flag, and store slider
values. The model keeps this form:

- `MusicPlayerModel.MusicPlayer` is a class with those six fields.
  - Each handler is one method with a `modifies` frame covering only the fields it writes.
  - The `setState` calls inside one handler are taken as one atomic step.
- The index arithmetic and the removal are pure functions: `NextIndex`, `PreviousIndex` and `RemoveAt`. `SpliceStart` (where `splice` starts) and `Selected` (the track the index designates) are plain definitions.
  - The methods are specified by these functions.
  - Lemmas state the properties of the functions.
- `TimeFormat` models the pure helper `formatTime`. It is modelled on whole seconds (`nat`), which stand for the value already floored by `Math.floor`.
  - A second function, `FormatTimeOfReal`, follows the source's own arithmetic on a real position.
  - A lemma proves that it renders the floored position.

What the proofs establish:

- **Time format.** `formatTime` maps whole seconds one-to-one onto a described
  set of strings. Each string is at least two minute digits, padded with `0` only
  up to two places, then a colon, then two second digits below 60.
  - `ParseTime` inverts it in both directions: it is defined exactly on those strings, each of them is `formatTime` of its result, and it reads `formatTime(t)` back as t.
  - Minutes are never carried into hours, although the source comment at line 174 says "HH:MM:SS". One hour renders as `60:00`.
- **Removal.** Removal follows `Array.prototype.splice(index, 1)`:
  - exactly one element goes;
  - earlier elements stay where they are;
  - later elements move down one place;
  - an index at or past the end removes nothing;
  - a negative index counts back from the end.
- **Stale selection.** Removal never adjusts the current index. After removing an earlier track, the index designates the following track, or no track at all. The name shown stays the same. A stale index past the end can then make Previous throw on a non-empty playlist: from index 2 on a one-track playlist it steps to index 1, which designates nothing.
- **Navigation.** Next and Previous are the successor and the predecessor modulo the playlist length on valid indices.
  - Each undoes the other.
  - `j` presses of Next move `j` places modulo the length, and `j` presses of Previous move back `j` places.
- **Reachable indices.** Every index the interface can produce is at least -1 (`IndexReachable`), and the handlers keep it so. From such an index, Next on a non-empty playlist always lands in range.
- **Empty playlist.** `playAudio` on an index that designates no track reaches the crash path. On an empty playlist this happens on both Next and Previous.
  - `playAudio` first stores the index (line 68).
  - `playlist[index]` is then `undefined`, and `URL.createObjectURL(undefined)` throws a `TypeError` (line 70).
  - The model returns the outcome `ThrewTypeError`. The stored index keeps its new value, and the play flag and name keep their old values.

The code has none of these behaviours, and the model adds none of them:
- The code does not clamp the seek position or the volume. The seek handler stores the slider value as given. The volume handler stores it only when the audio element accepts it, that is within [0, 1]; outside that range the element's setter throws before the state is written.
- The code does not treat Next or Previous on an empty playlist as a no-op. It throws, as described above.
- An out-of-range index passed to `removeFromPlaylist` is not an error. It follows `splice`: nothing is removed, or a negative index counts from the end.
- The selection does not follow the selected track across removals.

Files: `wrappers.dfy` (an `Option` type), `time_format.dfy` (module
`TimeFormat`), `music_player.dfy` (module `MusicPlayerModel`).

## Model

| member | source | states |
|---|---|---|
| `TimeFormat.Decimal` | src/components/MusicPlayer.js:178 | `String(n)` is a non-empty digit string with no leading zero; it has one character exactly when n < 10 |
| `TimeFormat.PadStart` | src/components/MusicPlayer.js:178 | `padStart(width, fill)` keeps the string as its suffix and fills the front with `fill` up to `width` characters, never shortening |
| `TimeFormat.DecimalRoundTrip` | src/components/MusicPlayer.js:178 | reading back `String(n)` as a decimal numeral gives n |
| `TimeFormat.DecimalLength` | src/components/MusicPlayer.js:178 | `String(n)` has at most two digits exactly when n < 100, so padding to two makes no difference beyond that |
| `TimeFormat.DecimalOfParse` | src/components/MusicPlayer.js:178 | every canonical numeral is `String` of the number it denotes |
| `TimeFormat.PadStartDecimal` | src/components/MusicPlayer.js:178 | a zero-padded `String(n)` still denotes n |
| `TimeFormat.FormatTime` | src/components/MusicPlayer.js:175-179 | the result is well formed (minutes padded to at least two digits, a colon, exactly two second digits below 60); the minutes field denotes t / 60 and the seconds field t % 60, so minutes*60 + seconds == t; the result is five characters exactly when t < 6000 |
| `TimeFormat.Render` | src/components/MusicPlayer.js:178 | minutes and seconds, each padded to two places around a colon, form a well-formed time whose fields read back as those two numbers; it is five characters exactly when minutes < 100 |
| `TimeFormat.ParseTime` | src/components/MusicPlayer.js:175-179 | the inverse of formatTime: it is defined exactly on well-formed time strings, and every string it accepts is `formatTime` of the number it returns, so the format is onto that set |
| `TimeFormat.ParseFormatTime` | src/components/MusicPlayer.js:175-179 | parsing `formatTime(t)` gives back t |
| `TimeFormat.RenderingDetermined` | src/components/MusicPlayer.js:178 | every well-formed time string is the rendering of the minutes and seconds its fields denote, so the rendering of two numbers is unique |
| `TimeFormat.FormatOfRender` | src/components/MusicPlayer.js:175-179 | `formatTime(60 * m + s)` with s < 60 renders the minutes m and the seconds s |
| `TimeFormat.FormatTimeInjective` | src/components/MusicPlayer.js:175-179 | distinct whole-second positions render differently |
| `TimeFormat.OneHourIsSixtyMinutes` | src/components/MusicPlayer.js:174-179 | 3600 seconds render as `60:00`: minutes are not wrapped into hours, whatever the comment says |
| `TimeFormat.Remainder60` | src/components/MusicPlayer.js:177 | `time % 60` on a non-negative position lies in [0, 60) |
| `TimeFormat.FloorNat` | src/components/MusicPlayer.js:176-177 | `Math.floor` of a non-negative real is the natural number n with n <= x < n + 1 |
| `TimeFormat.FloorParts` | src/components/MusicPlayer.js:176-177 | `Math.floor(time / 60)` is floor(time) / 60 and `Math.floor(time % 60)` is floor(time) % 60 |
| `TimeFormat.FormatTimeOfReal` | src/components/MusicPlayer.js:175-179 | formatTime computed as the source writes it on a real position equals formatTime of the floored whole seconds |
| `MusicPlayerModel.RemoveAt` | src/components/MusicPlayer.js:61-65 | for an index inside the list, the length drops by one, earlier elements stay, later ones move down by exactly one, and exactly that element leaves the multiset; an index at or past the end, or an empty list, leaves it unchanged; a negative index removes the element that many places from the end, or the first one |
| `MusicPlayerModel.RemovalDesynchronisesSelection` | src/components/MusicPlayer.js:61-65 | removing at or before the selected index leaves that index on the following track, or one past the end when the selected track was last |
| `MusicPlayerModel.RemovalScenario` | src/components/MusicPlayer.js:61-65 | removing A from [A, B, C] gives [B, C], where index 1 is C |
| `MusicPlayerModel.NextIndex` | src/components/MusicPlayer.js:83 | Next lands in [0, n) on a non-empty playlist from any index at least -1, and on 0 or below on an empty one |
| `MusicPlayerModel.NextFromEndIsZero` | src/components/MusicPlayer.js:83 | from the last index, or from a stale index at or past the end, Next goes to 0 |
| `MusicPlayerModel.PreviousIndex` | src/components/MusicPlayer.js:78 | Previous never goes below -1, lands in [0, n) on a non-empty playlist from any index up to n, and on -1 on an empty one from index 0 |
| `MusicPlayerModel.NextIsSuccessorModulo` | src/components/MusicPlayer.js:82-85 | on a valid index Next is (k + 1) mod n, so the last index wraps to 0 |
| `MusicPlayerModel.PreviousIsPredecessorModulo` | src/components/MusicPlayer.js:77-80 | on a valid index Previous is (k - 1) mod n, so index 0 wraps to n - 1 |
| `MusicPlayerModel.PreviousUndoesNext` | src/components/MusicPlayer.js:77-85 | Previous after Next returns to every valid index |
| `MusicPlayerModel.NextUndoesPrevious` | src/components/MusicPlayer.js:77-85 | Next after Previous returns to every valid index |
| `MusicPlayerModel.AdvanceByIsModular` | src/components/MusicPlayer.js:82-85 | j presses of Next from a valid index reach (k + j) mod n |
| `MusicPlayerModel.RetreatByIsModular` | src/components/MusicPlayer.js:77-80 | j presses of Previous from a valid index reach (k - j) mod n |
| `MusicPlayerModel.MusicPlayer.constructor` | src/components/MusicPlayer.js:12-20 | the initial state: empty playlist, index 0, paused, volume 0.5, position 0, empty name |
| `MusicPlayerModel.MusicPlayer.TogglePlayPause` | src/components/MusicPlayer.js:42-49 | flips the play flag and changes no other field |
| `MusicPlayerModel.MusicPlayer.HandleVolumeChange` | src/components/MusicPlayer.js:51-54 | the audio element's volume write comes first and throws `IndexSizeError` outside [0, 1]; so the value is stored, unclamped, exactly when it lies in [0, 1], the volume is left as it was otherwise, and nothing else changes |
| `MusicPlayerModel.MusicPlayer.HandleSeekBarChange` | src/components/MusicPlayer.js:87-90 | stores the slider value as the position, unclamped, and nothing else |
| `MusicPlayerModel.MusicPlayer.AddToPlaylist` | src/components/MusicPlayer.js:56-59 | the playlist grows by one, with the file at the old length and every earlier element unchanged; no other field changes |
| `MusicPlayerModel.MusicPlayer.RemoveFromPlaylist` | src/components/MusicPlayer.js:61-65 | the playlist becomes its `splice(index, 1)`; only the playlist changes, so after removing at or before the selection the index designates the following track or none |
| `MusicPlayerModel.MusicPlayer.PlayAudio` | src/components/MusicPlayer.js:67-75 | stores the index; it starts playing and shows that track's name exactly when the index designates a track, otherwise it throws with the play flag and name left as they were; the playlist is untouched |
| `MusicPlayerModel.MusicPlayer.HandlePreviousTrack` | src/components/MusicPlayer.js:77-80 | moves to the previous index and plays it; the index stays at least -1; it succeeds on a non-empty playlist whenever the old index is not past the end, and always throws on an empty one |
| `MusicPlayerModel.MusicPlayer.HandleNextTrack` | src/components/MusicPlayer.js:82-85 | moves to the next index and plays it; from a reachable index it succeeds on every non-empty playlist and lands in range; it always throws on an empty one |
| `MusicPlayerModel.ToggleTwice` | src/components/MusicPlayer.js:42-49 | pressing Play/Pause twice restores the play flag |
| `MusicPlayerModel.NextThenPrevious` | src/components/MusicPlayer.js:77-85 | from a valid index, Next then Previous returns to it and plays that track |
| `MusicPlayerModel.NextOnEmptyPlaylist` | src/components/MusicPlayer.js:67-85 | on a fresh player, Next stores index 0 and reaches the `TypeError` path of `playAudio` |
| `MusicPlayerModel.StaleSelectionScenario` | src/components/MusicPlayer.js:56-75 | add A, B, C, play B, remove A: the name shown is still B while the stored index designates C |
| `MusicPlayerModel.StaleIndexPastEnd` | src/components/MusicPlayer.js:56-75 | add A, B, C, play C, remove A and then B: the playlist is just C while the stored index stays 2, past its end |
| `MusicPlayerModel.StalePreviousScenario` | src/components/MusicPlayer.js:67-80 | from that state Previous moves the index to 1 on the one-track playlist, and `playAudio` throws although the playlist is not empty |

## Left out

- Rendering: the JSX, the MUI components, the hidden file input and the list rendering with `key={index}` (lines 92-169). These are presentation only.
- The `Audio` element's side effects: `play`, `pause`, `load`, the writes to its `volume`, `src` and `currentTime`, and `URL.createObjectURL` (lines 44-46, 52, 70-72, 89). These are browser calls. Only the React-state consequences are modelled, plus the throw on an undefined file.
- The `timeupdate` and `loadedmetadata` listeners (lines 22-40) and the `duration` field they feed. These are asynchronous platform events that copy floating-point values.
- Tracks carry only their `name`. The file contents and the object URL derived from them never reach component state.
- Floating point: volume and position are Dafny `real`s. `FormatTimeOfReal` uses exact real division. Any effect of IEEE rounding in `time / 60` near a whole number of minutes is not modelled.
- `formatTime` of a negative, infinite or NaN time is not modelled. The seek handler never stores one, because the slider's minimum is 0. But the `loadedmetadata` listener (line 30) copies `audio.duration`, which is `+Infinity` for a stream of unknown length, and line 155 then renders it as `Infinity:NaN`. Dafny reals have no infinite value, and `duration` is not part of this model.
- `String(n)` switches to exponent notation at 10^21. `Decimal` always writes plain digits.
- Stale closures: each handler reads the state of the render it was created in. Handlers are modelled as atomic steps on the current state, so overlapping updates between renders are not modelled.
- `src/components/AudioVisualizer.js`, `src/components/Waveform.js`, `src/components/AddToPlaylistForm.js` and `src/components/Playlist.js` are not part of this model. They hold Web Audio and canvas drawing loops over floating-point geometry, and pure form and list rendering.
- `HandleVolumeChange` does not model a NaN or infinite value, for which the audio element's setter throws a `TypeError`: Dafny reals have no such values, and the Slider delivers only numbers in [0, 1].
