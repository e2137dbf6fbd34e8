/**
 * The state machine of the `MusicPlayer` component
 * (src/components/MusicPlayer.js): a playlist of picked files, the index of
 * the current track, the play/pause flag, the volume, the playback position
 * and the name shown for the current track. Each event handler is one
 * method; React's batched state updates inside a handler are taken as a
 * single atomic step. The audio element itself is not modelled, only what
 * the handlers store in component state.
 */
module MusicPlayerModel {
  import opened Wrappers

  /** A file the user picked. Only its `name` reaches the component's state. */
  datatype Track = Track(name: string)

  /** What a call to `playAudio` comes to. */
  datatype PlayOutcome =
    | Started
      /** `playlist[index]` was undefined and `URL.createObjectURL` threw. */
    | ThrewTypeError

  // ---------------------------------------------------------------------------
  // Removal: `Array.prototype.splice(start, 1)` on a copy of the playlist

  /** The position `splice` actually starts at: negative starts count from the end. */
  function SpliceStart(start: int, len: nat): (k: nat)
    ensures k <= len
  {
    if start < 0 then (if len + start < 0 then 0 else len + start)
    else if start < len then start
    else len
  }

  /** r is s with exactly the element at position k taken out; later ones move down by one. */
  ghost predicate RemovedAt<T>(s: seq<T>, r: seq<T>, k: nat)
    requires k < |s|
  {
    && |r| == |s| - 1
    && (forall j :: 0 <= j < k ==> r[j] == s[j])
    && (forall j :: k <= j < |r| ==> r[j] == s[j + 1])
    && multiset(r) == multiset(s) - multiset{s[k]}
  }

  /** `s` after `s.splice(start, 1)`. */
  function RemoveAt<T>(s: seq<T>, start: int): (r: seq<T>)
    // an index inside the list: exactly that element goes
    ensures 0 <= start < |s| ==> RemovedAt(s, r, start)
    // past the end, or an empty list: nothing is removed
    ensures start >= |s| || s == [] ==> r == s
    // a negative index counts back from the end, and is cut off at the front
    ensures -|s| <= start < 0 ==> RemovedAt(s, r, |s| + start)
    ensures start < -|s| && s != [] ==> RemovedAt(s, r, 0)
  {
    var k := SpliceStart(start, |s|);
    if k < |s| then
      CutAt(s, k);
      s[..k] + s[k + 1..]
    else
      s
  }

  lemma CutAt<T>(s: seq<T>, k: nat)
    requires k < |s|
    ensures RemovedAt(s, s[..k] + s[k + 1..], k)
  {
    assert s == s[..k] + [s[k]] + s[k + 1..];
  }

  /**
   * Removal does not move the selection: an index behind the removed
   * position now designates the track that followed the selected one, or no
   * track at all when the selected one was last.
   */
  lemma RemovalDesynchronisesSelection<T>(s: seq<T>, i: int, k: int)
    requires 0 <= i <= k < |s|
    ensures k + 1 < |s| ==> RemoveAt(s, i)[k] == s[k + 1]
    ensures k + 1 == |s| ==> k == |RemoveAt(s, i)|
  {
  }

  /** Files [A, B, C] with B selected at index 1: removing A leaves index 1 on C. */
  lemma RemovalScenario(a: Track, b: Track, c: Track)
    ensures RemoveAt([a, b, c], 0) == [b, c]
    ensures RemoveAt([a, b, c], 0)[1] == c
  {
    assert RemoveAt([a, b, c], 0) == [a, b, c][1..];
  }

  // ---------------------------------------------------------------------------
  // Navigation

  /** The index `handleNextTrack` moves to from k in a playlist of length n. */
  function NextIndex(k: int, n: nat): (r: int)
    ensures n > 0 ==> r < n
    ensures k >= -1 ==> r >= 0
    ensures n == 0 ==> r <= 0
  {
    if k < n - 1 then k + 1 else 0
  }

  /** The index `handlePreviousTrack` moves to from k in a playlist of length n. */
  function PreviousIndex(k: int, n: nat): (r: int)
    ensures r >= -1
    ensures k <= n ==> r < n
    ensures n > 0 ==> 0 <= r
    ensures n == 0 && k <= 0 ==> r == -1
  {
    if k > 0 then k - 1 else n - 1
  }

  /** From the last index, or from a stale index past the end, Next goes to 0. */
  lemma NextFromEndIsZero(k: int, n: nat)
    requires k >= n - 1
    ensures NextIndex(k, n) == 0
  {
  }

  /** On a valid index, next is the successor modulo the playlist length. */
  lemma NextIsSuccessorModulo(k: int, n: nat)
    requires 0 <= k < n
    ensures NextIndex(k, n) == (k + 1) % n
  {
    if k + 1 == n {
      assert (k + 1) % n == 0;
    } else {
      assert (k + 1) % n == k + 1;
    }
  }

  /** On a valid index, previous is the predecessor modulo the playlist length. */
  lemma PreviousIsPredecessorModulo(k: int, n: nat)
    requires 0 <= k < n
    ensures PreviousIndex(k, n) == (k - 1) % n
  {
    if k == 0 {
      assert (k - 1) % n == n - 1;
    } else {
      assert (k - 1) % n == k - 1;
    }
  }

  /** Previous undoes next on every valid index. */
  lemma PreviousUndoesNext(k: int, n: nat)
    requires 0 <= k < n
    ensures PreviousIndex(NextIndex(k, n), n) == k
  {
  }

  /** Next undoes previous on every valid index. */
  lemma NextUndoesPrevious(k: int, n: nat)
    requires 0 <= k < n
    ensures NextIndex(PreviousIndex(k, n), n) == k
  {
  }

  /** The index reached after j presses of Next. */
  function AdvanceBy(k: int, n: nat, j: nat): int
  {
    if j == 0 then k else NextIndex(AdvanceBy(k, n, j - 1), n)
  }

  /** The index reached after j presses of Previous. */
  function RetreatBy(k: int, n: nat, j: nat): int
  {
    if j == 0 then k else PreviousIndex(RetreatBy(k, n, j - 1), n)
  }

  /** Next wraps around modulo the playlist length: j presses advance by j places. */
  lemma {:induction false} AdvanceByIsModular(k: int, n: nat, j: nat)
    requires 0 <= k < n
    ensures AdvanceBy(k, n, j) == (k + j) % n
  {
    if j > 0 {
      AdvanceByIsModular(k, n, j - 1);
      var p := (k + j - 1) % n;
      NextIsSuccessorModulo(p, n);
      ModSuccessor(k + j - 1, n);
    }
  }

  /** Previous wraps around modulo the playlist length: j presses go back j places. */
  lemma {:induction false} RetreatByIsModular(k: int, n: nat, j: nat)
    requires 0 <= k < n
    ensures RetreatBy(k, n, j) == (k - j) % n
  {
    if j > 0 {
      RetreatByIsModular(k, n, j - 1);
      var p := (k - j + 1) % n;
      PreviousIsPredecessorModulo(p, n);
      ModPredecessor(k - j + 1, n);
    }
  }

  lemma ModSuccessor(x: int, n: nat)
    requires n > 0
    ensures (x % n + 1) % n == (x + 1) % n
  {
    var q := x / n;
    assert x == q * n + x % n;
    assert x + 1 == q * n + (x % n + 1);
    ModShift(q, x % n + 1, n);
  }

  lemma ModPredecessor(x: int, n: nat)
    requires n > 0
    ensures (x % n - 1) % n == (x - 1) % n
  {
    var q := x / n;
    assert x == q * n + x % n;
    assert x - 1 == q * n + (x % n - 1);
    ModShift(q, x % n - 1, n);
  }

  lemma ModShift(q: int, y: int, n: nat)
    requires n > 0
    ensures (q * n + y) % n == y % n
  {
    var a := y / n;
    assert y == a * n + y % n;
    assert q * n + y == (q + a) * n + y % n;
    ModUnique(q * n + y, n, q + a, y % n);
  }

  /** The remainder is determined by any quotient-remainder decomposition. */
  lemma ModUnique(x: int, n: nat, d: int, b: int)
    requires n > 0 && 0 <= b < n && x == d * n + b
    ensures x % n == b
  {
    var c := x / n - d;
    assert x == (x / n) * n + x % n;
    assert c * n == b - x % n;
    if c >= 1 {
      assert false;
    } else if c <= -1 {
      assert false;
    }
  }

  // ---------------------------------------------------------------------------
  // The component

  class MusicPlayer {
    var playlist: seq<Track>
    var currentTrackIndex: int
    var isPlaying: bool
    var volume: real
    var currentTime: real
    var currentTrackName: string

    /**
     * Every index the user interface can produce is at least -1: the row
     * buttons pass 0 .. |playlist| - 1, Next lands on 0 or above, and
     * Previous on an empty playlist lands on -1.
     */
    ghost predicate IndexReachable()
      reads this
    {
      -1 <= currentTrackIndex
    }

    /** The track the current index designates, if it designates one. */
    function Selected(): (t: Option<Track>)
      reads this
      ensures t.Some? <==> 0 <= currentTrackIndex < |playlist|
      ensures t.Some? ==> t.value in playlist
    {
      if 0 <= currentTrackIndex < |playlist| then Some(playlist[currentTrackIndex]) else None
    }

    /** The initial `useState` values. */
    constructor ()
      ensures playlist == [] && currentTrackIndex == 0
      ensures !isPlaying && volume == 0.5 && currentTime == 0.0 && currentTrackName == ""
      ensures IndexReachable()
    {
      playlist := [];
      currentTrackIndex := 0;
      isPlaying := false;
      volume := 0.5;
      currentTime := 0.0;
      currentTrackName := "";
    }

    /** `togglePlayPause`: flips the play flag and nothing else. */
    method TogglePlayPause()
      modifies this`isPlaying
      ensures isPlaying == !old(isPlaying)
    {
      isPlaying := !isPlaying;
    }

    /**
     * `handleVolumeChange`: the value goes to the audio element first, whose
     * volume setter throws `IndexSizeError` outside [0, 1]; only a value it
     * accepts reaches the state. Nothing is clamped.
     */
    method HandleVolumeChange(newValue: real) returns (stored: bool)
      modifies this`volume
      ensures stored <==> 0.0 <= newValue <= 1.0
      ensures volume == if stored then newValue else old(volume)
    {
      if 0.0 <= newValue <= 1.0 {
        volume := newValue;
        stored := true;
      } else {
        stored := false;
      }
    }

    /** `handleSeekBarChange`: stores the slider value as given, without clamping. */
    method HandleSeekBarChange(newValue: real)
      modifies this`currentTime
      ensures currentTime == newValue
    {
      currentTime := newValue;
    }

    /** `addToPlaylist`: appends the file; no other field changes. */
    method AddToPlaylist(file: Track)
      modifies this`playlist
      ensures playlist == old(playlist) + [file]
      ensures |playlist| == old(|playlist|) + 1 && playlist[old(|playlist|)] == file
      ensures forall j :: 0 <= j < old(|playlist|) ==> playlist[j] == old(playlist[j])
    {
      playlist := playlist + [file];
    }

    /**
     * `removeFromPlaylist`: splices one element out of a copy of the
     * playlist. The index, the play flag and the shown name stay as they
     * were, so the selection can go stale.
     */
    method RemoveFromPlaylist(index: int)
      modifies this`playlist
      ensures playlist == RemoveAt(old(playlist), index)
      ensures 0 <= index < old(|playlist|) ==> |playlist| == old(|playlist|) - 1
      ensures 0 <= index <= currentTrackIndex && currentTrackIndex + 1 < old(|playlist|) ==>
        Selected() == Some(old(playlist)[currentTrackIndex + 1])
      ensures 0 <= index <= currentTrackIndex && currentTrackIndex + 1 == old(|playlist|) ==>
        Selected() == None
    {
      var copy := playlist;
      copy := RemoveAt(copy, index);
      playlist := copy;
      if 0 <= index <= currentTrackIndex < old(|playlist|) {
        RemovalDesynchronisesSelection(old(playlist), index, currentTrackIndex);
      }
    }

    /**
     * `playAudio(index)`: the index is stored first; if it designates a
     * track the player starts and shows that track's name, otherwise
     * `playlist[index]` is undefined, the object-URL call throws and the rest
     * of the handler is skipped.
     */
    method PlayAudio(index: int) returns (outcome: PlayOutcome)
      modifies this`currentTrackIndex, this`isPlaying, this`currentTrackName
      ensures currentTrackIndex == index
      ensures outcome == Started <==> 0 <= index < |playlist|
      ensures outcome == Started ==> isPlaying && currentTrackName == playlist[index].name
      ensures outcome == ThrewTypeError ==>
        isPlaying == old(isPlaying) && currentTrackName == old(currentTrackName)
      ensures index >= -1 ==> IndexReachable()
    {
      currentTrackIndex := index;
      if 0 <= index < |playlist| {
        var file := playlist[index];
        isPlaying := true;
        currentTrackName := file.name;
        outcome := Started;
      } else {
        outcome := ThrewTypeError;
      }
    }

    /** `handlePreviousTrack`: steps back one place, from 0 to the last track. */
    method HandlePreviousTrack() returns (outcome: PlayOutcome)
      modifies this`currentTrackIndex, this`isPlaying, this`currentTrackName
      ensures currentTrackIndex == PreviousIndex(old(currentTrackIndex), |playlist|)
      ensures IndexReachable()
      ensures outcome == Started <==> 0 <= currentTrackIndex < |playlist|
      ensures |playlist| > 0 && old(currentTrackIndex) <= |playlist| ==> outcome == Started
      ensures |playlist| == 0 ==> outcome == ThrewTypeError
      ensures outcome == Started ==> isPlaying && currentTrackName == playlist[currentTrackIndex].name
      ensures outcome == ThrewTypeError ==>
        isPlaying == old(isPlaying) && currentTrackName == old(currentTrackName)
    {
      var newIndex := PreviousIndex(currentTrackIndex, |playlist|);
      outcome := PlayAudio(newIndex);
    }

    /** `handleNextTrack`: steps forward one place, from the last track (or beyond) to 0. */
    method HandleNextTrack() returns (outcome: PlayOutcome)
      modifies this`currentTrackIndex, this`isPlaying, this`currentTrackName
      ensures currentTrackIndex == NextIndex(old(currentTrackIndex), |playlist|)
      ensures old(IndexReachable()) ==> IndexReachable()
      ensures outcome == Started <==> 0 <= currentTrackIndex < |playlist|
      ensures |playlist| > 0 && old(IndexReachable()) ==> outcome == Started
      ensures |playlist| == 0 ==> outcome == ThrewTypeError
      ensures outcome == Started ==> isPlaying && currentTrackName == playlist[currentTrackIndex].name
      ensures outcome == ThrewTypeError ==>
        isPlaying == old(isPlaying) && currentTrackName == old(currentTrackName)
    {
      var newIndex := NextIndex(currentTrackIndex, |playlist|);
      outcome := PlayAudio(newIndex);
    }
  }

  // ---------------------------------------------------------------------------
  // What callers can conclude from the handlers' contracts alone

  /** Pressing Play/Pause twice restores the play flag. */
  method ToggleTwice(p: MusicPlayer)
    modifies p`isPlaying
    ensures p.isPlaying == old(p.isPlaying)
  {
    p.TogglePlayPause();
    p.TogglePlayPause();
  }

  /** From a valid index, Next and then Previous return to it and play it. */
  method NextThenPrevious(p: MusicPlayer) returns (outcome: PlayOutcome)
    requires 0 <= p.currentTrackIndex < |p.playlist|
    modifies p`currentTrackIndex, p`isPlaying, p`currentTrackName
    ensures p.currentTrackIndex == old(p.currentTrackIndex) && outcome == Started
    ensures p.isPlaying && p.currentTrackName == p.playlist[p.currentTrackIndex].name
  {
    var _ := p.HandleNextTrack();
    outcome := p.HandlePreviousTrack();
    PreviousUndoesNext(old(p.currentTrackIndex), |p.playlist|);
  }

  /** Next on a fresh player reaches the crash path of `playAudio`. */
  method NextOnEmptyPlaylist() returns (outcome: PlayOutcome, index: int)
    ensures outcome == ThrewTypeError && index == 0
  {
    var p := new MusicPlayer();
    outcome := p.HandleNextTrack();
    index := p.currentTrackIndex;
  }

  /**
   * Files A, B, C; B is played; A is removed. The name shown is still B's,
   * while the stored index now designates C.
   */
  method StaleSelectionScenario() returns (shown: string, designated: Option<Track>)
    ensures shown == "B" && designated == Some(Track("C"))
  {
    var p := new MusicPlayer();
    p.AddToPlaylist(Track("A"));
    p.AddToPlaylist(Track("B"));
    p.AddToPlaylist(Track("C"));
    var _ := p.PlayAudio(1);
    p.RemoveFromPlaylist(0);
    shown := p.currentTrackName;
    designated := p.Selected();
  }

  /**
   * Add A, B and C, play C, then remove A and B: the index stays at 2 on a
   * one-track playlist.
   */
  method StaleIndexPastEnd() returns (p: MusicPlayer)
    ensures fresh(p)
    ensures |p.playlist| == 1 && p.playlist[0] == Track("C") && p.currentTrackIndex == 2
  {
    p := new MusicPlayer();
    p.AddToPlaylist(Track("A"));
    p.AddToPlaylist(Track("B"));
    p.AddToPlaylist(Track("C"));
    var _ := p.PlayAudio(2);
    p.RemoveFromPlaylist(0);
    p.RemoveFromPlaylist(0);
  }

  /**
   * From that state Previous steps to the index 1, which designates nothing,
   * so it throws although the playlist is not empty.
   */
  method StalePreviousScenario() returns (outcome: PlayOutcome, index: int, remaining: nat)
    ensures remaining == 1 && index == 1 && outcome == ThrewTypeError
  {
    var p := StaleIndexPastEnd();
    outcome := p.HandlePreviousTrack();
    index := p.currentTrackIndex;
    remaining := |p.playlist|;
  }
}
