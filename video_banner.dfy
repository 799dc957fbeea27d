/**
 * The home-page video carousel: which video shows, whether the carousel
 * advances on its own, and the progress bar, updated by the buttons and by
 * the 50 ms interval the effect installs while playing.  The clock
 * (`Date.now()`) is a parameter of every step that reads it.
 */
module VideoBanner {

  /** The YouTube ids of `VIDEOS`, in carousel order. */
  function VideoIds(): seq<string> {
    ["5Zg-C8AAIGg", "jbkSRLYSojo", "hVimVzgtD6w", "aircAruvnKk", "N00g9Q9stBo", "fSgEeI2Xpdc", "ll5LY7wI_Xc"]
  }

  /** `VIDEOS.length`. */
  const VideoCount: nat := 7

  /** `VIDEO_DURATION`, in milliseconds. */
  const VideoDuration: int := 12000

  lemma VideoCountIsLength()
    ensures |VideoIds()| == VideoCount
  {
  }

  /** `(prev + 1) % VIDEOS.length`. */
  function NextIndex(i: nat): (r: nat)
    ensures r < VideoCount
  {
    (i + 1) % VideoCount
  }

  /** `(prev - 1 + VIDEOS.length) % VIDEOS.length`. */
  function PreviousIndex(i: nat): (r: nat)
    requires i < VideoCount
    ensures r < VideoCount
  {
    (i - 1 + VideoCount) % VideoCount
  }

  /** Next then previous, or previous then next, comes back to the same video. */
  lemma NextPreviousInverse(i: nat)
    requires i < VideoCount
    ensures PreviousIndex(NextIndex(i)) == i
    ensures NextIndex(PreviousIndex(i)) == i
  {
  }

  /** The index after `n` presses of "next". */
  function NextTimes(i: nat, n: nat): (r: nat)
    ensures n > 0 ==> r < VideoCount
  {
    if n == 0 then i else NextIndex(NextTimes(i, n - 1))
  }

  /** `n` presses of "next" move `n` places round the carousel. */
  lemma {:induction false} NextTimesIsShift(i: nat, n: nat)
    requires i < VideoCount
    ensures NextTimes(i, n) == (i + n) % VideoCount
  {
    if n > 0 {
      NextTimesIsShift(i, n - 1);
    }
  }

  /** Seven presses of "next" come back to the starting video. */
  lemma SevenNextsReturn(i: nat)
    requires i < VideoCount
    ensures NextTimes(i, VideoCount) == i
  {
    NextTimesIsShift(i, VideoCount);
  }

  /** `Math.min((elapsed / VIDEO_DURATION) * 100, 100)`, exactly. */
  function ProgressAt(elapsed: int): (p: real)
    ensures p <= 100.0
    ensures elapsed >= 0 ==> 0.0 <= p
    ensures p == 100.0 <==> elapsed >= VideoDuration
  {
    var raw := (elapsed as real / VideoDuration as real) * 100.0;
    if raw < 100.0 then raw else 100.0
  }

  /** The state of `VideoBanner`. */
  class Carousel {
    var currentIndex: nat
    var isPlaying: bool
    var progress: real
    /** `startTime` of the effect installed last; it matters only while playing. */
    var startTime: int

    /** The index names a video and the bar is at most full. */
    predicate Valid()
      reads this
    {
      currentIndex < VideoCount && progress <= 100.0
    }

    /** Mounting: the first video, playing, empty bar, and the effect starts its clock. */
    constructor(now: int)
      ensures currentIndex == 0 && isPlaying && progress == 0.0 && startTime == now
      ensures Valid()
    {
      currentIndex := 0;
      isPlaying := true;
      progress := 0.0;
      startTime := now;
    }

    /** `VIDEOS[currentIndex].id`. */
    function CurrentVideo(): string
      reads this
      requires Valid()
    {
      VideoIds()[currentIndex]
    }

    /**
     * `handleVideoSelect(index)`: shows that video with an empty bar.  The
     * effect restarts its clock only when the index changed and the
     * carousel plays; selecting the current video keeps the old clock.
     */
    method HandleVideoSelect(index: nat, now: int)
      requires Valid() && index < VideoCount
      modifies this
      ensures currentIndex == index && progress == 0.0 && isPlaying == old(isPlaying)
      ensures startTime == if index != old(currentIndex) && isPlaying then now else old(startTime)
      ensures Valid()
    {
      var changed := index != currentIndex;
      currentIndex := index;
      progress := 0.0;
      if changed && isPlaying {
        startTime := now;
      }
    }

    /** `handlePrevious`: the previous video, wrapping from the first to the last, with an empty bar. */
    method HandlePrevious(now: int)
      requires Valid()
      modifies this
      ensures currentIndex == PreviousIndex(old(currentIndex)) && progress == 0.0 && isPlaying == old(isPlaying)
      ensures startTime == if isPlaying then now else old(startTime)
      ensures Valid()
    {
      currentIndex := PreviousIndex(currentIndex);
      progress := 0.0;
      if isPlaying {
        startTime := now;
      }
    }

    /** `handleNext`: the next video, wrapping from the last to the first, with an empty bar. */
    method HandleNext(now: int)
      requires Valid()
      modifies this
      ensures currentIndex == NextIndex(old(currentIndex)) && progress == 0.0 && isPlaying == old(isPlaying)
      ensures startTime == if isPlaying then now else old(startTime)
      ensures Valid()
    {
      currentIndex := NextIndex(currentIndex);
      progress := 0.0;
      if isPlaying {
        startTime := now;
      }
    }

    /**
     * The play/pause button: pausing removes the interval and leaves the
     * bar where it is; resuming installs a new one with a fresh clock.
     */
    method TogglePlay(now: int)
      requires Valid()
      modifies this
      ensures isPlaying == !old(isPlaying)
      ensures currentIndex == old(currentIndex) && progress == old(progress)
      ensures startTime == if isPlaying then now else old(startTime)
      ensures Valid()
    {
      isPlaying := !isPlaying;
      if isPlaying {
        startTime := now;
      }
    }

    /**
     * One interval tick at time `now`: the bar shows the elapsed share of
     * the duration; once the duration has passed, the next video shows
     * with an empty bar and the effect restarts its clock.
     */
    method Tick(now: int)
      requires Valid() && isPlaying
      modifies this
      ensures isPlaying
      ensures now - old(startTime) < VideoDuration ==>
        currentIndex == old(currentIndex) && progress == ProgressAt(now - old(startTime)) && startTime == old(startTime)
      ensures now - old(startTime) >= VideoDuration ==>
        currentIndex == NextIndex(old(currentIndex)) && progress == 0.0 && startTime == now
      ensures Valid()
    {
      var elapsed := now - startTime;
      progress := ProgressAt(elapsed);
      if elapsed >= VideoDuration {
        currentIndex := NextIndex(currentIndex);
        progress := 0.0;
        startTime := now;
      }
    }
  }
}
