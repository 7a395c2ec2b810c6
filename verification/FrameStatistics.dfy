/**
 The statistics of the GStreamer encoder: sums over the latest frames in a circular
 history, and their largest size, which is cached until that frame drops out.
 */
module FrameStatistics {
  const HISTORY_SIZE := 60
  const STATISTICS_COUNT := 21

  datatype Frame = Frame(mmTime: nat, duration: nat, size: nat)

  function Durations(frames: seq<Frame>): nat {
    if frames == [] then 0 else frames[0].duration + Durations(frames[1..])
  }

  function Sizes(frames: seq<Frame>): nat {
    if frames == [] then 0 else frames[0].size + Sizes(frames[1..])
  }

  ghost predicate IsMax(frames: seq<Frame>, m: nat) {
    && (forall i :: 0 <= i < |frames| ==> frames[i].size <= m)
    && (exists i :: 0 <= i < |frames| && frames[i].size == m)
  }

  lemma {:induction false} SumsAppend(frames: seq<Frame>, f: Frame)
    ensures Durations(frames + [f]) == Durations(frames) + f.duration
    ensures Sizes(frames + [f]) == Sizes(frames) + f.size
  {
    if frames == [] {
      assert (frames + [f])[1..] == [];
    } else {
      assert (frames + [f])[1..] == frames[1..] + [f];
      SumsAppend(frames[1..], f);
    }
  }

  /** The latest frames that count after one more. */
  function Next(frames: seq<Frame>, f: Frame): seq<Frame> {
    (if |frames| == STATISTICS_COUNT then frames[1..] else frames) + [f]
  }

  /** The cached maximum is unknown (zero) or right. */
  ghost predicate CachedMax(frames: seq<Frame>, m: nat) {
    m == 0 || IsMax(frames, m)
  }

  lemma MaxWithoutOldest(frames: seq<Frame>, m: nat)
    requires frames != [] && CachedMax(frames, m)
    ensures CachedMax(frames[1..], if m == frames[0].size then 0 else m)
  {
    if m != 0 && m != frames[0].size {
      var i :| 0 <= i < |frames| && frames[i].size == m;
      assert frames[1..][i - 1] == frames[i];
    }
  }

  lemma MaxWithNewest(frames: seq<Frame>, m: nat, f: Frame)
    requires CachedMax(frames, m)
    ensures CachedMax(frames + [f], if m > 0 && f.size > m then f.size else m)
  {
    var next := frames + [f];
    assert next[|frames|] == f;
    if m > 0 {
      var i :| 0 <= i < |frames| && frames[i].size == m;
      assert next[i] == frames[i];
    }
  }

  // ----- The circular history -----

  /** The number of frames from `first` to `last`. */
  function CountOf(first: nat, last: nat): int {
    last + (if last < first then HISTORY_SIZE else 0) - first + 1
  }

  /** Slot `i` of the window that starts at `first`, going round at the end. */
  function Slot(first: nat, i: nat): nat {
    if first + i < HISTORY_SIZE then first + i else first + i - HISTORY_SIZE
  }

  /** The frames are in the history, one after the other, from `first` on. */
  ghost predicate Holds(history: seq<Frame>, first: nat, frames: seq<Frame>) {
    && |history| == HISTORY_SIZE && first < HISTORY_SIZE && |frames| <= STATISTICS_COUNT
    && forall i :: 0 <= i < |frames| ==> FrameAt(history, first, i, frames[i])
  }

  ghost predicate FrameAt(history: seq<Frame>, first: nat, i: nat, f: Frame) {
    Slot(first, i) < |history| && history[Slot(first, i)] == f
  }

  lemma HoldsRest(history: seq<Frame>, first: nat, frames: seq<Frame>)
    requires Holds(history, first, frames) && frames != []
    ensures Holds(history, (first + 1) % HISTORY_SIZE, frames[1..])
  {
    forall i | 0 <= i < |frames| - 1
      ensures FrameAt(history, (first + 1) % HISTORY_SIZE, i, frames[1..][i])
    {
      assert FrameAt(history, first, i + 1, frames[i + 1]);
    }
  }

  lemma HoldsMore(history: seq<Frame>, first: nat, last: nat, frames: seq<Frame>, f: Frame)
    requires Holds(history, first, frames) && last < HISTORY_SIZE
    requires |frames| == CountOf(first, last) && |frames| < STATISTICS_COUNT
    ensures Holds(history[(last + 1) % HISTORY_SIZE := f], first, frames + [f])
    ensures CountOf(first, (last + 1) % HISTORY_SIZE) == |frames| + 1
  {
    var next := (last + 1) % HISTORY_SIZE;
    assert Slot(first, |frames|) == next;
    forall i | 0 <= i < |frames|
      ensures FrameAt(history[next := f], first, i, frames[i])
    {
      assert FrameAt(history, first, i, frames[i]);
    }
  }

  class SpiceGstEncoder {
    const history: array<Frame>
    var historyFirst: nat
    var historyLast: nat
    var statFirst: nat
    var durationSum: nat
    var sizeSum: nat
    var sizeMax: nat
    /** The frames since the last reset, at most STATISTICS_COUNT of them. */
    ghost var frames: seq<Frame>

    ghost predicate Valid()
      reads this, history
    {
      && history.Length == HISTORY_SIZE && historyFirst < HISTORY_SIZE && historyLast < HISTORY_SIZE
      && Holds(history[..], statFirst, frames)
      && 1 <= |frames| <= STATISTICS_COUNT && |frames| == CountOf(statFirst, historyLast)
      && durationSum == Durations(frames) && sizeSum == Sizes(frames)
      && CachedMax(frames, sizeMax)
    }

    constructor ()
      ensures Valid() && frames == [Frame(0, 0, 0)] && fresh(history)
    {
      history := new Frame[HISTORY_SIZE](_ => Frame(0, 0, 0));
      historyFirst, historyLast, statFirst, durationSum, sizeSum, sizeMax := 0, 0, 0, 0, 0, 0;
      frames := [Frame(0, 0, 0)];
    }

    /** The oldest frame of a full window stops counting. */
    method DropOldest()
      requires Valid() && |frames| == STATISTICS_COUNT
      modifies this
      ensures Valid() && frames == old(frames)[1..]
      ensures historyFirst == old(historyFirst) && historyLast == old(historyLast)
    {
      HoldsRest(history[..], statFirst, frames);
      MaxWithoutOldest(frames, sizeMax);
      assert FrameAt(history[..], statFirst, 0, frames[0]);
      durationSum := durationSum - history[statFirst].duration;
      sizeSum := sizeSum - history[statFirst].size;
      if sizeMax == history[statFirst].size {
        sizeMax := 0;
      }
      statFirst := (statFirst + 1) % HISTORY_SIZE;
      frames := frames[1..];
    }

    /** The new frame goes behind the newest one. */
    method StoreFrame(f: Frame)
      requires history.Length == HISTORY_SIZE && historyFirst < HISTORY_SIZE && historyLast < HISTORY_SIZE
      requires Holds(history[..], statFirst, frames)
      requires |frames| == CountOf(statFirst, historyLast) && |frames| < STATISTICS_COUNT
      modifies this`historyFirst, this`historyLast, history
      ensures historyFirst < HISTORY_SIZE && historyLast < HISTORY_SIZE
      ensures Holds(history[..], statFirst, frames + [f]) && |frames| + 1 == CountOf(statFirst, historyLast)
    {
      ghost var before := history[..];
      HoldsMore(before, statFirst, historyLast, frames, f);
      historyLast := (historyLast + 1) % HISTORY_SIZE;
      if historyLast == historyFirst {
        historyFirst := (historyFirst + 1) % HISTORY_SIZE;
      }
      history[historyLast] := f;
      assert history[..] == before[historyLast := f];
    }

    /** One more frame counts. */
    method PushFrame(f: Frame)
      requires Valid() && |frames| < STATISTICS_COUNT
      modifies this, history
      ensures Valid() && frames == old(frames) + [f]
    {
      SumsAppend(frames, f);
      MaxWithNewest(frames, sizeMax, f);
      durationSum := durationSum + f.duration;
      sizeSum := sizeSum + f.size;
      if sizeMax > 0 && f.size > sizeMax {
        sizeMax := f.size;
      }
      StoreFrame(f);
      frames := frames + [f];
    }

    /** add_frame. */
    method AddFrame(f: Frame)
      requires Valid()
      modifies this, history
      ensures Valid() && frames == Next(old(frames), f)
    {
      var count := CountOf(statFirst, historyLast);
      if count == STATISTICS_COUNT {
        DropOldest();
      }
      PushFrame(f);
    }

    /** The reset in set_bit_rate: only the newest frame counts. */
    method ResetStatistics()
      requires Valid()
      modifies this
      ensures Valid() && frames == [old(frames)[|old(frames)| - 1]]
    {
      ghost var newest := frames[|frames| - 1];
      assert FrameAt(history[..], statFirst, |frames| - 1, newest) && Slot(statFirst, |frames| - 1) == historyLast;
      statFirst := historyLast;
      durationSum := history[historyLast].duration;
      sizeSum := history[historyLast].size;
      sizeMax := history[historyLast].size;
      frames := [newest];
      assert frames[1..] == [];
    }

    /** The backward scan over the window. */
    method LargestFrame() returns (m: nat)
      requires Valid()
      ensures IsMax(frames, m)
    {
      var index := historyLast;
      ghost var k := |frames| - 1;
      assert FrameAt(history[..], statFirst, k, frames[k]) && Slot(statFirst, k) == index;
      m := history[index].size;
      while index != statFirst
        invariant 0 <= k < |frames| && index == Slot(statFirst, k)
        invariant forall i :: k <= i < |frames| ==> frames[i].size <= m
        invariant exists i :: k <= i < |frames| && frames[i].size == m
        decreases k
      {
        index := (if index != 0 then index else HISTORY_SIZE) - 1;
        k := k - 1;
        assert FrameAt(history[..], statFirst, k, frames[k]);
        if history[index].size > m {
          m := history[index].size;
        }
      }
    }

    /** get_maximum_frame_size: scans only when the maximum is not known. */
    method GetMaximumFrameSize() returns (m: nat)
      requires Valid()
      modifies this`sizeMax
      ensures Valid() && IsMax(frames, m) && sizeMax == m
    {
      if sizeMax == 0 {
        sizeMax := LargestFrame();
      }
      m := sizeMax;
    }

    /** get_average_encoding_time. */
    function AverageEncodingTime(): (r: nat)
      requires Valid()
      reads this, history
      ensures r == Durations(frames) / |frames|
    {
      durationSum / CountOf(statFirst, historyLast)
    }

    /** get_average_frame_size. */
    function AverageFrameSize(): (r: nat)
      requires Valid()
      reads this, history
      ensures r == Sizes(frames) / |frames|
    {
      sizeSum / CountOf(statFirst, historyLast)
    }
  }
}
