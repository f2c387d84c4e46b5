/** The frame clock of the event loop: the frame length for a speed level,
    the deadline of the next frame and the time left until it. */
module Timing {
  /** A `struct timespec`: seconds and nanoseconds. */
  datatype Timespec = Timespec(sec: int, nsec: int)

  const NsecPerSec := 1_000_000_000

  /** The frame delays of the nine speed levels, in milliseconds. */
  const SpeedDelays: seq<int> := [800, 500, 300, 200, 145, 125, 100, 80, 50]

  /** The instant a `timespec` stands for, in nanoseconds. */
  function Nanos(t: Timespec): int {
    t.sec * 1_000_000_000 + t.nsec
  }

  /** The nanoseconds are within one second. */
  predicate Normal(t: Timespec) {
    0 <= t.nsec < NsecPerSec
  }

  /** The frame length: the delay of the speed level, shifted right by one
      while the head is in a hole (on a positive delay, a halving). */
  function FrameDuration(speed: int, inHole: bool): (ms: int)
    requires 1 <= speed <= 9
    ensures 25 <= ms <= 800
  {
    var delay := SpeedDelays[speed - 1];
    if inHole then delay / 2 else delay
  }

  /** The deadline of the next frame: the frame length added to the
      nanoseconds with one carry into the seconds. */
  function NextFrame(last: Timespec, ms: int): (r: Timespec)
    ensures Nanos(r) == Nanos(last) + ms * 1_000_000
    ensures Normal(last) && 0 <= ms < 1000 ==> Normal(r)
  {
    var nsec := last.nsec + ms * 1_000_000;
    var carry := if NsecPerSec <= nsec then 1 else 0;
    Timespec(last.sec + carry, nsec - carry * 1_000_000_000)
  }

  /** The `ppoll` timeout: the deadline minus now with one borrow from the
      seconds, and zero for a frame already missed. */
  function Timeout(next: Timespec, now: Timespec): (r: Timespec)
    ensures Normal(next) && Normal(now) ==>
      Normal(r) && 0 <= r.sec &&
      Nanos(r) == (if Nanos(now) <= Nanos(next) then Nanos(next) - Nanos(now) else 0)
  {
    var sec := next.sec - now.sec;
    var nsec := next.nsec - now.nsec;
    var borrow := if nsec < 0 then 1 else 0;
    var t := Timespec(sec - borrow, nsec + borrow * 1_000_000_000);
    if t.sec < 0 then Timespec(0, 0) else t
  }

  /** The delays shrink with every speed level, in and out of a hole. */
  lemma FasterIsShorter(speed: int, speed': int, inHole: bool)
    requires 1 <= speed < speed' <= 9
    ensures FrameDuration(speed', inHole) < FrameDuration(speed, inHole)
  {
  }

  /** In a hole the frame is half as long, rounded down. */
  lemma HoleHalvesTheFrame(speed: int)
    requires 1 <= speed <= 9
    ensures FrameDuration(speed, true) == FrameDuration(speed, false) / 2
    ensures FrameDuration(speed, false) == SpeedDelays[speed - 1]
  {
  }

  /** Polling right after a frame waits exactly one frame length. */
  lemma WaitsOneFrame(last: Timespec, ms: int)
    requires Normal(last) && 0 <= ms < 1000
    ensures Timeout(NextFrame(last, ms), last) == Timespec(0, ms * 1_000_000)
  {
    var wait := ms * 1_000_000;
    if last.nsec + wait < NsecPerSec {
      assert NextFrame(last, ms) == Timespec(last.sec, last.nsec + wait);
    } else {
      // the carry into the seconds is undone by the borrow
      assert NextFrame(last, ms) == Timespec(last.sec + 1, last.nsec + wait - NsecPerSec);
    }
  }

  /** A deadline already passed gives a zero timeout: the tick happens at once. */
  lemma MissedFrame(next: Timespec, now: Timespec)
    requires Normal(next) && Normal(now) && Nanos(next) <= Nanos(now)
    ensures Timeout(next, now) == Timespec(0, 0)
  {
  }
}
