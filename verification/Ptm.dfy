/** The PTM dialog between driver and requester core, and the timestamp estimate the
    driver makes from it: the mechanism of section 6.22 (Precision Time Measurement)
    of the PCI Express Base Specification Revision 4.0.

    Dialog n has four instants: request sent (t1, local clock), request received (t2,
    master clock), response sent (t3, master) and response received (t4, local). The
    response of dialog n carries t2 of dialog n and t3 - t2 of dialog n - 1. */
module Ptm {
  import opened Bits

  const WORD: nat := 0x1_0000_0000
  const LONG: nat := 0x1_0000_0000_0000_0000

  type u32 = x: int | 0 <= x < WORD
  type u64 = x: int | 0 <= x < LONG

  const ETIMEDOUT: int := 110
  const TRIES: nat := 100

  // Instants are unbounded; registers keep their low 64 bits. `busy` is how many
  // status reads the dialog answers with the busy bit set.
  datatype Dialog = Dialog(t1: int, t2: int, t3: int, t4: int, busy: nat)

  function Long(t: int): u64 { t % LONG }

  function Sub(a: u64, b: u64): u64 { (a - b) % LONG }

  // (u64)h << 32 | l
  function Join(h: u32, l: u32): nat { Or(h * WORD, l) }

  function High(x: u64): u32 { x / WORD }
  function Low(x: u64): u32 { x % WORD }

  lemma JoinIs(h: u32, l: u32)
    ensures Join(h, l) == h * WORD + l < LONG
  {
    hide Or, Pow2;
    Pow2Values();
    OrDisjoint(h, l, 32);
  }

  // The driver's estimate of the master time at t1 of the current dialog.
  function Estimate(t2: u64, t1Prev: u64, t4Prev: u64, delay: u32): u64 {
    Sub(t2, Sub(Sub(t4Prev, t1Prev), delay) / 2)
  }

  /** The requester core. Entry 0 of the dialogs is what the registers show before
      the first dialog. */
  class Requester {
    const dialogs: nat -> Dialog
    var started: nat
    var left: nat

    constructor (dialogs: nat -> Dialog)
      ensures started == 0 && left == 0 && this.dialogs == dialogs
    {
      this.dialogs, started, left := dialogs, 0, 0;
    }

    // Enable and trigger. A dialog still running is over before the next begins.
    method Trigger()
      modifies this
      ensures started == old(started) + 1 && left == dialogs(started).busy
    {
      started := started + 1;
      left := dialogs(started).busy;
    }

    method ReadBusy() returns (busy: bool)
      modifies this`left
      ensures busy <==> old(left) > 0
      ensures left == if busy then old(left) - 1 else 0
    {
      busy := left > 0;
      if busy {
        left := left - 1;
      }
    }

    // The dialog whose results the registers show.
    function Shown(): nat
      reads this
    {
      if left == 0 || started == 0 then started else started - 1
    }

    function T1(): u64 reads this { Long(dialogs(Shown()).t1) }
    function T4(): u64 reads this { Long(dialogs(Shown()).t4) }
    function MasterTime(): u64 reads this { Long(dialogs(Shown()).t2) }

    function LinkDelay(): u32
      reads this
    {
      if Shown() == 0 then 0 else var d := dialogs(Shown() - 1); (d.t3 - d.t2) % WORD
    }
  }

  // What the driver is to report for dialog n from the registers and its two saved values.
  function Reported(dialogs: nat -> Dialog, n: nat, t1Prev: u64, t4Prev: u64): u64
    requires n > 0
  {
    var d := dialogs(n - 1);
    Estimate(Long(dialogs(n).t2), t1Prev, t4Prev, (d.t3 - d.t2) % WORD)
  }

  // The dialog the registers show when the driver stops polling dialog n: the 100th
  // status read still finds it busy, and yet it may be done by then.
  function Latest(dialogs: nat -> Dialog, n: nat): nat
    requires n > 0
  {
    if dialogs(n).busy <= 100 then n else n - 1
  }

  datatype Stamp = Failed | Stamp(device: u64, master: u64)

  class Driver {
    const dev: Requester
    var t1Prev: u64
    var t4Prev: u64

    // The driver holds both instants of dialog n.
    predicate Holds(n: nat)
      reads this
    {
      t1Prev == Long(dev.dialogs(n).t1) && t4Prev == Long(dev.dialogs(n).t4)
    }

    // Trigger a dialog and poll up to 100 times.
    method Exchange() returns (ok: bool)
      modifies dev
      ensures dev.started == old(dev.started) + 1
      ensures ok <==> dev.dialogs(dev.started).busy < 100
      ensures dev.Shown() == Latest(dev.dialogs, dev.started)
    {
      dev.Trigger();
      var count := TRIES;
      ghost var busy := dev.left;
      while true
        invariant 0 < count <= TRIES && dev.started == old(dev.started) + 1
        invariant dev.left + (TRIES - count) == busy
        decreases count
      {
        var isBusy := dev.ReadBusy();
        if !isBusy {
          break;
        }
        count := count - 1;
        if count == 0 {
          return false;
        }
      }
      ok := true;
    }

    // The end of litepcie_pci_probe. T1 is put together the wrong way round, and nobody
    // asks whether a dialog took place.
    constructor (dev: Requester)
      requires dev.started == 0
      modifies dev
      ensures this.dev == dev && dev.started == 2
      ensures var d := dev.dialogs(Latest(dev.dialogs, 2));
              t4Prev == Long(d.t4) && t1Prev == Swapped(Long(d.t1))
    {
      this.dev, t1Prev, t4Prev := dev, 0, 0;
      new;
      var first := Exchange();
      var second := Exchange();
      JoinIs(High(dev.T4()), Low(dev.T4()));
      JoinIs(Low(dev.T1()), High(dev.T1()));
      t4Prev := Join(High(dev.T4()), Low(dev.T4()));
      t1Prev := Join(Low(dev.T1()), High(dev.T1()));
    }

    /** litepcie_phc_get_syncdevicetime. */
    method GetSyncDeviceTime() returns (ret: int, stamp: Stamp)
      modifies this`t1Prev, this`t4Prev, dev
      ensures dev.started == old(dev.started) + 1
      ensures var n := dev.started;
              if dev.dialogs(n).busy < 100 then
                ret == 0 && Holds(n) &&
                stamp == Stamp(Long(dev.dialogs(n).t1), Reported(dev.dialogs, n, old(t1Prev), old(t4Prev)))
              else
                ret == -ETIMEDOUT && stamp == Failed && t1Prev == old(t1Prev) && t4Prev == old(t4Prev)
    {
      hide Join, Sub;
      var ok := Exchange();
      if !ok {
        return -ETIMEDOUT, Failed;
      }
      var t1L, t1H := Low(dev.T1()), High(dev.T1());
      JoinIs(t1H, t1L);
      var t1Curr := Join(t1H, t1L);
      var t2L, t2H := Low(dev.MasterTime()), High(dev.MasterTime());
      JoinIs(t2H, t2L);
      var t2Curr := Join(t2H, t2L);
      var propDelay := dev.LinkDelay();
      var master := Sub(t2Curr, Sub(Sub(t4Prev, t1Prev), propDelay) / 2);
      ret, stamp := 0, Stamp(t1Curr, master);
      JoinIs(High(dev.T4()), Low(dev.T4()));
      t4Prev := Join(High(dev.T4()), Low(dev.T4()));
      t1Prev := t1Curr;
    }

    /** Any number of calls. Every success pairs t2 of its own dialog and t3 - t2 of the
        one before with t1 and t4 of the last dialog that was answered in time. */
    method Serve(calls: nat) returns (stamps: seq<Stamp>)
      modifies this`t1Prev, this`t4Prev, dev
      ensures |stamps| == calls && dev.started == old(dev.started) + calls
      ensures var started, first := old(dev.started), old(Saved(t1Prev, t4Prev));
              forall i: nat | i < calls :: stamps[i] == Served(dev.dialogs, started, first, i)
      ensures Saved(t1Prev, t4Prev) == Kept(dev.dialogs, old(dev.started), old(Saved(t1Prev, t4Prev)), calls)
    {
      hide Reported;
      ghost var started, first := dev.started, Saved(t1Prev, t4Prev);
      stamps := [];
      for i := 0 to calls
        invariant |stamps| == i && dev.started == started + i
        invariant Saved(t1Prev, t4Prev) == Kept(dev.dialogs, started, first, i)
        invariant forall k: nat | k < i :: stamps[k] == Served(dev.dialogs, started, first, k)
      {
        var ret, stamp := GetSyncDeviceTime();
        stamps := stamps + [stamp];
      }
    }
  }

  // The driver's two saved instants.
  datatype Saved = Saved(t1: u64, t4: u64)

  function SavedOf(d: Dialog): Saved { Saved(Long(d.t1), Long(d.t4)) }

  predicate Answers(dialogs: nat -> Dialog, n: nat) { dialogs(n).busy < TRIES }

  // What is saved after n calls, when `started` dialogs were begun before.
  function Kept(dialogs: nat -> Dialog, started: nat, first: Saved, n: nat): Saved {
    if n == 0 then first
    else if Answers(dialogs, started + n) then SavedOf(dialogs(started + n))
    else Kept(dialogs, started, first, n - 1)
  }

  // What call i returns.
  function Served(dialogs: nat -> Dialog, started: nat, first: Saved, i: nat): Stamp {
    var n, kept := started + i + 1, Kept(dialogs, started, first, i);
    if Answers(dialogs, n) then Stamp(Long(dialogs(n).t1), Reported(dialogs, n, kept.t1, kept.t4)) else Failed
  }

  // The stamp of dialog n with t1, t4 and t3 - t2 all of dialog n - 1.
  function Proper(dialogs: nat -> Dialog, n: nat): Stamp
    requires n > 0
  {
    var d := dialogs(n - 1);
    Stamp(Long(dialogs(n).t1), Reported(dialogs, n, Long(d.t1), Long(d.t4)))
  }

  // The last of the first n calls' dialogs that was answered, if any was.
  function LastAnswered(dialogs: nat -> Dialog, started: nat, n: nat): (m: nat)
    ensures m == started || (started < m <= started + n && Answers(dialogs, m))
    ensures forall k | m < k <= started + n :: !Answers(dialogs, k)
  {
    if n == 0 then started
    else if Answers(dialogs, started + n) then started + n
    else LastAnswered(dialogs, started, n - 1)
  }

  // What is saved is always of that dialog; so a call that follows a successful one is
  // served properly.
  lemma {:induction false} KeptIsLast(dialogs: nat -> Dialog, started: nat, first: Saved, n: nat)
    ensures var m := LastAnswered(dialogs, started, n);
            Kept(dialogs, started, first, n) == if m == started then first else SavedOf(dialogs(m))
  {
    if n > 0 {
      KeptIsLast(dialogs, started, first, n - 1);
    }
  }

  lemma ServedProperly(dialogs: nat -> Dialog, started: nat, first: Saved, i: nat)
    requires Answers(dialogs, started + i + 1)
    requires if i > 0 then Answers(dialogs, started + i) else first == SavedOf(dialogs(started))
    ensures Served(dialogs, started, first, i) == Proper(dialogs, started + i + 1)
  {
    hide Reported;
  }

  // The first stamp after the probe, when both its dialogs are answered, is as it should
  // be iff the halves of the T1 saved by the probe are equal.
  method FirstStamp(dev: Requester) returns (stamp: Stamp)
    requires dev.started == 0
    modifies dev
    ensures stamp.Failed? <==> !Answers(dev.dialogs, 3)
    ensures Answers(dev.dialogs, 2) && Answers(dev.dialogs, 3) ==>
              var t1 := Long(dev.dialogs(2).t1);
              (stamp == Proper(dev.dialogs, 3) <==> High(t1) == Low(t1))
  {
    hide Estimate;
    var driver := new Driver(dev);
    var ret;
    ret, stamp := driver.GetSyncDeviceTime();
    var d := dev.dialogs(2);
    FirstEstimateRightIff(Long(dev.dialogs(3).t2), Long(d.t1), Long(d.t4), (d.t3 - d.t2) % WORD);
  }

  /* What the estimate is worth */

  // A dialog over a link with the given one-way delays, the master clock being
  // `offset` ahead of the local one, and an answer within 2^32 ns.
  predicate Physical(d: Dialog, offset: int, there: nat, back: nat) {
    && d.t2 == d.t1 + offset + there
    && d.t4 == d.t3 - offset + back
    && 0 <= d.t3 - d.t2 < WORD
  }

  // The wrapped arithmetic yields the textbook value, t2 less half the round trip
  // of the previous dialog.
  lemma EstimateIsTextbook(t2: int, d: Dialog)
    requires 0 <= d.t3 - d.t2 < WORD && 0 <= (d.t4 - d.t1) - (d.t3 - d.t2) < LONG
    ensures Estimate(Long(t2), Long(d.t1), Long(d.t4), (d.t3 - d.t2) % WORD) ==
            Long(t2 - ((d.t4 - d.t1) - (d.t3 - d.t2)) / 2)
  {
    hide Sub;
    var answer, roundTrip := d.t3 - d.t2, (d.t4 - d.t1) - (d.t3 - d.t2);
    SubWraps(d.t4, d.t1);
    SubWraps(d.t4 - d.t1, answer);
    SubWraps(t2, roundTrip / 2);
    assert answer % WORD == Long(answer) == answer;
    assert Long(roundTrip) == roundTrip && Long(roundTrip / 2) == roundTrip / 2;
  }

  lemma SubWraps(a: int, b: int)
    ensures Sub(Long(a), Long(b)) == Long(a - b)
  {
    var k := a / LONG - b / LONG;
    assert a - b == (Long(a) - Long(b)) + LONG * k;
    DivModUnique(a - b, LONG, (Long(a) - Long(b)) / LONG + k, Sub(Long(a), Long(b)));
  }

  /** The master time reported for t1 of dialog n is off by the difference of the way
      there in dialog n and the mean of both ways in dialog n - 1: no more than the
      spread of the one-way delays, and nothing on a constant symmetric link. */
  lemma ProperStampError(dialogs: nat -> Dialog, n: nat, offset: int, there: nat, therePrev: nat, backPrev: nat)
    returns (error: int)
    requires n > 0 && therePrev + backPrev < LONG
    requires dialogs(n).t2 == dialogs(n).t1 + offset + there
    requires Physical(dialogs(n - 1), offset, therePrev, backPrev)
    ensures Proper(dialogs, n) == Stamp(Long(dialogs(n).t1), Long(dialogs(n).t1 + offset + error))
    ensures error == there - (therePrev + backPrev) / 2
    ensures forall lo: nat, hi: nat {:trigger Between(lo, there, hi)} |
              Between(lo, there, hi) && Between(lo, therePrev, hi) && Between(lo, backPrev, hi) ::
              lo - hi <= error <= hi - lo
  {
    hide Estimate, Long;
    EstimateIsTextbook(dialogs(n).t2, dialogs(n - 1));
    error := there - (therePrev + backPrev) / 2;
  }

  predicate Between(lo: nat, x: nat, hi: nat) { lo <= x <= hi }

  // The register halves of a probe-time T1, exchanged.
  function Swapped(x: u64): u64 { Low(x) * WORD + High(x) }

  // The first estimate after the probe is right iff exchanging the halves of T1
  // changes nothing.
  lemma FirstEstimateRightIff(t2: u64, t1: u64, t4: u64, delay: u32)
    ensures Estimate(t2, Swapped(t1), t4, delay) == Estimate(t2, t1, t4, delay) <==> High(t1) == Low(t1)
  {
    hide Sub;
    var d: int := High(t1) - Low(t1);
    var x: int := Sub(Sub(t4, t1), delay);
    var y: int := Sub(Sub(t4, Swapped(t1)), delay);
    var k := EstimateStep(t4, t1, Swapped(t1), delay);
    assert t1 - Swapped(t1) == d * (WORD - 1);
    HalvesMeet(x, y, d, k);
    SubInjective(t2, x / 2, y / 2);
  }

  lemma HalvesMeet(x: int, y: int, d: int, k: int)
    requires 0 <= x < LONG && 0 <= y < LONG && d < WORD && d + WORD > 0
    requires y - x == d * (WORD - 1) + LONG * k
    ensures x / 2 == y / 2 <==> d == 0
  {
    if x / 2 == y / 2 {
      assert -1 <= y - x <= 1;
      assert k == 0;
    } else {
      assert y != x;
      assert d == 0 ==> k == 0;
    }
  }

  lemma EstimateStep(t4: u64, a: u64, b: u64, delay: u32) returns (k: int)
    ensures var x: int := Sub(Sub(t4, a), delay);
            var y: int := Sub(Sub(t4, b), delay);
            y - x == (a as int) - b + LONG * k
  {
    SubIs(t4, a);
    SubIs(t4, b);
    SubIs(Sub(t4, a), delay);
    SubIs(Sub(t4, b), delay);
    k := (if t4 >= b then 0 else 1) + (if Sub(t4, b) >= delay then 0 else 1)
         - (if t4 >= a then 0 else 1) - (if Sub(t4, a) >= delay then 0 else 1);
  }

  lemma SubIs(a: u64, b: u64)
    ensures Sub(a, b) == if a >= b then a - b else a - b + LONG
  {
  }

  lemma SubInjective(a: u64, b: u64, c: u64)
    ensures Sub(a, b) == Sub(a, c) <==> b == c
  {
    SubIs(a, b);
    SubIs(a, c);
  }

  /* After a timeout */

  // With the saved values of dialog m, not n - 1, the estimate is still right iff both
  // give the same halved round trip.
  lemma StaleRightIff(dialogs: nat -> Dialog, m: nat, n: nat)
    requires n > 0
    ensures Reported(dialogs, n, Long(dialogs(m).t1), Long(dialogs(m).t4)) == Proper(dialogs, n).master
            <==> HalfTrip(dialogs, m, n) == HalfTrip(dialogs, n - 1, n)
  {
    hide Sub;
    SubInjective(Long(dialogs(n).t2), HalfTrip(dialogs, m, n), HalfTrip(dialogs, n - 1, n));
  }

  // Half of what the driver takes for the round trip of dialog m at dialog n.
  function HalfTrip(dialogs: nat -> Dialog, m: nat, n: nat): u64
    requires n > 0
  {
    var d, e := dialogs(m), dialogs(n - 1);
    Sub(Sub(Long(d.t4), Long(d.t1)), (e.t3 - e.t2) % WORD) / 2
  }

  // How long the master took to answer.
  function Answer(d: Dialog): int { d.t3 - d.t2 }

  /** On a link of one constant delay the stale estimate is right iff the answer of the
      dialog saved took as long as that of the one before this, or 1 ns longer. */
  lemma StaleRightOnLink(dialogs: nat -> Dialog, m: nat, n: nat, offset: int, delay: nat)
    requires n > 0 && 2 * delay + WORD < LONG
    requires Physical(dialogs(m), offset, delay, delay) && Physical(dialogs(n - 1), offset, delay, delay)
    ensures Reported(dialogs, n, Long(dialogs(m).t1), Long(dialogs(m).t4)) == Proper(dialogs, n).master
            <==> 0 <= Answer(dialogs(m)) - Answer(dialogs(n - 1)) <= 1
  {
    hide Reported, Proper, Long, Sub;
    StaleRightIff(dialogs, m, n);
    HalfTripIs(dialogs, m, n, offset, delay);
    HalfTripIs(dialogs, n - 1, n, offset, delay);
  }

  lemma HalfTripIs(dialogs: nat -> Dialog, m: nat, n: nat, offset: int, delay: nat)
    requires n > 0 && 2 * delay + WORD < LONG
    requires Physical(dialogs(m), offset, delay, delay) && 0 <= Answer(dialogs(n - 1)) < WORD
    ensures var x := 2 * delay + Answer(dialogs(m)) - Answer(dialogs(n - 1));
            HalfTrip(dialogs, m, n) == (if x >= 0 then x else x + LONG) / 2
  {
    hide Sub;
    var d, e := dialogs(m), dialogs(n - 1);
    SubWraps(d.t4, d.t1);
    SubWraps(d.t4 - d.t1, Answer(e));
    assert Answer(e) % WORD == Long(Answer(e)) == Answer(e);
  }

  // For one, on a link with no delay at all the estimate after a timeout is wrong by half
  // the difference of the answer times.
  lemma TimeoutBreaksPairing() returns (dialogs: nat -> Dialog)
    ensures forall n: nat :: Physical(dialogs(n), 0, 0, 0)
    ensures Answers(dialogs, 1) && !Answers(dialogs, 2) && Answers(dialogs, 3)
    ensures Proper(dialogs, 3).master == Long(dialogs(3).t1)
    ensures Reported(dialogs, 3, Long(dialogs(1).t1), Long(dialogs(1).t4)) == Long(dialogs(3).t1 - 250)
  {
    dialogs := n =>
      var t, wait := 10_000 * n, if n == 1 then 1000 else 500;
      Dialog(t, t, t + wait, t + wait, if n == 2 then TRIES else 0);
  }
}
