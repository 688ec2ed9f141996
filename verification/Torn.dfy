/** A world in which the handler answers at once and yet a single slow copy goes wrong. */
module Torn {
  import opened Config
  import opened Engine
  import opened Memory
  import opened Punctuality
  import opened RxSchedule
  import opened RxRing

  // The driver waits for the first buffer, tests it twice, and is then held up for as
  // long as the engine takes for a whole ring.
  function Dawdle(k: nat): nat { if k == 0 then LAP else if k == 3 then BUFFER_COUNT * LAP else 0 }

  const SLOW: World := World(Punctual, Dawdle)

  lemma {:induction false} SlowClock(n: nat)
    ensures Clock(SLOW, 0) == 0 && Clock(SLOW, 1) == Clock(SLOW, 2) == Clock(SLOW, 3) == LAP
    ensures Clock(SLOW, 4 + n) == (BUFFER_COUNT + 1) * LAP
  {
    ClockNext(SLOW, 0);
    ClockNext(SLOW, 1);
    ClockNext(SLOW, 2);
    ClockNext(SLOW, 3);
    if n > 0 {
      SlowClock(n - 1);
      ClockNext(SLOW, 3 + n);
    }
  }

  lemma SlowSeen(n: nat)
    ensures Seen(SLOW, 1) == Seen(SLOW, 2) == Seen(SLOW, 3) == Dma(1, 0, 1, 1, 0)
    ensures Seen(SLOW, 4 + n) == Dma(BUFFER_COUNT + 1, 0, BUFFER_COUNT + 1, BUFFER_COUNT + 1, 0)
  {
    hide Clock, Run;
    SlowClock(n);
    PunctualRun(1, 0);
    PunctualRun(BUFFER_COUNT + 1, 0);
  }

  // A first buffer of zeros, all others of ones.
  function Marked(o: nat): byte { if o < BUFFER_SIZE then 0 else 1 }

  // Byte by byte, the copy of buffer 0 is that of buffer 256.
  lemma SlowCopy(j: nat)
    requires j < BUFFER_SIZE
    ensures Copied(SLOW, Marked, 0, 3, j) == 1
  {
    hide Seen;
    SlowSeen(j);
    assert Occupant(Offset(BUFFER_COUNT + 1, 0), 0, j) == BUFFER_COUNT;
  }

  lemma SlowReading()
    ensures !Refused(SLOW, 0, 0, false, 0)
    ensures Reading(SLOW, 0, 0, 1, false, 0) == Haul(1, 3 + BUFFER_SIZE, {}, map[0 := 3])
  {
    hide Seen;
    SlowSeen(0);
    var start := Haul(0, 1, {}, map[]);
    assert Turn(SLOW, start) == Haul(1, 3 + BUFFER_SIZE, {}, map[0 := 3]);
  }

  /** The handler is never late, the first buffer is one behind when the margin is
      tested, nothing is reported lost, and every single byte returned is wrong. */
  method TornRead() returns (ret: int, overflows: nat, data: array<byte>)
    ensures HandledWithin(SLOW.events, 0)
    ensures ret == data.Length == BUFFER_SIZE && overflows == 0
    ensures forall j: nat | j < BUFFER_SIZE :: data[j] != Marked(j)
  {
    hide Seen, Reading, Refused, HandledWithin, Copied, Intact;
    PunctualIsWithin();
    SlowReading();
    var chan := new RxChannel(SLOW, Marked);
    data := new byte[BUFFER_SIZE](_ => 0);
    ghost var before := data[..];
    ret, overflows := chan.Read(data, BUFFER_SIZE, false, 0);
    assert DeliveredOne(before, data[..], SLOW, Marked, 0, 0, map[0 := 3]);
    forall j: nat | j < BUFFER_SIZE
      ensures data[j] != Marked(j)
    {
      SlowCopy(j);
      assert data[..][0 + j] == Copied(SLOW, Marked, 0, 3, j);
    }
  }
}
