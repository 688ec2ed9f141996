/** Clients that keep up for good: each does its work at once and then sleeps, in poll() or
    in the driver, until three more buffers are there. The engine never stops. */
module Clients {
  import Bits
  import opened Config
  import opened Engine
  import opened Memory
  import opened Punctuality
  import Play
  import Record
  import RxPort
  import RxSchedule
  import Transmit
  import TxPort
  import TxSchedule

  const NAP: nat := 3 * LAP

  // Naps before the accesses start + 1, start + 1 + period, .., and if asked for one
  // before the access before all these.
  function Naps(start: nat, period: nat, twice: bool): nat -> nat
    requires period > 0
  {
    (k: nat) => if (k >= start && (k - start) % period == 0) || (twice && k + 1 == start) then NAP else 0
  }

  function Sleepy(start: nat, period: nat, twice: bool): World
    requires period > 0
  {
    World(Punctual, Naps(start, period, twice))
  }

  lemma {:induction false} BeforeNaps(start: nat, period: nat, twice: bool, k: nat)
    requires period > 0 && k <= start
    ensures Clock(Sleepy(start, period, twice), k) == if twice && k == start > 0 then NAP else 0
  {
    var w := Sleepy(start, period, twice);
    if k > 0 {
      BeforeNaps(start, period, twice, k - 1);
      ClockNext(w, k - 1);
    } else {
      ClockNext(w, 0);
    }
  }

  // r accesses after the q-th nap.
  lemma {:induction false} AfterNap(start: nat, period: nat, twice: bool, q: nat, r: nat)
    requires 0 < r <= period && (twice ==> start > 0)
    ensures Clock(Sleepy(start, period, twice), start + q * period + r) == (q + 1 + if twice then 1 else 0) * NAP
    decreases q, r
  {
    hide Clock;
    var w, k := Sleepy(start, period, twice), start + q * period + r - 1;
    ClockNext(w, k);
    NapAt(start, period, q, r - 1);
    if r > 1 {
      AfterNap(start, period, twice, q, r - 1);
    } else if q > 0 {
      assert (q - 1) * period + period == q * period;
      AfterNap(start, period, twice, q - 1, period);
    } else {
      BeforeNaps(start, period, twice, start);
    }
  }

  lemma NapAt(start: nat, period: nat, q: nat, r: nat)
    requires r < period
    ensures (start + q * period + r - start) % period == r
  {
    Bits.DivModUnique(q * period + r, period, q, r);
  }

  function Whole(n: nat): Dma { Dma(3 * n, 0, 3 * n, 3 * n, 0) }

  lemma AtNap(n: nat)
    ensures Run(Punctual, n * NAP) == Whole(n)
  {
    hide Run;
    PunctualRun(3 * n, 0);
    assert n * NAP == (3 * n) * LAP;
  }

  lemma SeenAfter(start: nat, period: nat, twice: bool, q: nat, k: nat)
    requires start + q * period < k <= start + q * period + period && (twice ==> start > 0)
    ensures Seen(Sleepy(start, period, twice), k) == Whole(q + 1 + if twice then 1 else 0)
  {
    hide Run, Clock;
    AfterNap(start, period, twice, q, k - (start + q * period));
    AtNap(q + 1 + if twice then 1 else 0);
  }

  lemma SeenFirst(start: nat, period: nat, twice: bool, k: nat)
    requires period > 0 && k <= start
    ensures Seen(Sleepy(start, period, twice), k) == Whole(if twice && k == start > 0 then 1 else 0)
  {
    hide Run, Clock;
    BeforeNaps(start, period, twice, k);
    AtNap(0);
    AtNap(1);
  }

  /* A recorder over the mapped ring */

  const MAPPED_TURN: nat := 2 + 3 * BUFFER_SIZE

  const MAPPED: World := Sleepy(1, MAPPED_TURN, true)

  // What turn t finds, from access k on.
  lemma MappedSeen(t: nat, k: nat)
    requires k == t * MAPPED_TURN
    ensures Seen(MAPPED, k + 1) == Whole(t + 1)
    ensures Seen(MAPPED, k + 2) == Seen(MAPPED, k + MAPPED_TURN) == Whole(t + 2)
  {
    hide Seen;
    if t == 0 {
      SeenFirst(1, MAPPED_TURN, true, 1);
    } else {
      assert (t - 1) * MAPPED_TURN + MAPPED_TURN == k;
      SeenAfter(1, MAPPED_TURN, true, t - 1, k + 1);
    }
    SeenAfter(1, MAPPED_TURN, true, t, k + 2);
    SeenAfter(1, MAPPED_TURN, true, t, k + MAPPED_TURN);
  }

  // Three whole buffers are taken in every turn.
  lemma {:induction false} MappedRun(size: nat, t: nat)
    requires size >= Offset(3 * t, 0)
    ensures var f := Record.RecordRun(MAPPED, true, size, t);
            f.next == 3 * t && f.at == t * MAPPED_TURN && f.available == 0
  {
    hide Seen, Record.RecordRun;
    if t == 0 {
      Record.RecordRunNext(MAPPED, true, size, 0);
    } else {
      MappedRun(size, t - 1);
      MappedSeen(t - 1, (t - 1) * MAPPED_TURN);
      Record.RecordRunNext(MAPPED, true, size, t - 1);
      var f := Record.RecordRun(MAPPED, true, size, t - 1);
      var p := RxPort.Poll(MAPPED, f, true, false);
      DrainThree(p, size);
      assert (t - 1) * MAPPED_TURN + MAPPED_TURN == t * MAPPED_TURN;
    }
  }

  lemma DrainThree(f: RxPort.Feed, size: nat)
    requires f.available == 3 && Offset(f.next + 3, 0) <= size
    ensures var g := Record.Drained(f, true, size);
            g.next == f.next + 3 && g.at == f.at + 3 * BUFFER_SIZE && g.available == 0
  {
    hide Record.Drained;
    var g := Record.StoreOne(f, true, size);
    var h := Record.StoreOne(g, true, size);
    Record.DrainedNext(f, true, size);
    Record.DrainedNext(g, true, size);
    Record.DrainedNext(h, true, size);
    Record.DrainedNext(Record.StoreOne(h, true, size), true, size);
  }

  lemma MappedKeepsUp(size: nat, turns: nat)
    requires size >= Offset(3 * turns, 0)
    ensures Record.KeepsUp(MAPPED, true, size, turns, 0, 6)
    ensures Record.RecordRun(MAPPED, true, size, turns).next == 3 * turns
  {
    hide Seen, Record.RecordRun, HandledWithin;
    PunctualIsWithin();
    MappedRun(size, turns);
    if turns > 0 {
      MappedRun(size, 1);
      MappedSeen(0, 0);
    }
    forall t: nat | t + 1 < turns
      ensures Record.MappedLap(MAPPED, size, t) <= 6
    {
      MappedRun(size, t);
      MappedRun(size, t + 2);
      MappedSeen(t, t * MAPPED_TURN);
      MappedSeen(t + 1, (t + 1) * MAPPED_TURN);
    }
  }

  /* A recorder in copy mode */

  const COPY_TURN: nat := 4 + 3 * (2 + BUFFER_SIZE)

  const COPYING: World := Sleepy(1, COPY_TURN, false)

  // What turn t finds at its last access but for poll, and what the turn before found.
  lemma CopyingSeen(t: nat, k: nat)
    requires t * COPY_TURN + 2 <= k <= t * COPY_TURN + COPY_TURN
    ensures Seen(COPYING, k) == Whole(t + 1) && Seen(COPYING, t * COPY_TURN) == Whole(t)
  {
    hide Seen;
    if t == 0 {
      SeenFirst(1, COPY_TURN, false, 0);
    } else {
      assert (t - 1) * COPY_TURN + COPY_TURN == t * COPY_TURN;
      SeenAfter(1, COPY_TURN, false, t - 1, t * COPY_TURN);
    }
    SeenAfter(1, COPY_TURN, false, t, k);
  }

  // A turn of a read in which access h.at + 1 and the next find the three buffers.
  lemma ReadOne(h: RxSchedule.Haul, t: nat, n: nat)
    requires n > 0 && t * COPY_TURN + 3 <= h.at <= t * COPY_TURN + COPY_TURN - 2
    requires 3 * t <= h.next < 3 * t + 3
    ensures var g := RxSchedule.Turn(COPYING, h);
            && g.next == h.next + 1 && g.at == h.at + 2 + BUFFER_SIZE
            && RxSchedule.Turns(COPYING, h, n) == RxSchedule.Turns(COPYING, g, n - 1)
  {
    hide Seen, RxSchedule.Turns;
    CopyingSeen(t, h.at + 1);
    CopyingSeen(t, h.at + 2);
    RxSchedule.TurnsNext(COPYING, h, n);
  }

  // A read that finds three buffers copies them and then finds none.
  lemma ReadThree(h: RxSchedule.Haul, t: nat)
    requires h.at == t * COPY_TURN + 3 && h.next == 3 * t
    ensures var r := RxSchedule.Turns(COPYING, h, BUFFER_COUNT);
            r.next == 3 * t + 3 && r.at == t * COPY_TURN + COPY_TURN
  {
    hide Seen, RxSchedule.Turns, RxSchedule.Turn;
    var g := RxSchedule.Turn(COPYING, h);
    var f := RxSchedule.Turn(COPYING, g);
    ReadOne(h, t, BUFFER_COUNT);
    ReadOne(g, t, BUFFER_COUNT - 1);
    ReadOne(f, t, BUFFER_COUNT - 2);
    CopyingSeen(t, t * COPY_TURN + COPY_TURN);
    RxSchedule.TurnsNext(COPYING, RxSchedule.Turn(COPYING, f), BUFFER_COUNT - 3);
  }

  lemma {:induction false} CopyingRun(size: nat, t: nat)
    requires size >= Offset(3 * t, 0)
    ensures var f := Record.RecordRun(COPYING, false, size, t);
            f.next == 3 * t && f.at == t * COPY_TURN && f.available == 0
  {
    hide Seen, Record.RecordRun, RxSchedule.Turns;
    if t == 0 {
      Record.RecordRunNext(COPYING, false, size, 0);
    } else {
      var k := (t - 1) * COPY_TURN;
      CopyingRun(size, t - 1);
      CopyingSeen(t - 1, k + 2);
      Record.RecordRunNext(COPYING, false, size, t - 1);
      var f := Record.RecordRun(COPYING, false, size, t - 1);
      ReadThree(RxSchedule.Haul(f.next, f.at + 3, {}, map[]), t - 1);
      assert k + COPY_TURN == t * COPY_TURN;
      Record.CopyDrain(RxPort.Poll(COPYING, f, false, false), size);
    }
  }

  lemma CopyingKeepsUp(size: nat, turns: nat)
    requires size >= Offset(3 * turns, 0)
    ensures Record.KeepsUp(COPYING, false, size, turns, 0, 3)
    ensures Record.RecordRun(COPYING, false, size, turns).next == 3 * turns
  {
    hide Seen, Record.RecordRun, HandledWithin;
    PunctualIsWithin();
    CopyingRun(size, turns);
    forall t: nat | t < turns
      ensures Record.CopyLap(COPYING, size, t) <= 3
    {
      CopyingRun(size, t);
      CopyingRun(size, t + 1);
      CopyingSeen(t, t * COPY_TURN + COPY_TURN);
      assert t * COPY_TURN + COPY_TURN == (t + 1) * COPY_TURN;
    }
  }

  /* A writer that offers whole rings */

  // Accesses of the call that finds the window empty, and of one that finds three free.
  const FIRST_CALL: nat := 2 + MARGIN * (2 + BUFFER_SIZE)

  const NEXT_CALL: nat := 2 + 3 * (2 + BUFFER_SIZE)

  const WRITING: World := Sleepy(FIRST_CALL, NEXT_CALL, false)

  // With an unchanging count the window fills up.
  lemma {:induction false} FillsUp(w: World, l: TxSchedule.Load, n: nat, m: nat, hw: nat)
    requires m < n && l.next + m == hw + MARGIN && hw <= l.next
    requires forall k: nat | l.at < k <= l.at + m * (2 + BUFFER_SIZE) + 1 :: Seen(w, k).hw == hw
    ensures var r := TxSchedule.Turns(w, l, n); r.next == l.next + m && r.at == l.at + m * (2 + BUFFER_SIZE) + 1
    decreases m
  {
    hide Seen, TxSchedule.Turns;
    TxSchedule.TurnsNext(w, l, n);
    if m > 0 {
      assert m * (2 + BUFFER_SIZE) == (m - 1) * (2 + BUFFER_SIZE) + (2 + BUFFER_SIZE);
      assert Seen(w, l.at + 1).hw == Seen(w, l.at + 2).hw == hw;
      FillsUp(w, TxSchedule.Turn(w, l), n - 1, m - 1, hw);
    }
  }

  function Rings(calls: nat, patience: nat): Transmit.Session {
    Transmit.Session(WRITING, seq(calls, _ => seq(RING_BYTES, _ => 0)), false, patience)
  }

  // Where call i + 1 begins.
  function CallAt(i: nat): nat { FIRST_CALL + i * NEXT_CALL }

  lemma WritingSeen(i: nat, k: nat)
    requires CallAt(i) <= k <= CallAt(i) + NEXT_CALL
    ensures Seen(WRITING, k) == Whole(if k == CallAt(i) then i else i + 1)
  {
    hide Seen;
    if k > CallAt(i) {
      SeenAfter(FIRST_CALL, NEXT_CALL, false, i, k);
    } else if i > 0 {
      assert (i - 1) * NEXT_CALL + NEXT_CALL == i * NEXT_CALL;
      SeenAfter(FIRST_CALL, NEXT_CALL, false, i - 1, k);
    } else {
      SeenFirst(FIRST_CALL, NEXT_CALL, false, k);
    }
  }

  // A call of its own.
  lemma CallFills(i: nat, patience: nat)
    ensures var r := TxSchedule.Writing(WRITING, TxSchedule.Load(MARGIN + 3 * i, CallAt(i), {}, map[]),
                                        BUFFER_COUNT, false, patience);
            r.next == MARGIN + 3 * (i + 1) && r.at == CallAt(i + 1)
    ensures TxSchedule.WaitEnd(WRITING, CallAt(i), MARGIN + 3 * i, patience) == CallAt(i) + 1
  {
    hide Seen, TxSchedule.Turns;
    var at := CallAt(i);
    WritingSeen(i, at + 1);
    forall k: nat | at < k <= at + NEXT_CALL
      ensures Seen(WRITING, k).hw == 3 * (i + 1)
    {
      WritingSeen(i, k);
    }
    FillsUp(WRITING, TxSchedule.Load(MARGIN + 3 * i, at + 1, {}, map[]), BUFFER_COUNT, 3, 3 * (i + 1));
    assert i * NEXT_CALL + NEXT_CALL == (i + 1) * NEXT_CALL;
  }

  lemma FirstCallFills(patience: nat)
    ensures var r := TxSchedule.Writing(WRITING, TxSchedule.Load(0, 0, {}, map[]), BUFFER_COUNT, false, patience);
            r.next == MARGIN && r.at == CallAt(0)
  {
    hide Seen, TxSchedule.Turns;
    TxSchedule.WaitAtStart(WRITING, 0, patience);
    forall k: nat | k <= FIRST_CALL
      ensures Seen(WRITING, k).hw == 0
    {
      SeenFirst(FIRST_CALL, NEXT_CALL, false, k);
    }
    FillsUp(WRITING, TxSchedule.Load(0, 1, {}, map[]), BUFFER_COUNT, MARGIN, 0);
  }

  lemma {:induction false} WritingRun(calls: nat, patience: nat, n: nat)
    requires 0 < n <= calls
    ensures var l := Transmit.SessionRun(Rings(calls, patience), n);
            l.next == MARGIN + 3 * (n - 1) && l.at == CallAt(n - 1)
  {
    hide Seen, Transmit.SessionRun, TxSchedule.Writing;
    var s := Rings(calls, patience);
    Transmit.SessionNext(s, n - 1);
    assert |s.offers[n - 1]| / BUFFER_SIZE == BUFFER_COUNT;
    if n == 1 {
      Transmit.SessionNext(s, 0);
      FirstCallFills(patience);
    } else {
      WritingRun(calls, patience, n - 1);
      CallFills(n - 2, patience);
    }
  }

  lemma WriterStaysAhead(calls: nat, patience: nat)
    ensures Transmit.StaysAhead(Rings(calls, patience), 0, 3)
    ensures calls > 0 ==> Transmit.SessionRun(Rings(calls, patience), calls).next == MARGIN + 3 * (calls - 1)
  {
    hide Seen, Transmit.SessionRun, TxSchedule.Writing, TxSchedule.WaitEnd, HandledWithin, Transmit.QuickCall;
    var s := Rings(calls, patience);
    PunctualIsWithin();
    if calls > 0 {
      WritingRun(calls, patience, calls);
    }
    forall i: nat | i < |s.offers|
      ensures Transmit.QuickCall(s, i, 3)
    {
      CallIsQuick(calls, patience, i);
    }
  }

  lemma CallIsQuick(calls: nat, patience: nat, i: nat)
    requires i < calls
    ensures Transmit.QuickCall(Rings(calls, patience), i, 3)
  {
    hide Seen, Transmit.SessionRun, TxSchedule.Writing, TxSchedule.WaitEnd, TxSchedule.Refused;
    var s := Rings(calls, patience);
    assert |s.offers[i]| / BUFFER_SIZE == BUFFER_COUNT;
    Transmit.SessionNext(s, 0);
    if i == 0 {
      FirstCallFills(patience);
      TxSchedule.WaitAtStart(WRITING, 0, patience);
      WritingSeen(0, CallAt(0));
      SeenFirst(FIRST_CALL, NEXT_CALL, false, 0);
    } else {
      WritingRun(calls, patience, i);
      CallFills(i - 1, patience);
      WritingSeen(i - 1, CallAt(i - 1));
      WritingSeen(i, CallAt(i));
    }
  }

  /* A player of a file of a buffer or more */

  const FIRST_TURN: nat := 2 + MARGIN * BUFFER_SIZE

  const NEXT_TURN: nat := 2 + 3 * BUFFER_SIZE

  const PLAYING: World := Sleepy(FIRST_TURN + 1, NEXT_TURN, true)

  // Where turn i + 1 begins.
  function TurnAt(i: nat): nat { FIRST_TURN + i * NEXT_TURN }

  lemma PlayingSeen(i: nat)
    ensures var k := TurnAt(i);
            && Seen(PLAYING, k + 1) == Whole(i + 1)
            && Seen(PLAYING, k + 2) == Seen(PLAYING, k + NEXT_TURN) == Whole(i + 2)
  {
    hide Seen;
    var k := TurnAt(i);
    if i == 0 {
      SeenFirst(FIRST_TURN + 1, NEXT_TURN, true, k + 1);
    } else {
      assert (i - 1) * NEXT_TURN + NEXT_TURN == i * NEXT_TURN;
      SeenAfter(FIRST_TURN + 1, NEXT_TURN, true, i - 1, k + 1);
    }
    SeenAfter(FIRST_TURN + 1, NEXT_TURN, true, i, k + 2);
    SeenAfter(FIRST_TURN + 1, NEXT_TURN, true, i, k + NEXT_TURN);
  }

  lemma {:induction false} FillsWhole(g: TxPort.Window, size: nat)
    requires size >= BUFFER_SIZE
    ensures var r := Play.FilledAll(g, size);
            && r.next == g.next + g.available && r.at == g.at + g.available * BUFFER_SIZE && r.available == 0
    decreases g.available
  {
    hide Play.FilledAll, Play.PosAt, Play.RefillOf;
    Play.FilledAllNext(g, size);
    if g.available > 0 {
      Play.FillOneIs(g, size);
      Play.PassesAndRest(size, g.next);
      assert Play.Full(size, g.next);
      FillsWhole(Play.FillOne(g, size), size);
    }
  }

  lemma {:induction false} AtMostOneRewindEach(size: nat, k: nat)
    ensures Play.RewindsAt(size, k) <= k
  {
    hide Play.PosAt, Play.RefillOf;
    if k > 0 {
      AtMostOneRewindEach(size, k - 1);
    }
  }

  lemma {:induction false} PlayingRun(size: nat, loops: nat, t: nat)
    requires size >= BUFFER_SIZE && loops > MARGIN + 3 * t
    ensures var g := Play.PlayRun(PLAYING, size, loops, t);
            && g.available == 0
            && (if t == 0 then g == TxPort.EMPTY else g.next == MARGIN + 3 * (t - 1) && g.at == TurnAt(t - 1))
  {
    hide Seen, Play.PlayRun, Play.RewindsAt, Play.FilledAll;
    if t == 0 {
      Play.PlayRunNext(PLAYING, size, loops, 0);
    } else {
      PlayingRun(size, loops, t - 1);
      Play.PlayRunNext(PLAYING, size, loops, t - 1);
      var g := Play.PlayRun(PLAYING, size, loops, t - 1);
      AtMostOneRewindEach(size, g.next);
      FillsWhole(TxPort.Poll(PLAYING, g, false), size);
      if t == 1 {
        SeenFirst(FIRST_TURN + 1, NEXT_TURN, true, 1);
        SeenFirst(FIRST_TURN + 1, NEXT_TURN, true, 2);
      } else {
        PlayingSeen(t - 2);
        assert (t - 2) * NEXT_TURN + NEXT_TURN == (t - 1) * NEXT_TURN;
      }
    }
  }

  lemma PlayerStaysAhead(size: nat, loops: nat, turns: nat)
    requires size >= BUFFER_SIZE && loops > MARGIN + 3 * turns
    ensures Play.StaysAhead(PLAYING, size, loops, turns, 0, 6)
    ensures turns > 0 ==> Play.PlayRun(PLAYING, size, loops, turns).next == MARGIN + 3 * (turns - 1)
  {
    hide Seen, Play.PlayRun, HandledWithin;
    PunctualIsWithin();
    PlayingRun(size, loops, turns);
    if turns > 0 {
      PlayingRun(size, loops, 1);
      SeenFirst(FIRST_TURN + 1, NEXT_TURN, true, FIRST_TURN);
    }
    forall t: nat | t + 1 < turns
      ensures Play.PlayLap(PLAYING, size, loops, t) <= 6
    {
      PlayingRun(size, loops, t);
      PlayingRun(size, loops, t + 2);
      PlayingSeen(t);
      assert t * NEXT_TURN + NEXT_TURN == (t + 1) * NEXT_TURN;
      if t == 0 {
        SeenFirst(FIRST_TURN + 1, NEXT_TURN, true, 1);
      } else {
        PlayingSeen(t - 1);
      }
    }
  }
}
