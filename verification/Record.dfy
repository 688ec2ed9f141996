/** litepcie_record: the receive stream into a file, end to end through the library,
    the driver, the interrupt handler and the engine. */
module Record {
  import opened Config
  import opened Engine
  import opened Memory
  import opened RxSchedule
  import opened Margin
  import opened RxRing
  import opened RxPort

  /* The schedule of a recording */

  // How far a file of the wanted size is filled after n buffers.
  function Target(size: nat, n: nat): nat { Min(size, Offset(n, 0)) }

  // How much of buffer b goes into it.
  function Share(size: nat, b: nat): (n: nat)
    ensures n <= BUFFER_SIZE
  {
    Target(size, b + 1) - Target(size, b)
  }

  predicate Complete(size: nat, n: nat) { size > 0 && Offset(n, 0) >= size }

  // A recording is complete when the file has the wanted size, and each buffer has its
  // place in it.
  lemma CompleteIff(size: nat, n: nat)
    ensures Complete(size, n) <==> size > 0 && Target(size, n) >= size
    ensures Target(size, n) == Min(size, 8192 * n)
    ensures Share(size, n) == Max(0, Min(8192, size - 8192 * n))
  {
  }

  // One buffer is handed out and written to the file.
  function StoreOne(f: Feed, zeroCopy: bool, size: nat): Feed
    requires f.available > 0
  {
    var g := f.(next := f.next + 1, available := f.available - 1);
    if zeroCopy then Taken(g, Share(size, f.next)) else g
  }

  function Drained(f: Feed, zeroCopy: bool, size: nat): Feed
    decreases f.available
  {
    if f.available == 0 then f else Drained(StoreOne(f, zeroCopy, size), zeroCopy, size)
  }

  lemma DrainedNext(f: Feed, zeroCopy: bool, size: nat)
    ensures Drained(f, zeroCopy, size) ==
            if f.available == 0 then f else Drained(StoreOne(f, zeroCopy, size), zeroCopy, size)
  {
  }

  function RecordRun(w: World, zeroCopy: bool, size: nat, turns: nat): Feed {
    if turns == 0 then EMPTY
    else
      var f := RecordRun(w, zeroCopy, size, turns - 1);
      if Complete(size, f.next) then f else Drained(Poll(w, f, zeroCopy, false), zeroCopy, size)
  }

  lemma RecordRunNext(w: World, zeroCopy: bool, size: nat, turns: nat)
    ensures RecordRun(w, zeroCopy, size, 0) == EMPTY
    ensures var f := RecordRun(w, zeroCopy, size, turns);
            RecordRun(w, zeroCopy, size, turns + 1) ==
            if Complete(size, f.next) then f else Drained(Poll(w, f, zeroCopy, false), zeroCopy, size)
  {
    hide Poll, Drained;
  }

  // Once the wanted size is reached, nothing happens any more: no access, no buffer.
  lemma {:induction false} StaysComplete(w: World, zeroCopy: bool, size: nat, turns: nat, n: nat)
    requires size > 0 && 8192 * RecordRun(w, zeroCopy, size, turns).next >= size
    ensures RecordRun(w, zeroCopy, size, turns + n) == RecordRun(w, zeroCopy, size, turns)
  {
    hide RecordRun, Poll, Drained;
    if n > 0 {
      StaysComplete(w, zeroCopy, size, turns, n - 1);
      RecordRunNext(w, zeroCopy, size, turns + n - 1);
    }
  }

  /* What became of the buffers */

  // Of those dealt with each is lost or copied, and it was there when copied.
  ghost predicate Accounted(w: World, zeroCopy: bool, f: Feed) {
    && (forall b: nat | b < f.next + (if zeroCopy then 0 else f.available) :: b in f.lost || b in f.copies)
    && (forall b | b in f.copies :: b < f.next + f.available && b < Seen(w, f.copies[b]).hw)
    && (if zeroCopy then f.lost == {} else forall b | b in f.copies :: Admitted(w, b, f.copies[b]))
    && f.next + f.available <= Seen(w, f.at).hw
  }

  lemma PollAccounts(w: World, zeroCopy: bool, f: Feed)
    requires Accounted(w, zeroCopy, f) && f.available == 0
    ensures Accounted(w, zeroCopy, Poll(w, f, zeroCopy, false))
    ensures var g := Poll(w, f, zeroCopy, false);
            g.next == f.next && forall b | b < f.next && b in g.copies :: b in f.copies && f.copies[b] == g.copies[b]
  {
    hide Seen, Turns;
    SeenMonotone(w, f.at, f.at + 1);
    SeenMonotone(w, f.at + 1, f.at + 2);
    if !zeroCopy && Seen(w, f.at + 2).hw > f.next + 2 {
      ReadAccounts(w, f);
    }
  }

  lemma ReadAccounts(w: World, f: Feed)
    requires Accounted(w, false, f) && f.available == 0
    ensures var g := Fetched(w, f.(at := f.at + 2));
            && Accounted(w, false, g)
            && forall b | b < f.next && b in g.copies :: b in f.copies && f.copies[b] == g.copies[b]
  {
    hide Seen, Turns;
    BookNone(w, f.next, f.at + 3);
    TurnsBook(w, f.next, Haul(f.next, f.at + 3, {}, map[]), BUFFER_COUNT);
    SeenMonotone(w, f.at, Fetched(w, f.(at := f.at + 2)).at);
  }

  lemma {:induction false} DrainedAccounts(w: World, zeroCopy: bool, f: Feed, size: nat)
    requires Accounted(w, zeroCopy, f)
    ensures var g := Drained(f, zeroCopy, size);
            && Accounted(w, zeroCopy, g) && g.available == 0 && g.next == f.next + f.available
            && (!zeroCopy ==> g.copies == f.copies && g.at == f.at) && g.lost == f.lost && f.at <= g.at
    decreases f.available
  {
    hide Seen, Share;
    if f.available > 0 {
      if zeroCopy {
        SeenMonotone(w, f.at, f.at + Share(size, f.next));
      }
      DrainedAccounts(w, zeroCopy, StoreOne(f, zeroCopy, size), size);
    }
  }

  lemma {:induction false} RunAccounts(w: World, zeroCopy: bool, size: nat, turns: nat)
    ensures Accounted(w, zeroCopy, RecordRun(w, zeroCopy, size, turns))
    ensures RecordRun(w, zeroCopy, size, turns).available == 0
  {
    hide Poll, Drained, RecordRun, Accounted;
    if turns == 0 {
      RecordRunNext(w, zeroCopy, size, 0);
      NoneAccounted(w, zeroCopy);
    } else {
      var f := RecordRun(w, zeroCopy, size, turns - 1);
      RunAccounts(w, zeroCopy, size, turns - 1);
      RecordRunNext(w, zeroCopy, size, turns - 1);
      PollAccounts(w, zeroCopy, f);
      DrainedAccounts(w, zeroCopy, Poll(w, f, zeroCopy, false), size);
    }
  }

  lemma NoneAccounted(w: World, zeroCopy: bool)
    ensures Accounted(w, zeroCopy, EMPTY)
  {
  }

  /** Draining a mapped ring takes one access for each byte the file gets: buffer b is begun
      when the file has all before it. */
  lemma {:induction false} DrainedAt(f: Feed, size: nat)
    ensures var g, start := Drained(f, true, size), Min(size, 8192 * f.next);
            && g.next == f.next + f.available && g.at == f.at + Min(size, 8192 * g.next) - start
            && (forall b: nat | f.next <= b < g.next ::
                  b in g.copies && g.copies[b] == f.at + Min(size, 8192 * b) - start)
            && forall b | b < f.next :: b in g.copies <==> b in f.copies
    decreases f.available
  {
    hide Drained;
    DrainedNext(f, true, size);
    CompleteIff(size, f.next);
    if f.available > 0 {
      DrainedAt(StoreOne(f, true, size), size);
      DrainedKeeps(StoreOne(f, true, size), size);
    }
  }

  lemma {:induction false} DrainedKeeps(f: Feed, size: nat)
    ensures forall b | b < f.next && b in f.copies ::
              b in Drained(f, true, size).copies && Drained(f, true, size).copies[b] == f.copies[b]
    decreases f.available
  {
    hide Share, Drained;
    DrainedNext(f, true, size);
    if f.available > 0 {
      DrainedKeeps(StoreOne(f, true, size), size);
    }
  }

  /** What a turn of an incomplete recording takes, all of which goes into the file:
      nothing before poll() finds three buffers; then, over the mapped ring, all that was
      complete at the snapshot, and in copy mode what one read() consumes, which is a whole
      ring or all there is at its end. */
  lemma TurnTakes(w: World, zeroCopy: bool, size: nat, t: nat)
    requires size == 0 || 8192 * RecordRun(w, zeroCopy, size, t).next < size
    ensures var f, g := RecordRun(w, zeroCopy, size, t), RecordRun(w, zeroCopy, size, t + 1);
            if Seen(w, f.at + 2).hw < f.next + 3 then g == f.(at := f.at + 2)
            else if zeroCopy then
              0 <= Seen(w, f.at + 1).hw - f.next < 0x1_0000_0000 ==> g.next == Seen(w, f.at + 1).hw
            else
              var h := Reading(w, f.at + 2, f.next, 256, false, 0);
              && g.next == h.next && g.at == h.at && g.lost == f.lost + h.lost && g.copies == f.copies + h.copies
              && (g.next == f.next + 256 || Seen(w, g.at).hw <= g.next)
  {
    hide Seen, Poll, Drained, RecordRun, Reading, Accounted;
    var f := RecordRun(w, zeroCopy, size, t);
    RecordRunNext(w, zeroCopy, size, t);
    RunAccounts(w, zeroCopy, size, t);
    PollAccounts(w, zeroCopy, f);
    AccountedFits(w, zeroCopy, f);
    PollBrings(w, f, zeroCopy, false);
    DrainedAccounts(w, zeroCopy, Poll(w, f, zeroCopy, false), size);
    DrainedNext(f.(at := f.at + 2), zeroCopy, size);
  }

  lemma AccountedFits(w: World, zeroCopy: bool, f: Feed)
    requires Accounted(w, zeroCopy, f)
    ensures f.next + f.available <= Seen(w, f.at).hw
  {
    hide Seen;
  }

  /* When nothing is overtaken */

  // What the file needs of every copy came before the engine was back.
  ghost predicate Untorn(w: World, copies: map<nat, nat>, size: nat) {
    forall b | b in copies :: !Overtaken(w, b, copies[b], Share(size, b))
  }

  // In copy mode it is enough that the handler and each single copy are quick, whatever
  // goes on between the reads.
  lemma CopiesUntorn(w: World, size: nat, turns: nat, latency: nat, c: nat)
    requires HandledWithin(w.events, latency) && BUFFER_PER_IRQ + latency + c < MARGIN
    requires AllQuick(w, RecordRun(w, false, size, turns).copies, c)
    ensures Untorn(w, RecordRun(w, false, size, turns).copies, size)
  {
    hide RecordRun, HandledWithin, Quick, Seen, Share;
    var copies := RecordRun(w, false, size, turns).copies;
    RunAccounts(w, false, size, turns);
    forall b | b in copies
      ensures !Overtaken(w, b, copies[b], Share(size, b))
    {
      MarginIsEnough(w, b, copies[b], latency, c);
    }
  }

  /* When nothing is lost either */

  // What completes during turn t of a recorder in copy mode, and over the mapped ring
  // from the snapshot of turn t to the end of turn t + 1. Sleeping in poll() is part of it.
  function CopyLap(w: World, size: nat, t: nat): int {
    Seen(w, RecordRun(w, false, size, t + 1).at).done - Seen(w, RecordRun(w, false, size, t).at).done
  }

  function MappedLap(w: World, size: nat, t: nat): int {
    Seen(w, RecordRun(w, true, size, t + 2).at).done - Seen(w, RecordRun(w, true, size, t).at + 1).done
  }

  /** The recorder keeps up for so many turns: the handler is quick, and in copy mode no
      more than c buffers complete in any turn; over the mapped ring, where there is no
      margin but the ring itself, no more than c from the snapshot that makes the kernel's
      count move to the end of the following turn. As poll() reports data from three
      buffers on, up to two more may be waiting. */
  ghost predicate KeepsUp(w: World, zeroCopy: bool, size: nat, turns: nat, latency: nat, c: nat) {
    && HandledWithin(w.events, latency)
    && if zeroCopy then
         && BUFFER_PER_IRQ + latency + c + 2 < BUFFER_COUNT
         && (turns > 0 ==> Seen(w, RecordRun(w, true, size, 1).at).done <= c)
         && forall t: nat | t + 1 < turns :: MappedLap(w, size, t) <= c
       else
         && BUFFER_PER_IRQ + latency + c + 2 <= MARGIN
         && forall t: nat | t < turns :: CopyLap(w, size, t) <= c
  }

  // A read whose whole backlog stays within the margin loses nothing and ends with
  // nothing left.
  lemma {:induction false} TurnsCatchUp(w: World, h: Haul, n: nat, top: nat)
    requires Seen(w, Turns(w, h, n).at).hw <= top <= h.next + MARGIN && top < h.next + n
    ensures var r := Turns(w, h, n);
            h.at <= r.at && r.lost == h.lost && Seen(w, r.at).hw <= r.next
    decreases n
  {
    hide Seen;
    if n > 0 && Available(w, h) {
      TurnLater(w, h, n);
      SeenMonotone(w, h.at + 2, Turns(w, h, n).at);
      TurnsCatchUp(w, Turn(w, h), n - 1, top);
    }
  }

  lemma {:induction false} TurnLater(w: World, h: Haul, n: nat)
    ensures h.at <= Turns(w, h, n).at
    ensures n > 0 && Available(w, h) ==> h.at + 2 <= Turns(w, h, n).at
    decreases n
  {
    hide Available, TooLate;
    if n > 0 && Available(w, h) {
      TurnLater(w, Turn(w, h), n - 1);
    }
  }

  // One turn in copy mode, during which no more than `top` buffers complete in all.
  lemma CopyTurn(w: World, f: Feed, size: nat)
    requires f.available == 0 && f.lost == {} && Untorn(w, f.copies, size)
    requires Seen(w, Drained(Poll(w, f, false, false), false, size).at).done <= f.next + MARGIN
    ensures var g := Drained(Poll(w, f, false, false), false, size);
            g.available == 0 && g.lost == {} && Untorn(w, g.copies, size) && Seen(w, g.at).hw <= g.next + 2
  {
    hide Seen, Untorn, Turns, Share;
    CopyDrain(Poll(w, f, false, false), size);
    if Seen(w, f.at + 2).hw > f.next + 2 {
      var h := Turns(w, Haul(f.next, f.at + 3, {}, map[]), BUFFER_COUNT);
      SeenOrdered(w, h.at);
      TurnsCatchUp(w, Haul(f.next, f.at + 3, {}, map[]), BUFFER_COUNT, f.next + MARGIN);
      BookNone(w, f.next, f.at + 3);
      TurnsBook(w, f.next, Haul(f.next, f.at + 3, {}, map[]), BUFFER_COUNT);
      YoungUntorn(w, f, h, size);
    }
  }

  lemma YoungUntorn(w: World, f: Feed, h: Haul, size: nat)
    requires Booked(w, f.next, h) && Seen(w, h.at).done < f.next + BUFFER_COUNT && Untorn(w, f.copies, size)
    ensures Untorn(w, f.copies + h.copies, size)
  {
    hide Seen, Share, Overtaken;
    forall b | b in h.copies
      ensures !Overtaken(w, b, h.copies[b], Share(size, b))
    {
      SeenMonotone(w, h.copies[b] + Share(size, b), h.at);
      YoungIsSafe(w, b, h.copies[b], Share(size, b));
    }
  }

  lemma {:induction false} CopyDrain(f: Feed, size: nat)
    ensures Drained(f, false, size) == f.(next := f.next + f.available, available := 0)
    decreases f.available
  {
    if f.available > 0 {
      CopyDrain(StoreOne(f, false, size), size);
    }
  }

  // Over the mapped ring nobody tests a margin; it is the whole drain that must be quick.
  lemma {:induction false} DrainUntorn(w: World, f: Feed, size: nat)
    requires Untorn(w, f.copies, size) && Seen(w, Drained(f, true, size).at).done < f.next + BUFFER_COUNT
    ensures var g := Drained(f, true, size); Untorn(w, g.copies, size) && f.at <= g.at
    decreases f.available
  {
    hide Seen, Overtaken, Share, Drained;
    DrainedNext(f, true, size);
    if f.available > 0 {
      var g := StoreOne(f, true, size);
      DrainLater(g, size);
      SeenMonotone(w, g.at, Drained(g, true, size).at);
      YoungIsSafe(w, f.next, f.at, Share(size, f.next));
      DrainUntorn(w, g, size);
    }
  }

  lemma {:induction false} DrainLater(f: Feed, size: nat)
    ensures f.at <= Drained(f, true, size).at
    decreases f.available
  {
    hide Share;
    if f.available > 0 {
      DrainLater(StoreOne(f, true, size), size);
    }
  }

  // One turn over the mapped ring that ends before the engine is back at its first slot.
  lemma MappedTurn(w: World, f: Feed, size: nat)
    requires Accounted(w, true, f) && f.available == 0 && Untorn(w, f.copies, size)
    requires Seen(w, Drained(Poll(w, f, true, false), true, size).at).done < f.next + BUFFER_COUNT
    ensures var g := Drained(Poll(w, f, true, false), true, size);
            Untorn(w, g.copies, size) && Seen(w, f.at + 1).hw <= g.next + 2
  {
    hide Seen, Untorn, Drained;
    var p := Poll(w, f, true, false);
    var g := Drained(p, true, size);
    PollAccounts(w, true, f);
    DrainedAccounts(w, true, p, size);
    SeenMonotone(w, f.at, f.at + 1);
    SeenMonotone(w, f.at + 1, f.at + 2);
    SeenMonotone(w, f.at + 1, g.at);
    SeenOrdered(w, g.at);
    DrainUntorn(w, p, size);
  }

  // Between two turns of a recorder that keeps up. Its position is no further back than
  // the last snapshot.
  ghost predicate Fresh(w: World, zeroCopy: bool, size: nat, t: nat) {
    var f := RecordRun(w, zeroCopy, size, t);
    && f.available == 0 && f.lost == {} && Untorn(w, f.copies, size)
    && if !zeroCopy then Seen(w, f.at).hw <= f.next + 2
       else t == 0 ||
            var e := RecordRun(w, true, size, t - 1);
            Complete(size, e.next) || Seen(w, e.at + 1).hw <= f.next + 2
  }

  lemma CopyFresh(w: World, size: nat, turns: nat, latency: nat, c: nat, t: nat)
    requires KeepsUp(w, false, size, turns, latency, c) && t < turns && Fresh(w, false, size, t)
    requires !Complete(size, RecordRun(w, false, size, t).next)
    ensures Fresh(w, false, size, t + 1)
  {
    hide Seen, HandledWithin, RecordRun, Poll, Drained, Untorn;
    var f := RecordRun(w, false, size, t);
    RecordRunNext(w, false, size, t);
    assert CopyLap(w, size, t) <= c;
    SeenLag(w, latency, f.at);
    CopyTurn(w, f, size);
  }

  lemma MappedFresh(w: World, size: nat, turns: nat, latency: nat, c: nat, t: nat)
    requires KeepsUp(w, true, size, turns, latency, c) && t < turns && Fresh(w, true, size, t)
    requires !Complete(size, RecordRun(w, true, size, t).next)
    ensures Fresh(w, true, size, t + 1)
  {
    hide Seen, HandledWithin, RecordRun, Poll, Drained, Untorn, Accounted;
    var f := RecordRun(w, true, size, t);
    RunAccounts(w, true, size, t);
    RunAccounts(w, true, size, t + 1);
    RecordRunNext(w, true, size, t);
    if t > 0 {
      RecordRunNext(w, true, size, t - 1);
      assert MappedLap(w, size, t - 1) <= c;
      SeenLag(w, latency, RecordRun(w, true, size, t - 1).at + 1);
    }
    MappedTurn(w, f, size);
    LosesNone(w, RecordRun(w, true, size, t + 1));
  }

  lemma LosesNone(w: World, f: Feed)
    requires Accounted(w, true, f)
    ensures f.lost == {}
  {
  }

  /** A recorder that keeps up loses nothing and is never overtaken, in either mode, for
      as long as it does. */
  lemma {:induction false} RecordFresh(w: World, zeroCopy: bool, size: nat, turns: nat, latency: nat, c: nat, t: nat)
    requires KeepsUp(w, zeroCopy, size, turns, latency, c) && t <= turns
    ensures Fresh(w, zeroCopy, size, t)
    decreases t
  {
    hide KeepsUp, RecordRun, Poll, Drained;
    if t == 0 {
      RecordRunNext(w, zeroCopy, size, 0);
      SeenOrdered(w, 0);
    } else {
      RecordFresh(w, zeroCopy, size, turns, latency, c, t - 1);
      RecordRunNext(w, zeroCopy, size, t - 1);
      if Complete(size, RecordRun(w, zeroCopy, size, t - 1).next) {
      } else if zeroCopy {
        MappedFresh(w, size, turns, latency, c, t - 1);
      } else {
        CopyFresh(w, size, turns, latency, c, t - 1);
      }
    }
  }

  /* The file */

  // The file holds what the copies yielded, at the place of each.
  ghost predicate FileOf(file: seq<byte>, w: World, stream: Stream, copies: map<nat, nat>) {
    forall b: nat, j: nat {:trigger Offset(b, j)} | j < BUFFER_SIZE && Offset(b, j) < |file| && b in copies ::
      file[Offset(b, j)] == Copied(w, stream, b, copies[b], j)
  }

  lemma AppendChunk(file: seq<byte>, chunk: seq<byte>, w: World, stream: Stream,
                    copies: map<nat, nat>, copies': map<nat, nat>, b: nat)
    requires FileOf(file, w, stream, copies) && |chunk| <= BUFFER_SIZE
    requires |chunk| > 0 ==> |file| == Offset(b, 0)
    requires |file| <= Offset(b, 0)
    requires forall x | x < b && x in copies' :: x in copies && copies[x] == copies'[x]
    requires b in copies' ==> ChunkOf(chunk, w, stream, b, copies'[b])
    ensures FileOf(file + chunk, w, stream, copies')
  {
    hide Copied;
    forall b': nat, j: nat | j < BUFFER_SIZE && Offset(b', j) < |file + chunk| && b' in copies'
      ensures (file + chunk)[Offset(b', j)] == Copied(w, stream, b', copies'[b'], j)
    {
      if Offset(b', j) >= |file| {
        assert b' == b && (file + chunk)[Offset(b', j)] == chunk[j];
      }
    }
  }

  // New copies of later buffers change nothing about the file.
  lemma FileLater(file: seq<byte>, w: World, stream: Stream, copies: map<nat, nat>, copies': map<nat, nat>, next: nat)
    requires FileOf(file, w, stream, copies) && |file| <= Offset(next, 0)
    requires forall x | x < next && x in copies' :: x in copies && copies[x] == copies'[x]
    ensures FileOf(file, w, stream, copies')
  {
    hide Copied;
  }

  // The file is the stream's beginning, but for the buffers that were lost or torn.
  ghost predicate Recorded(file: seq<byte>, stream: Stream, w: World, size: nat, f: Feed) {
    forall b: nat, j: nat {:trigger Offset(b, j)} | j < BUFFER_SIZE && Offset(b, j) < |file| && b !in f.lost ::
      b in f.copies && (!Overtaken(w, b, f.copies[b], Share(size, b)) ==> file[Offset(b, j)] == stream(Offset(b, j)))
  }

  lemma FileIsRecorded(file: seq<byte>, stream: Stream, w: World, zeroCopy: bool, size: nat, f: Feed)
    requires FileOf(file, w, stream, f.copies) && |file| == Target(size, f.next) && Accounted(w, zeroCopy, f)
    ensures Recorded(file, stream, w, size, f)
  {
    hide Copied, Seen, Overtaken;
    forall b: nat, j: nat | j < BUFFER_SIZE && Offset(b, j) < |file| && b !in f.lost
      ensures b in f.copies
      ensures !Overtaken(w, b, f.copies[b], Share(size, b)) ==> file[Offset(b, j)] == stream(Offset(b, j))
    {
      assert b < f.next && j < Share(size, b);
      SeenOrdered(w, f.copies[b]);
      CopyRightIff(w, b, f.copies[b], Share(size, b));
    }
  }

  ghost predicate PrefixBut(file: seq<byte>, stream: Stream, lost: set<nat>) {
    forall b: nat, j: nat {:trigger Offset(b, j)} | j < BUFFER_SIZE && Offset(b, j) < |file| && b !in lost ::
      file[Offset(b, j)] == stream(Offset(b, j))
  }

  lemma UntornIsPrefix(file: seq<byte>, stream: Stream, w: World, size: nat, f: Feed)
    requires Recorded(file, stream, w, size, f) && Untorn(w, f.copies, size)
    ensures PrefixBut(file, stream, f.lost)
  {
    hide Overtaken;
  }

  // With nothing lost or torn it is exactly that.
  lemma WholePrefix(file: seq<byte>, stream: Stream)
    requires PrefixBut(file, stream, {})
    ensures file == seq(|file|, k requires k >= 0 => stream(k))
  {
    forall k: nat | k < |file|
      ensures file[k] == stream(k)
    {
      assert k == Offset(k / BUFFER_SIZE, k % BUFFER_SIZE);
    }
  }

  class Recorder {
    const port: Port
    const size: nat
    var fo: seq<byte>
    var totalLen: nat
    var keepRunning: bool

    ghost predicate Valid()
      reads this, port, port.chan, port.chan.ring, port.bufRd
    {
      && port.Valid()
      && |fo| == totalLen == Min(size, 8192 * port.next)
      && (keepRunning <==> !(size > 0 && totalLen >= size))
      && FileOf(fo, port.chan.w, port.chan.stream, port.copies)
    }

    constructor (port: Port, size: nat)
      requires port.Valid() && port.State() == EMPTY
      ensures Valid() && this.port == port && this.size == size && keepRunning
    {
      this.port, this.size := port, size;
      fo, totalLen, keepRunning := [], 0, true;
    }

    // One buffer: fwrite of no more than is missing, and the stop test.
    method Store(at: nat)
      requires port.Valid() && port.next > 0 && at < BUFFER_COUNT
      requires port.zeroCopy ==> at == Slot(port.next - 1)
      requires !port.zeroCopy && port.next - 1 in port.copies ==>
                 CopyAt(port.bufRd[..], Offset(at, 0), port.chan.w, port.chan.stream, port.next - 1,
                   port.copies[port.next - 1])
      requires |fo| == totalLen == Min(size, 8192 * (port.next - 1))
      requires keepRunning <==> !(size > 0 && totalLen >= size)
      requires FileOf(fo, port.chan.w, port.chan.stream, port.copies)
      modifies this`fo, this`totalLen, this`keepRunning, port`copies, port.chan, port.chan.ring
      ensures Valid() && old(fo) <= fo && |fo| == old(|fo|) + Min(size - old(|fo|), 8192)
      ensures keepRunning <==> !(size > 0 && |fo| >= size)
      ensures port.State() == if port.zeroCopy then Taken(old(port.State()), Share(size,
        port.next - 1)) else old(port.State())
    {
      hide FileOf, CopyAt, ChunkOf, Buffered, Port.Valid;
      var n := Min(size - totalLen, BUFFER_SIZE);
      var chunk := port.Consume(at, n);
      AppendChunk(fo, chunk, port.chan.w, port.chan.stream, old(port.copies), port.copies, port.next - 1);
      fo := fo + chunk;
      totalLen := totalLen + n;
      if size > 0 && totalLen >= size {
        keepRunning := false;
      }
    }

    // Drain the library.
    method Drain()
      requires Valid()
      modifies this`fo, this`totalLen, this`keepRunning, port, port.chan, port.chan.ring
      ensures Valid() && old(fo) <= fo
      ensures port.State() == Drained(old(port.State()), port.zeroCopy, size) && port.available == 0
    {
      hide FileOf, CopyAt, Port.Valid, Target, Share, Complete, Drained;
      while true
        invariant Valid() && old(fo) <= fo
        invariant Drained(port.State(), port.zeroCopy, size) == Drained(old(port.State()), port.zeroCopy, size)
        decreases port.available
      {
        DrainedNext(port.State(), port.zeroCopy, size);
        var bufRd := port.NextReadBuffer();
        if bufRd.None? {
          break;
        }
        Store(bufRd.value);
      }
    }

    // The loop of litepcie_record, `before` turns having been made; SIGINT comes after
    // `patience` more at the latest. With the file complete nothing is done at all.
    method Loop(ghost before: nat, patience: nat)
      requires Valid() && port.State() == RecordRun(port.chan.w, port.zeroCopy, size, before)
      modifies this`fo, this`totalLen, this`keepRunning, port, port.chan, port.chan.ring, port.bufRd
      ensures Valid() && port.State() == RecordRun(port.chan.w, port.zeroCopy, size, before + patience)
      ensures old(fo) <= fo && (old(size > 0 && |fo| >= size) ==> fo == old(fo) && port.State() == old(port.State()))
    {
      hide FileOf, Port.Valid, Poll, Drained, RecordRun, Accounted;
      var left: nat := patience;
      ghost var turns := before;
      while keepRunning && left > 0
        invariant Valid() && left <= patience && turns + left == before + patience && old(fo) <= fo
        invariant port.State() == RecordRun(port.chan.w, port.zeroCopy, size, turns)
        invariant old(size > 0 && |fo| >= size) ==> !keepRunning && fo == old(fo) && port.State() == old(port.State())
        decreases left
      {
        ghost var f := port.State();
        RunAccounts(port.chan.w, port.zeroCopy, size, turns);
        PollAccounts(port.chan.w, port.zeroCopy, f);
        RecordRunNext(port.chan.w, port.zeroCopy, size, turns);
        var timedOut := port.Process(false);
        FileLater(fo, port.chan.w, port.chan.stream, f.copies, port.copies, f.next);
        CompleteIff(size, f.next);
        Drain();
        left, turns := left - 1, turns + 1;
      }
      if !keepRunning {
        StaysComplete(port.chan.w, port.zeroCopy, size, turns, left);
      }
    }
  }

  lemma RecorderHas(r: Recorder, w: World, stream: Stream, f: Feed)
    requires r.Valid() && r.port.State() == f && r.port.chan.w == w && r.port.chan.stream == stream
    ensures FileOf(r.fo, w, stream, f.copies) && |r.fo| == Min(r.size, 8192 * f.next)
    ensures (r.keepRunning <==> !(r.size > 0 && |r.fo| >= r.size)) && r.port.overflows == |f.lost|
  {
    hide FileOf, Buffered, InSlots, Seen, RxChannel.Valid;
  }

  method RunRecorder(w: World, stream: Stream, zeroCopy: bool, size: nat, patience: nat)
    returns (file: seq<byte>, complete: bool, overflows: nat)
    ensures var f := RecordRun(w, zeroCopy, size, patience);
            && |file| == Min(size, 8192 * f.next) && overflows == |f.lost| && FileOf(file, w, stream, f.copies)
    ensures complete <==> size > 0 && |file| >= size
  {
    hide Port.Valid, Recorder.Valid, FileOf, RecordRun;
    var port := new Port(w, stream, zeroCopy);
    var recorder := new Recorder(port, size);
    RecordRunNext(w, zeroCopy, size, 0);
    recorder.Loop(0, patience);
    RecorderHas(recorder, w, stream, RecordRun(w, zeroCopy, size, patience));
    file, complete, overflows := recorder.fo, !recorder.keepRunning, port.overflows;
  }

  /** litepcie_record from start to end, for every stream and every interleaving of the
      engine and the interrupt handler with the driver, in both modes. What it comes to
      is a matter of the world alone: RecordRun. */
  method RecordFile(w: World, stream: Stream, zeroCopy: bool, size: nat, patience: nat)
    returns (file: seq<byte>, complete: bool, overflows: nat)
    ensures var f := RecordRun(w, zeroCopy, size, patience);
            && |file| == Min(size, 8192 * f.next) && overflows == |f.lost|
            && FileOf(file, w, stream, f.copies)
            && Recorded(file, stream, w, size, f)
    ensures complete <==> size > 0 && |file| >= size
    // In copy mode nothing is torn if the handler and every single copy are quick.
    ensures forall latency: nat, c: nat | HandledWithin(w.events, latency) ::
              !zeroCopy && AllQuick(w, RecordRun(w, zeroCopy, size, patience).copies, c) &&
              BUFFER_PER_IRQ + latency + c < MARGIN ==>
                PrefixBut(file, stream, RecordRun(w, zeroCopy, size, patience).lost)
    // In either mode a recorder that keeps up records the stream and nothing else.
    ensures forall latency: nat, c: nat | KeepsUp(w, zeroCopy, size, patience, latency, c) ::
              overflows == 0 && file == seq(|file|, k requires k >= 0 => stream(k))
  {
    hide FileOf, Recorded, PrefixBut, RecordRun, KeepsUp, AllQuick, HandledWithin;
    file, complete, overflows := RunRecorder(w, stream, zeroCopy, size, patience);
    FileMeans(file, w, stream, zeroCopy, size, patience);
    forall latency: nat, c: nat | KeepsUp(w, zeroCopy, size, patience, latency, c)
      ensures overflows == 0 && file == seq(|file|, k requires k >= 0 => stream(k))
    {
      FreshFile(file, w, stream, zeroCopy, size, patience, latency, c);
    }
  }

  lemma FileMeans(file: seq<byte>, w: World, stream: Stream, zeroCopy: bool, size: nat, turns: nat)
    requires var f := RecordRun(w, zeroCopy, size, turns);
             FileOf(file, w, stream, f.copies) && |file| == Min(size, 8192 * f.next)
    ensures Recorded(file, stream, w, size, RecordRun(w, zeroCopy, size, turns))
    ensures forall latency: nat, c: nat | HandledWithin(w.events, latency) ::
              !zeroCopy && AllQuick(w, RecordRun(w, zeroCopy, size, turns).copies, c) &&
              BUFFER_PER_IRQ + latency + c < MARGIN ==>
                PrefixBut(file, stream, RecordRun(w, zeroCopy, size, turns).lost)
  {
    hide FileOf, Recorded, PrefixBut, RecordRun, AllQuick, HandledWithin, Accounted, Untorn;
    var f := RecordRun(w, zeroCopy, size, turns);
    RunAccounts(w, zeroCopy, size, turns);
    CompleteIff(size, f.next);
    FileIsRecorded(file, stream, w, zeroCopy, size, f);
    forall latency: nat, c: nat | HandledWithin(w.events, latency) && !zeroCopy && AllQuick(w, f.copies, c) &&
                                  BUFFER_PER_IRQ + latency + c < MARGIN
      ensures PrefixBut(file, stream, f.lost)
    {
      CopiesUntorn(w, size, turns, latency, c);
      UntornIsPrefix(file, stream, w, size, f);
    }
  }

  lemma FreshFile(file: seq<byte>, w: World, stream: Stream, zeroCopy: bool, size: nat, turns: nat,
                  latency: nat, c: nat)
    requires Recorded(file, stream, w, size, RecordRun(w, zeroCopy, size, turns))
    requires KeepsUp(w, zeroCopy, size, turns, latency, c)
    ensures |RecordRun(w, zeroCopy, size, turns).lost| == 0
    ensures file == seq(|file|, k requires k >= 0 => stream(k))
  {
    hide Recorded, PrefixBut, RecordRun, KeepsUp, Untorn;
    RecordFresh(w, zeroCopy, size, turns, latency, c, turns);
    UntornIsPrefix(file, stream, w, size, RecordRun(w, zeroCopy, size, turns));
    WholePrefix(file, stream);
  }
}
