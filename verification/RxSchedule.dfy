/** What the receive software does in a given world, as functions of that world: which
    buffers it finds, gives up or copies, and at which of its accesses. The stream's
    contents play no part in it. */
module RxSchedule {
  import opened Config
  import opened Engine
  import opened Memory

  /* One copy */

  // What a copy of buffer b that begins after access k yields for byte j: the byte of
  // whichever buffer stands in the slot at access k + 1 + j.
  function Copied(w: World, stream: Stream, b: nat, k: nat, j: nat): byte {
    stream(Offset(Occupant(Moved(Seen(w, k + 1 + j)), b, j), j))
  }

  // The engine is back at byte j of the slot before it is copied.
  predicate OvertakenAt(w: World, b: nat, k: nat, j: nat) {
    Moved(Seen(w, k + 1 + j)) > Offset(b, j) + RING_BYTES
  }

  ghost predicate Overtaken(w: World, b: nat, k: nat, n: nat) {
    exists j: nat | j < n :: OvertakenAt(w, b, k, j)
  }

  // The first n bytes of a copy are the buffer's own, whatever the stream, iff the
  // engine did not overtake it.
  lemma CopyRightIff(w: World, b: nat, k: nat, n: nat)
    requires b < Seen(w, k).done && n <= BUFFER_SIZE
    ensures (forall stream: Stream, j: nat | j < n :: Copied(w, stream, b, k, j) == stream(Offset(b, j)))
            <==> !Overtaken(w, b, k, n)
  {
    hide Seen;
    forall j: nat | j < n
      ensures Occupant(Moved(Seen(w, k + 1 + j)), b, j) == b <==> !OvertakenAt(w, b, k, j)
    {
      SeenMonotone(w, k, k + 1 + j);
      OccupantHeld(Moved(Seen(w, k + 1 + j)), b, j);
    }
    if j: nat :| j < n && OvertakenAt(w, b, k, j) {
      var stream: Stream := o => if o == Offset(b, j) then 0 else 1;
      assert Occupant(Moved(Seen(w, k + 1 + j)), b, j) > b;
      assert Copied(w, stream, b, k, j) != stream(Offset(b, j));
    } else {
      forall stream: Stream, j: nat | j < n
        ensures Copied(w, stream, b, k, j) == stream(Offset(b, j))
      {
        assert !OvertakenAt(w, b, k, j);
      }
    }
  }

  // A buffer is not overtaken if less than a ring of buffers is complete when its copy ends.
  lemma YoungIsSafe(w: World, b: nat, k: nat, n: nat)
    requires Seen(w, k + n).done < b + BUFFER_COUNT
    ensures !Overtaken(w, b, k, n)
  {
    hide Seen;
    forall j: nat | j < n
      ensures !OvertakenAt(w, b, k, j)
    {
      SeenMonotone(w, k + 1 + j, k + n);
      SeenOrdered(w, k + 1 + j);
    }
  }

  /* litepcie_read */

  /** Where its loop stands: the buffer to look at next, the accesses made, the buffers
      given up, and for each copied one the access after which its copy began. */
  datatype Haul = Haul(next: nat, at: nat, lost: set<nat>, copies: map<nat, nat>)

  predicate Available(w: World, h: Haul) { Seen(w, h.at + 1).hw > h.next }

  predicate TooLate(w: World, h: Haul) { Seen(w, h.at + 2).hw - h.next > MARGIN }

  // One turn with a buffer available.
  function Turn(w: World, h: Haul): Haul {
    if TooLate(w, h) then Haul(h.next + 1, h.at + 2, h.lost + {h.next}, h.copies)
    else Haul(h.next + 1, h.at + 2 + BUFFER_SIZE, h.lost, h.copies[h.next := h.at + 2])
  }

  // The loop, for room for n buffers.
  function Turns(w: World, h: Haul, n: nat): (r: Haul)
    ensures r.next >= h.next
    decreases n, h
  {
    if n == 0 then h
    else if !Available(w, h) then h.(at := h.at + 1)
    else Turns(w, Turn(w, h), n - 1)
  }

  lemma TurnsNext(w: World, h: Haul, n: nat)
    ensures Turns(w, h, n) == if n == 0 then h
                              else if Seen(w, h.at + 1).hw <= h.next then h.(at := h.at + 1)
                              else Turns(w, Turn(w, h), n - 1)
  {
  }

  // The look that ends the wait for a buffer after b - 1, or the last one.
  function WaitEnd(w: World, k: nat, b: nat, patience: nat): (r: nat)
    ensures r > k
    decreases patience
  {
    if patience == 0 || Seen(w, k + 1).hw > b then k + 1 else WaitEnd(w, k + 1, b, patience - 1)
  }

  function FirstLook(w: World, k: nat, b: nat, nonblock: bool, patience: nat): nat {
    if nonblock then k + 1 else WaitEnd(w, k, b, patience)
  }

  predicate Refused(w: World, k: nat, b: nat, nonblock: bool, patience: nat) {
    var seen := Seen(w, FirstLook(w, k, b, nonblock, patience)).hw;
    if nonblock then seen == b else seen <= b
  }

  // A whole call.
  function Reading(w: World, k: nat, b: nat, n: nat, nonblock: bool, patience: nat): (h: Haul)
    ensures h.next >= b
  {
    var start := Haul(b, FirstLook(w, k, b, nonblock, patience), {}, map[]);
    if Refused(w, k, b, nonblock, patience) then start else Turns(w, start, n)
  }

  // The looks after access k, up to access e, find no buffer after b - 1.
  ghost predicate NothingUntil(w: World, k: nat, b: nat, e: nat) {
    forall j: nat | k < j <= e :: Seen(w, j).hw <= b
  }

  // Look e is the first after access k that finds one.
  ghost predicate FirstFinds(w: World, k: nat, b: nat, e: nat) {
    k < e && Seen(w, e).hw > b && NothingUntil(w, k, b, e - 1)
  }

  // A wait ends with the first look that finds a buffer, or with the last one.
  lemma {:induction false} WaitEnds(w: World, k: nat, b: nat, patience: nat)
    ensures var e := WaitEnd(w, k, b, patience);
            if Seen(w, e).hw > b then FirstFinds(w, k, b, e) && e <= k + 1 + patience
            else e == k + 1 + patience && NothingUntil(w, k, b, e)
    decreases patience
  {
    hide Seen;
    if patience > 0 && Seen(w, k + 1).hw <= b {
      WaitEnds(w, k + 1, b, patience - 1);
    }
  }

  // A blocking call is refused iff none of its 1 + patience looks finds a buffer; a
  // non-blocking one iff the two counts are equal at its only look.
  lemma RefusedIff(w: World, k: nat, b: nat, nonblock: bool, patience: nat)
    ensures Refused(w, k, b, nonblock, patience) <==>
            if nonblock then Seen(w, k + 1).hw == b
            else forall j: nat | k < j <= k + 1 + patience :: Seen(w, j).hw <= b
  {
    hide Seen, WaitEnd;
    WaitEnds(w, k, b, patience);
  }

  // Where the loop of a call starts, if it does.
  lemma ReadingStarts(w: World, k: nat, b: nat, n: nat, nonblock: bool, patience: nat)
    ensures var h := Reading(w, k, b, n, nonblock, patience);
            && (nonblock ==> h == if Seen(w, k + 1).hw == b then Haul(b, k + 1, {}, map[])
                                  else Turns(w, Haul(b, k + 1, {}, map[]), n))
            && (!nonblock && NothingUntil(w, k, b, k + 1 + patience) ==>
                  h == Haul(b, k + 1 + patience, {}, map[]))
            && forall e: nat | !nonblock && FirstFinds(w, k, b, e) && e <= k + 1 + patience ::
                  h == Turns(w, Haul(b, e, {}, map[]), n)
  {
    hide Seen, WaitEnd, Turns;
    WaitEnds(w, k, b, patience);
    RefusedIff(w, k, b, nonblock, patience);
    forall e: nat | !nonblock && FirstFinds(w, k, b, e) && e <= k + 1 + patience
      ensures WaitEnd(w, k, b, patience) == e
    {
      assert Seen(w, e).hw > b;
    }
  }

  // So a blocking call with room for a buffer gets one, unless it is refused.
  lemma WaitsForOne(w: World, k: nat, b: nat, n: nat, patience: nat)
    ensures n == 0 || NothingUntil(w, k, b, k + 1 + patience) || Reading(w, k, b, n, false, patience).next > b
  {
    hide Seen, WaitEnd, Turns;
    WaitEnds(w, k, b, patience);
    RefusedIff(w, k, b, false, patience);
    var start := Haul(b, WaitEnd(w, k, b, patience), {}, map[]);
    SeenMonotone(w, start.at, start.at + 1);
    TurnsNext(w, start, n);
  }

  lemma {:induction false} RefusedOnlyIfEmpty(w: World, k: nat, b: nat, patience: nat)
    ensures Refused(w, k, b, false, patience) ==> Seen(w, k).hw <= b
    decreases patience
  {
    hide Seen;
    SeenMonotone(w, k, k + 1);
    if patience > 0 && Seen(w, k + 1).hw <= b {
      RefusedOnlyIfEmpty(w, k + 1, b, patience - 1);
    }
  }

  // Every buffer the loop passed is given up or copied, for the reason the code has.
  ghost predicate Booked(w: World, first: nat, h: Haul) {
    && (forall b | b in h.lost :: first <= b < h.next && b !in h.copies && b + MARGIN < Seen(w, h.at).hw)
    && (forall b | b in h.copies :: first <= b < h.next && h.copies[b] + BUFFER_SIZE <= h.at)
    && (forall b | b in h.copies :: Admitted(w, b, h.copies[b]))
    && (forall b: nat | first <= b < h.next :: b in h.lost || b in h.copies)
    && first <= h.next && (first < h.next ==> h.next <= Seen(w, h.at).hw)
  }

  // The margin test lets the buffer through at access k.
  predicate Admitted(w: World, b: nat, k: nat) { b < Seen(w, k).hw <= b + MARGIN }

  lemma BookNone(w: World, first: nat, at: nat)
    ensures Booked(w, first, Haul(first, at, {}, map[]))
  {
  }

  lemma TurnBooks(w: World, first: nat, h: Haul)
    requires Booked(w, first, h) && Available(w, h)
    ensures Booked(w, first, Turn(w, h))
    ensures |Turn(w, h).lost| == |h.lost| + (if TooLate(w, h) then 1 else 0)
  {
    hide Seen;
    SeenMonotone(w, h.at, h.at + 2);
    SeenMonotone(w, h.at + 1, h.at + 2);
    SeenMonotone(w, h.at + 2, h.at + 2 + BUFFER_SIZE);
  }

  lemma {:induction false} TurnsBook(w: World, first: nat, h: Haul, n: nat)
    requires Booked(w, first, h)
    ensures Booked(w, first, Turns(w, h, n))
    ensures Turns(w, h, n).next <= h.next + n
    ensures h.at <= Turns(w, h, n).at <= h.at + n * (BUFFER_SIZE + 2)
    decreases n
  {
    hide Seen, Available, TooLate;
    if n > 0 {
      if Available(w, h) {
        TurnBooks(w, first, h);
        TurnsBook(w, first, Turn(w, h), n - 1);
      } else {
        SeenMonotone(w, h.at, h.at + 1);
      }
    }
  }

  // With an unchanging count: how many of n buffers are lost and consumed.
  function Overflows(n: nat, backlog: int): nat { Min(n, Max(0, backlog - MARGIN)) }

  lemma {:induction false} SteadyCount(w: World, first: nat, h: Haul, n: nat)
    requires Booked(w, first, h) && Seen(w, h.at).hw == Seen(w, Turns(w, h, n).at).hw
    ensures var r, backlog := Turns(w, h, n), Max(0, Seen(w, h.at).hw - h.next);
            && r.next - h.next == Min(n, backlog)
            && |r.lost| - |h.lost| == Overflows(n, backlog)
    decreases n
  {
    hide Seen, Booked;
    if n > 0 {
      TurnsBook(w, first, h, n);
      var end := Turns(w, h, n).at;
      if Available(w, h) {
        var t := Turn(w, h);
        TurnBooks(w, first, h);
        TurnsBook(w, first, t, n - 1);
        SeenSteady(w, h.at, t.at, end);
        SeenSteady(w, h.at, h.at + 2, end);
        SeenSteady(w, h.at, h.at + 1, end);
        SteadyCount(w, first, t, n - 1);
      } else {
        SeenSteady(w, h.at, h.at + 1, end);
      }
    }
  }

  lemma {:induction false} TurnsCount(w: World, first: nat, h: Haul, n: nat)
    requires Booked(w, first, h)
    ensures var r := Turns(w, h, n);
            |r.lost| + |r.copies| - r.next == |h.lost| + |h.copies| - h.next
    decreases n
  {
    hide Seen, Available, TooLate, Booked;
    if n > 0 && Available(w, h) {
      TurnBooks(w, first, h);
      NewCopy(w, first, h);
      TurnsCount(w, first, Turn(w, h), n - 1);
    }
  }

  lemma NewCopy(w: World, first: nat, h: Haul)
    requires Booked(w, first, h)
    ensures |Turn(w, h).copies| == |h.copies| + (if TooLate(w, h) then 0 else 1)
  {
    hide TooLate, Seen;
    assert h.next !in h.copies;
  }

  // The loop takes two accesses for a lost buffer, those of the copy besides for a copied
  // one, and one to find nothing more, which is the only way to end before n buffers.
  lemma {:induction false} TurnsEnd(w: World, h: Haul, n: nat)
    requires h.next !in h.copies && forall b | b in h.copies || b in h.lost :: b < h.next
    ensures var r := Turns(w, h, n);
            && (r.next == h.next + n || (r.next < h.next + n && Seen(w, r.at).hw <= r.next))
            && r.at == h.at + 2 * (r.next - h.next) + 8192 * (|r.copies| - |h.copies|)
                       + (if r.next == h.next + n then 0 else 1)
    decreases n
  {
    hide Seen, Available, TooLate;
    if n > 0 {
      if Available(w, h) {
        assert |h.copies[h.next := h.at + 2]| == |h.copies| + 1;
        TurnsEnd(w, Turn(w, h), n - 1);
      } else {
        assert Seen(w, h.at + 1).hw <= h.next by {
          LastLook(w, h);
        }
      }
    }
  }

  lemma LastLook(w: World, h: Haul)
    ensures Available(w, h) <==> Seen(w, h.at + 1).hw > h.next
  {
    hide Seen;
  }

  // A call that returns less than it has room for found nothing more at its last access.
  lemma ReadingEnds(w: World, k: nat, b: nat, n: nat, nonblock: bool, patience: nat)
    requires !Refused(w, k, b, nonblock, patience)
    ensures var h := Reading(w, k, b, n, nonblock, patience);
            && (h.next == b + n || (h.next < b + n && Seen(w, h.at).hw <= h.next))
            && (nonblock ==> h.at == k + 1 + 2 * (h.next - b) + 8192 * |h.copies|
                                     + (if h.next == b + n then 0 else 1))
  {
    hide Seen, Turns, Refused;
    TurnsEnd(w, Haul(b, FirstLook(w, k, b, nonblock, patience), {}, map[]), n);
  }

  // Every buffer a call consumes is given up, being over half a ring behind, or copied,
  // being no more than that; none is both.
  lemma ReadingBooks(w: World, k: nat, b: nat, n: nat, nonblock: bool, patience: nat)
    ensures var h := Reading(w, k, b, n, nonblock, patience);
            && Booked(w, b, h) && h.next <= b + n && k <= h.at
            && |h.lost| + |h.copies| == h.next - b
  {
    hide Seen, Booked;
    var start := Haul(b, FirstLook(w, k, b, nonblock, patience), {}, map[]);
    BookNone(w, b, start.at);
    TurnsBook(w, b, start, n);
    TurnsCount(w, b, start, n);
  }

  // How many, when the handler does not run during the call.
  lemma SteadyReading(w: World, k: nat, b: nat, n: nat, nonblock: bool, patience: nat)
    requires var h := Reading(w, k, b, n, nonblock, patience);
             Seen(w, k).hw == Seen(w, h.at).hw && !Refused(w, k, b, nonblock, patience)
    ensures var h, backlog := Reading(w, k, b, n, nonblock, patience), Max(0, Seen(w, k).hw - b);
            h.next - b == Min(n, backlog) && |h.lost| == Min(n, Max(0, backlog - 128))
  {
    hide Seen, Booked;
    var start := Haul(b, FirstLook(w, k, b, nonblock, patience), {}, map[]);
    BookNone(w, b, start.at);
    TurnsBook(w, b, start, n);
    SeenSteady(w, k, start.at, Reading(w, k, b, n, nonblock, patience).at);
    SteadyCount(w, b, start, n);
  }
}
