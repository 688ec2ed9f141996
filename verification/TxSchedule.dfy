/** What the transmit software does in a given world, as functions of that world: which
    buffers are accepted, which come too late, and which are complete in time. */
module TxSchedule {
  import opened Config
  import opened Counter
  import opened Engine

  /** Where litepcie_write stands: the buffer to fill next, the accesses made, the buffers
      it was too late for, and for each filled one the access after which filling began. */
  datatype Load = Load(next: nat, at: nat, late: set<nat>, fills: map<nat, nat>)

  predicate Room(w: World, l: Load) { l.next - Seen(w, l.at + 1).hw < MARGIN }

  predicate TooLate(w: World, l: Load) { l.next - Seen(w, l.at + 2).hw < 0 }

  // One turn of the loop of litepcie_write with room for a buffer.
  function Turn(w: World, l: Load): Load {
    if TooLate(w, l) then Load(l.next + 1, l.at + 2, l.late + {l.next}, l.fills)
    else Load(l.next + 1, l.at + 2 + BUFFER_SIZE, l.late, l.fills[l.next := l.at + 2])
  }

  lemma TurnIs(w: World, l: Load)
    ensures Turn(w, l) ==
            if l.next - Seen(w, l.at + 2).hw < 0 then Load(l.next + 1, l.at + 2, l.late + {l.next}, l.fills)
            else Load(l.next + 1, l.at + 2 + BUFFER_SIZE, l.late, l.fills[l.next := l.at + 2])
  {
  }

  // The loop, for n buffers offered.
  function Turns(w: World, l: Load, n: nat): (r: Load)
    ensures r.next >= l.next
    decreases n, l
  {
    if n == 0 then l
    else if !Room(w, l) then l.(at := l.at + 1)
    else Turns(w, Turn(w, l), n - 1)
  }

  lemma TurnsNext(w: World, l: Load, n: nat)
    ensures Turns(w, l, n) == if n == 0 then l
                              else if l.next - Seen(w, l.at + 1).hw >= MARGIN then l.(at := l.at + 1)
                              else Turns(w, Turn(w, l), n - 1)
  {
    hide Seen, TooLate;
  }

  // The look that ends the wait for room, or the last one.
  function WaitEnd(w: World, k: nat, b: nat, patience: nat): (r: nat)
    ensures r > k
    decreases patience
  {
    if patience == 0 || b - Seen(w, k + 1).hw < MARGIN then k + 1 else WaitEnd(w, k + 1, b, patience - 1)
  }

  function FirstLook(w: World, k: nat, b: nat, nonblock: bool, patience: nat): nat {
    if nonblock then k + 1 else WaitEnd(w, k, b, patience)
  }

  // A non-blocking write is refused when the driver's two counts are equal, which is
  // when the whole window is free.
  predicate Refused(w: World, k: nat, b: nat, nonblock: bool, patience: nat) {
    var seen := Seen(w, FirstLook(w, k, b, nonblock, patience)).hw;
    if nonblock then seen == b else b - seen >= MARGIN
  }

  // A whole call.
  function Writing(w: World, l: Load, n: nat, nonblock: bool, patience: nat): (r: Load)
    ensures r.next >= l.next
  {
    var start := l.(at := FirstLook(w, l.at, l.next, nonblock, patience));
    if Refused(w, l.at, l.next, nonblock, patience) then start else Turns(w, start, n)
  }

  // The looks after access k, up to access e, find no room for buffer b.
  ghost predicate FullUntil(w: World, k: nat, b: nat, e: nat) {
    forall j: nat | k < j <= e :: b - Seen(w, j).hw >= 128
  }

  // Look e is the first after access k that finds room.
  ghost predicate FirstFinds(w: World, k: nat, b: nat, e: nat) {
    k < e && b - Seen(w, e).hw < 128 && FullUntil(w, k, b, e - 1)
  }

  // A wait ends with the first look that finds room, or with the last one.
  lemma {:induction false} WaitEnds(w: World, k: nat, b: nat, patience: nat)
    ensures var e := WaitEnd(w, k, b, patience);
            if b - Seen(w, e).hw < 128 then FirstFinds(w, k, b, e) && e <= k + 1 + patience
            else e == k + 1 + patience && FullUntil(w, k, b, e)
    decreases patience
  {
    hide Seen;
    if patience > 0 && b - Seen(w, k + 1).hw >= MARGIN {
      WaitEnds(w, k + 1, b, patience - 1);
    }
  }

  // A blocking call is refused iff none of its 1 + patience looks finds room; a
  // non-blocking one iff the two counts are equal at its only look.
  lemma RefusedIff(w: World, k: nat, b: nat, nonblock: bool, patience: nat)
    ensures Refused(w, k, b, nonblock, patience) <==>
            if nonblock then Seen(w, k + 1).hw == b
            else forall j: nat | k < j <= k + 1 + patience :: b - Seen(w, j).hw >= 128
  {
    hide Seen, WaitEnd;
    WaitEnds(w, k, b, patience);
  }

  // Where the loop of a call starts, if it does.
  lemma WritingStarts(w: World, k: nat, b: nat, n: nat, nonblock: bool, patience: nat)
    ensures var r := Writing(w, Load(b, k, {}, map[]), n, nonblock, patience);
            && (nonblock ==> r == if Seen(w, k + 1).hw == b then Load(b, k + 1, {}, map[])
                                  else Turns(w, Load(b, k + 1, {}, map[]), n))
            && (!nonblock && FullUntil(w, k, b, k + 1 + patience) ==> r == Load(b, k + 1 + patience, {}, map[]))
            && forall e: nat | !nonblock && FirstFinds(w, k, b, e) && e <= k + 1 + patience ::
                  r == Turns(w, Load(b, e, {}, map[]), n)
  {
    hide Seen, WaitEnd, Turns;
    WaitEnds(w, k, b, patience);
    RefusedIff(w, k, b, nonblock, patience);
    forall e: nat | !nonblock && FirstFinds(w, k, b, e) && e <= k + 1 + patience
      ensures WaitEnd(w, k, b, patience) == e
    {
      assert b - Seen(w, e).hw < 128;
    }
  }

  // So a blocking call with a buffer on offer takes it, unless it is refused.
  lemma WaitsForOne(w: World, l: Load, n: nat, patience: nat)
    ensures n == 0 || FullUntil(w, l.at, l.next, l.at + 1 + patience) || Writing(w, l, n, false, patience).next > l.next
  {
    hide Seen, WaitEnd, Turns, Turn;
    WaitEnds(w, l.at, l.next, patience);
    RefusedIff(w, l.at, l.next, false, patience);
    var start := l.(at := WaitEnd(w, l.at, l.next, patience));
    SeenMonotone(w, start.at, start.at + 1);
    TurnsNext(w, start, n);
    TurnAdds(w, start);
  }

  // The loop takes two accesses for a late buffer, those of the filling besides for a
  // filled one, and one to find no room, which is the only way to end before n buffers.
  lemma {:induction false} TurnsEnd(w: World, l: Load, n: nat)
    requires l.next !in l.fills && forall b | b in l.fills || b in l.late :: b < l.next
    ensures var r := Turns(w, l, n);
            && (r.next == l.next + n || (r.next < l.next + n && r.next - Seen(w, r.at).hw >= 128))
            && r.at == l.at + 2 * (r.next - l.next) + 8192 * (|r.fills| - |l.fills|)
                       + (if r.next == l.next + n then 0 else 1)
    decreases n
  {
    hide Seen, Turns, TooLate;
    TurnsNext(w, l, n);
    if n > 0 && l.next - Seen(w, l.at + 1).hw < MARGIN {
      assert |l.fills[l.next := l.at + 2]| == |l.fills| + 1;
      TurnsEnd(w, Turn(w, l), n - 1);
    }
  }

  // A call that takes less than what is offered found no more room at its last access.
  lemma WritingEnds(w: World, k: nat, b: nat, n: nat, nonblock: bool, patience: nat)
    requires !Refused(w, k, b, nonblock, patience)
    ensures var r := Writing(w, Load(b, k, {}, map[]), n, nonblock, patience);
            && (r.next == b + n || (r.next < b + n && r.next - Seen(w, r.at).hw >= 128))
            && (nonblock ==> r.at == k + 1 + 2 * (r.next - b) + 8192 * |r.fills| + (if r.next == b + n then 0 else 1))
  {
    hide Seen, Turns, Refused;
    TurnsEnd(w, Load(b, FirstLook(w, k, b, nonblock, patience), {}, map[]), n);
  }

  // Every buffer the loop passed came too late or is filled, for the reason the code has.
  ghost predicate Booked(w: World, first: nat, l: Load) {
    && first <= l.next
    && (forall b | b in l.late :: first <= b < l.next && b !in l.fills && b < Seen(w, l.at).hw)
    && (forall b | b in l.fills :: first <= b < l.next && l.fills[b] + BUFFER_SIZE <= l.at)
    && (forall b | b in l.fills :: Admitted(w, b, l.fills[b]))
    && (forall b: nat | first <= b < l.next :: b in l.late || b in l.fills)
  }

  // The driver's tests let the buffer through, up to access k.
  predicate Admitted(w: World, b: nat, k: nat) { Seen(w, k).hw <= b < Seen(w, k).hw + MARGIN }

  lemma BookNone(w: World, first: nat, at: nat)
    ensures Booked(w, first, Load(first, at, {}, map[]))
  {
  }

  lemma LaterBooked(w: World, first: nat, l: Load, k: nat)
    requires Booked(w, first, l) && l.at <= k
    ensures Booked(w, first, l.(at := k))
  {
    hide Seen, Admitted;
    SeenMonotone(w, l.at, k);
  }

  lemma TurnBooks(w: World, first: nat, l: Load)
    requires Booked(w, first, l) && Room(w, l)
    ensures Booked(w, first, Turn(w, l))
    ensures |Turn(w, l).late| == |l.late| + (if TooLate(w, l) then 1 else 0)
    ensures |Turn(w, l).fills| == |l.fills| + (if TooLate(w, l) then 0 else 1)
  {
    hide Seen, Booked;
    if TooLate(w, l) {
      LateBooked(w, first, l);
    } else {
      FilledBooked(w, first, l);
    }
  }

  lemma LateBooked(w: World, first: nat, l: Load)
    requires Booked(w, first, l) && TooLate(w, l)
    ensures Booked(w, first, Load(l.next + 1, l.at + 2, l.late + {l.next}, l.fills))
    ensures |l.late + {l.next}| == |l.late| + 1
  {
    hide Seen, Admitted;
    LaterBooked(w, first, l, l.at + 2);
  }

  lemma FilledBooked(w: World, first: nat, l: Load)
    requires Booked(w, first, l) && Room(w, l) && !TooLate(w, l)
    ensures Booked(w, first, Load(l.next + 1, l.at + 2 + BUFFER_SIZE, l.late, l.fills[l.next := l.at + 2]))
    ensures |l.fills[l.next := l.at + 2]| == |l.fills| + 1
  {
    hide Seen;
    SeenMonotone(w, l.at + 1, l.at + 2);
    LaterBooked(w, first, l, l.at + 2 + BUFFER_SIZE);
    assert l.next !in l.fills && l.next !in l.late;
  }

  lemma TurnAdds(w: World, l: Load)
    ensures var t := Turn(w, l); t.next == l.next + 1 && l.at + 2 <= t.at
  {
    hide Seen, TooLate;
  }

  lemma {:induction false} TurnsBook(w: World, first: nat, l: Load, n: nat)
    requires Booked(w, first, l)
    ensures var r := Turns(w, l, n);
            && Booked(w, first, r) && r.next <= l.next + n && l.at <= r.at
            && |r.late| + |r.fills| - r.next == |l.late| + |l.fills| - l.next
    decreases n
  {
    hide Seen, Turn, Turns, Booked;
    TurnsNext(w, l, n);
    if n > 0 {
      if Room(w, l) {
        TurnBooks(w, first, l);
        TurnAdds(w, l);
        TurnsBook(w, first, Turn(w, l), n - 1);
      } else {
        LaterBooked(w, first, l, l.at + 1);
      }
    }
  }

  // With an unchanging count: how many of n offered buffers are taken, and how many of
  // i buffers come too late, at a lead of so much over the count.
  function Accepted(n: nat, lead: int): nat { Min(n, Max(0, MARGIN - lead)) }

  function Underflows(i: nat, lead: int): nat { Min(i, Max(0, -lead)) }

  lemma AcceptedNext(n: nat, lead: int)
    ensures Accepted(0, lead) == 0 && (lead >= MARGIN ==> Accepted(n, lead) == 0) && Underflows(0, lead) == 0
    ensures n > 0 && lead < MARGIN ==>
              && Accepted(n, lead) == 1 + Accepted(n - 1, lead + 1)
              && Underflows(Accepted(n, lead), lead) ==
                 (if lead < 0 then 1 else 0) + Underflows(Accepted(n - 1, lead + 1), lead + 1)
  {
  }

  lemma {:induction false} SteadyCount(w: World, first: nat, l: Load, n: nat)
    requires Booked(w, first, l) && Seen(w, l.at).hw == Seen(w, Turns(w, l, n).at).hw
    ensures var r, lead := Turns(w, l, n), l.next - Seen(w, l.at).hw;
            && r.next - l.next == Accepted(n, lead)
            && |r.late| - |l.late| == Underflows(Accepted(n, lead), lead)
    decreases n
  {
    hide Seen, Booked, Turn, Turns, Accepted, Underflows;
    TurnsNext(w, l, n);
    AcceptedNext(n, l.next - Seen(w, l.at).hw);
    if n > 0 {
      TurnsBook(w, first, l, n);
      var end := Turns(w, l, n).at;
      if Room(w, l) {
        var t := Turn(w, l);
        TurnBooks(w, first, l);
        TurnAdds(w, l);
        TurnsBook(w, first, t, n - 1);
        SeenSteady(w, l.at, t.at, end);
        SeenSteady(w, l.at, l.at + 2, end);
        SeenSteady(w, l.at, l.at + 1, end);
        SteadyCount(w, first, t, n - 1);
      } else {
        SeenSteady(w, l.at, l.at + 1, end);
      }
    }
  }

  // Conservation for a call: every buffer it takes is late, being behind the count, or
  // filled, being no more than half a ring ahead of it; none is both.
  lemma WritingBooks(w: World, k: nat, b: nat, n: nat, nonblock: bool, patience: nat)
    ensures var r := Writing(w, Load(b, k, {}, map[]), n, nonblock, patience);
            && Booked(w, b, r) && r.next <= b + n && k <= r.at
            && |r.late| + |r.fills| == r.next - b
  {
    hide Seen, Booked, Turns;
    var start := FirstLook(w, k, b, nonblock, patience);
    BookNone(w, b, start);
    TurnsBook(w, b, Load(b, start, {}, map[]), n);
  }

  // The closed form, when the handler does not run during the call.
  lemma SteadyWriting(w: World, k: nat, b: nat, n: nat, nonblock: bool, patience: nat)
    requires !Refused(w, k, b, nonblock, patience)
    requires Seen(w, k).hw == Seen(w, Writing(w, Load(b, k, {}, map[]), n, nonblock, patience).at).hw
    ensures var r, lead := Writing(w, Load(b, k, {}, map[]), n, nonblock, patience), b - Seen(w, k).hw;
            && r.next - b == Min(n, Max(0, 128 - lead))
            && |r.late| == Min(r.next - b, Max(0, -lead))
  {
    hide Seen, Booked;
    var start := FirstLook(w, k, b, nonblock, patience);
    BookNone(w, b, start);
    TurnsBook(w, b, Load(b, start, {}, map[]), n);
    SeenSteady(w, k, start, Writing(w, Load(b, k, {}, map[]), n, nonblock, patience).at);
    SteadyCount(w, b, Load(b, start, {}, map[]), n);
  }

  /* The race with the engine */

  // The engine has taken byte j of buffer b before it is stored, when filling begins
  // after access k.
  predicate CaughtAt(w: World, b: nat, k: nat, j: nat) { Moved(Seen(w, k + 1 + j)) > Offset(b, j) }

  ghost predicate Caught(w: World, b: nat, k: nat, n: nat) {
    exists j: nat | j < n :: CaughtAt(w, b, k, j)
  }

  // A buffer the engine has not come to when it is filled is not caught.
  lemma AheadIsSafe(w: World, b: nat, k: nat, n: nat)
    requires Moved(Seen(w, k + n)) <= Offset(b, 0)
    ensures !Caught(w, b, k, n)
  {
    hide Seen;
    forall j: nat | j < n
      ensures !CaughtAt(w, b, k, j)
    {
      SeenMonotone(w, k + 1 + j, k + n);
    }
  }

  lemma NotYetIsSafe(w: World, b: nat, k: nat, n: nat)
    requires Seen(w, k + n).done < b
    ensures !Caught(w, b, k, n)
  {
    hide Seen, Caught;
    SeenOrdered(w, k + n);
    AheadIsSafe(w, b, k, n);
  }

  // Filling a buffer further ahead than what the count lags and what completes meanwhile.
  lemma LeadIsEnough(w: World, b: nat, k: nat, latency: nat, c: nat)
    requires HandledWithin(w.events, latency) && latency < PERIOD - BUFFER_PER_IRQ
    requires Completions(w, k, BUFFER_SIZE) <= c && b > Seen(w, k).hw + BUFFER_PER_IRQ + latency + c
    ensures !Caught(w, b, k, BUFFER_SIZE)
  {
    hide Seen, HandledWithin, Caught;
    SeenLag(w, latency, k);
    NotYetIsSafe(w, b, k, BUFFER_SIZE);
  }

  // Of what a call took, whatever is then further ahead than the count lags is safe.
  lemma FarAheadIsSafe(w: World, first: nat, l: Load, latency: nat, b: nat)
    requires HandledWithin(w.events, latency) && latency < PERIOD - BUFFER_PER_IRQ
    requires Booked(w, first, l) && first <= b < l.next && b > Seen(w, l.at).hw + BUFFER_PER_IRQ + latency
    ensures b in l.fills && !Caught(w, b, l.fills[b], BUFFER_SIZE)
  {
    hide Seen, HandledWithin, Caught;
    SeenLag(w, latency, l.at);
    SeenMonotone(w, l.fills[b] + BUFFER_SIZE, l.at);
    NotYetIsSafe(w, b, l.fills[b], BUFFER_SIZE);
  }

  /* A writer that stays ahead */

  // If no more than `top` buffers complete until the loop is over, every buffer beyond
  // is safe, and with enough on offer the loop ends with the window full.
  lemma {:induction false} TurnsAhead(w: World, l: Load, n: nat, top: nat)
    requires Seen(w, Turns(w, l, n).at).done <= top && l.next + n > top + MARGIN
    ensures var r := Turns(w, l, n);
            && r.next - Seen(w, r.at).hw >= MARGIN && l.at <= r.at
            && (forall b | b in l.fills && b < l.next :: b in r.fills && r.fills[b] == l.fills[b])
            && forall b: nat | l.next <= b < r.next && b > top :: b in r.fills && !Caught(w, b, r.fills[b], BUFFER_SIZE)
    decreases n
  {
    hide Seen, Turns, Caught;
    var end := Turns(w, l, n).at;
    TurnsNext(w, l, n);
    SeenOrdered(w, end);
    if n > 0 && Room(w, l) {
      var t := Turn(w, l);
      TurnsAhead(w, t, n - 1, top);
      SeenMonotone(w, t.at, end);
      if l.next > top {
        TurnIsSafe(w, l, top);
      }
    }
  }

  lemma TurnIsSafe(w: World, l: Load, top: nat)
    requires Seen(w, Turn(w, l).at).done <= top && l.next > top
    ensures l.next in Turn(w, l).fills && !Caught(w, l.next, Turn(w, l).fills[l.next], BUFFER_SIZE)
  {
    hide Seen, Caught;
    SeenMonotone(w, l.at + 2, Turn(w, l).at);
    SeenOrdered(w, l.at + 2);
    NotYetIsSafe(w, l.next, l.at + 2, BUFFER_SIZE);
  }

  // The engine, as the count lags, is at least half a ring behind the driver.
  predicate Behind(w: World, b: nat, k: nat, latency: nat) {
    Seen(w, k).done + MARGIN <= b + BUFFER_PER_IRQ + latency
  }

  // While a call waits it comes no closer.
  lemma {:induction false} WaitBehind(w: World, k: nat, b: nat, patience: nat, latency: nat)
    requires HandledWithin(w.events, latency) && latency < PERIOD - BUFFER_PER_IRQ && Behind(w, b, k, latency)
    ensures Behind(w, b, WaitEnd(w, k, b, patience) - 1, latency)
    ensures Refused(w, k, b, false, patience) ==> Behind(w, b, WaitEnd(w, k, b, patience), latency)
    decreases patience
  {
    hide Seen, HandledWithin;
    SeenLag(w, latency, k + 1);
    if patience > 0 && b - Seen(w, k + 1).hw >= MARGIN {
      WaitBehind(w, k + 1, b, patience - 1, latency);
    }
  }

  // What completes from the last look that found no room to the end of the call.
  function CallLap(w: World, l: Load, n: nat, patience: nat): int {
    Seen(w, Writing(w, l, n, false, patience).at).done - Seen(w, WaitEnd(w, l.at, l.next, patience) - 1).done
  }

  // After a blocking call with a ring or more on offer the engine is behind, and all
  // buffers but those it passed while the first call was at work are safe.
  ghost predicate Ahead(w: World, l: Load, latency: nat) {
    if l.next == 0 then Seen(w, l.at).done == 0 else Behind(w, l.next, l.at, latency)
  }

  lemma WritingAhead(w: World, l: Load, n: nat, patience: nat, latency: nat, c: nat)
    requires HandledWithin(w.events, latency) && BUFFER_PER_IRQ + latency + c < MARGIN && n >= BUFFER_COUNT
    requires Ahead(w, l, latency)
    requires Refused(w, l.at, l.next, false, patience) || CallLap(w, l, n, patience) <= c
    ensures var r := Writing(w, l, n, false, patience);
            && Ahead(w, r, latency)
            && (forall b | b in l.fills && b < l.next :: b in r.fills && r.fills[b] == l.fills[b])
            && forall b: nat | l.next <= b < r.next && b > c :: b in r.fills && !Caught(w, b, r.fills[b], BUFFER_SIZE)
  {
    hide Seen, HandledWithin, Turns, WaitEnd, Caught;
    var start, r := WaitEnd(w, l.at, l.next, patience), Writing(w, l, n, false, patience);
    if l.next == 0 {
      WaitAtStart(w, l.at, patience);
    } else {
      WaitBehind(w, l.at, l.next, patience, latency);
    }
    if !Refused(w, l.at, l.next, false, patience) {
      TurnsAhead(w, l.(at := start), n, Seen(w, start - 1).done + c);
      SeenLag(w, latency, r.at);
    }
  }

  lemma WaitAtStart(w: World, k: nat, patience: nat)
    ensures WaitEnd(w, k, 0, patience) == k + 1 && !Refused(w, k, 0, false, patience)
  {
    hide Seen;
  }
}
