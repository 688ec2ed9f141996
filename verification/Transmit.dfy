/** A whole transmit session through write(): any number of calls with any data. */
module Transmit {
  import opened Config
  import opened Engine
  import opened Memory
  import opened TxSchedule
  import opened TxRing

  /** The calls, the way they are made, and the world they are made in. */
  datatype Session = Session(w: World, offers: seq<seq<byte>>, nonblock: bool, patience: nat)

  // Where the driver stands after n calls; `late` and `fills` are of the last one.
  function SessionRun(s: Session, n: nat): Load
    requires n <= |s.offers|
  {
    if n == 0 then Load(0, 0, {}, map[])
    else
      var l := SessionRun(s, n - 1);
      Writing(s.w, Load(l.next, l.at, {}, map[]), |s.offers[n - 1]| / BUFFER_SIZE, s.nonblock, s.patience)
  }

  // All buffers filled by the first n calls, with the data offered for their place.
  function SessionFills(s: Session, n: nat): Fills
    requires n <= |s.offers|
  {
    if n == 0 then map[]
    else SessionFills(s, n - 1) + NewFills(s.offers[n - 1], SessionRun(s, n - 1).next, SessionRun(s, n).fills)
  }

  lemma SessionNext(s: Session, n: nat)
    requires n < |s.offers|
    ensures SessionRun(s, 0) == Load(0, 0, {}, map[]) && SessionFills(s, 0) == map[]
    ensures var l := SessionRun(s, n);
            SessionRun(s, n + 1) ==
            Writing(s.w, Load(l.next, l.at, {}, map[]), |s.offers[n]| / BUFFER_SIZE, s.nonblock, s.patience)
    ensures SessionFills(s, n + 1) ==
            SessionFills(s, n) + NewFills(s.offers[n], SessionRun(s, n).next, SessionRun(s, n + 1).fills)
  {
    hide Writing, NewFills;
  }

  // What call i returned.
  ghost predicate Returned(s: Session, i: nat, ret: int)
    requires i < |s.offers|
  {
    var l, r := SessionRun(s, i), SessionRun(s, i + 1);
    ret == if !Refused(s.w, l.at, l.next, s.nonblock, s.patience) then BUFFER_SIZE * (r.next - l.next)
           else if s.nonblock then -EAGAIN else -ERESTARTSYS
  }

  // Call i took buffer b of the stream.
  predicate TookBuffer(s: Session, i: nat, b: nat)
    requires i < |s.offers|
  {
    SessionRun(s, i).next <= b < SessionRun(s, i + 1).next
  }

  lemma {:induction false} NextGrows(s: Session, i: nat, n: nat)
    requires i <= n <= |s.offers|
    ensures SessionRun(s, i).next <= SessionRun(s, n).next
    ensures i < n ==> SessionRun(s, i + 1).next <= SessionRun(s, n).next
    decreases n
  {
    hide Writing;
    if i < n {
      NextGrows(s, i, n - 1);
    }
  }

  // Every buffer of the stream was taken by exactly one call.
  lemma {:induction false} TakenByOne(s: Session, n: nat, b: nat) returns (i: nat)
    requires n <= |s.offers| && b < SessionRun(s, n).next
    ensures i < n
    ensures forall k: nat | k < n :: TookBuffer(s, k, b) <==> k == i
  {
    hide Writing;
    if n > 0 {
      if b < SessionRun(s, n - 1).next {
        i := TakenByOne(s, n - 1, b);
      } else {
        i := n - 1;
        forall k: nat | k < n
          ensures TookBuffer(s, k, b) <==> k == i
        {
          NextGrows(s, k, n - 1);
        }
      }
    }
  }

  // What call i filled buffer b with, and when.
  ghost predicate FilledBy(s: Session, i: nat, b: nat, fills: Fills)
    requires i < |s.offers|
  {
    var first, starts := SessionRun(s, i).next, SessionRun(s, i + 1).fills;
    && first <= b && Offset(b - first + 1, 0) <= |s.offers[i]| && b in starts && b in fills
    && fills[b] == Fill(starts[b], s.offers[i][Offset(b - first, 0)..Offset(b - first + 1, 0)])
  }

  lemma CallBooks(s: Session, i: nat)
    requires i < |s.offers|
    ensures var l, r := SessionRun(s, i), SessionRun(s, i + 1);
            && Booked(s.w, l.next, r) && r.next <= l.next + |s.offers[i]| / BUFFER_SIZE
            && forall b | b in r.fills :: TookBuffer(s, i, b)
  {
    hide Writing, SessionRun;
    var l := SessionRun(s, i);
    SessionNext(s, i);
    WritingBooks(s.w, l.at, l.next, |s.offers[i]| / BUFFER_SIZE, s.nonblock, s.patience);
  }

  lemma {:induction false} FillsStay(s: Session, n: nat, i: nat, b: nat)
    requires i < n <= |s.offers| && b in SessionRun(s, i + 1).fills
    ensures FilledBy(s, i, b, SessionFills(s, n))
    decreases n
  {
    hide SessionRun, SessionFills, Booked;
    SessionNext(s, n - 1);
    CallBooks(s, i);
    CallBooks(s, n - 1);
    if i < n - 1 {
      FillsStay(s, n - 1, i, b);
      NextGrows(s, i, n - 1);
    } else {
      NewFillsAt(s.offers[i], SessionRun(s, i).next, SessionRun(s, n).fills, b);
    }
  }

  lemma NewFillsAt(data: seq<byte>, first: nat, starts: map<nat, nat>, b: nat)
    requires b in starts && first <= b < first + |data| / BUFFER_SIZE
    ensures Offset(b - first + 1, 0) <= |data| && b in NewFills(data, first, starts)
    ensures NewFills(data, first, starts)[b] == Fill(starts[b], data[Offset(b - first, 0)..Offset(b - first + 1, 0)])
  {
  }

  // If call i filled buffer b without being caught, and the FPGA is past it, it has sent
  // what was offered.
  ghost predicate SentOne(s: Session, sent: seq<byte>, i: nat, b: nat) {
    i < |s.offers| && Offset(b + 1, 0) <= |sent| && Safe(s, i, b) ==> Sent(s, sent, i, b)
  }

  ghost predicate Safe(s: Session, i: nat, b: nat)
    requires i < |s.offers|
  {
    var starts := SessionRun(s, i + 1).fills;
    b in starts && !Caught(s.w, b, starts[b], BUFFER_SIZE)
  }

  ghost predicate Sent(s: Session, sent: seq<byte>, i: nat, b: nat)
    requires i < |s.offers| && Offset(b + 1, 0) <= |sent|
  {
    var first := SessionRun(s, i).next;
    && first <= b && Offset(b - first + 1, 0) <= |s.offers[i]|
    && sent[Offset(b, 0)..Offset(b + 1, 0)] == s.offers[i][Offset(b - first, 0)..Offset(b - first + 1, 0)]
  }

  // Buffer b, once passed, was sent as offered by the call that took it.
  ghost predicate SentAsOffered(s: Session, sent: seq<byte>, b: nat) {
    Offset(b + 1, 0) <= |sent| ==> exists i: nat :: i < |s.offers| && TookBuffer(s, i, b) && Sent(s, sent, i, b)
  }

  lemma SafeIsSentOne(s: Session, sent: seq<byte>, i: nat, b: nat)
    requires SentIs(s.w, sent, SessionFills(s, |s.offers|))
    ensures SentOne(s, sent, i, b)
  {
    hide SessionRun, SessionFills, SentIs;
    if i < |s.offers| && Offset(b + 1, 0) <= |sent| && Safe(s, i, b) {
      var fills := SessionFills(s, |s.offers|);
      FillsStay(s, |s.offers|, i, b);
      forall j: nat | j < BUFFER_SIZE
        ensures sent[Offset(b, 0)..Offset(b + 1, 0)][j] == fills[b].data[j]
      {
        assert !CaughtAt(s.w, b, fills[b].start, j);
        SafeIsSent(s.w, sent, fills, b, j);
        assert Offset(b, j) == Offset(b, 0) + j;
      }
    }
  }

  /* A session that stays ahead */

  /** Every call blocks and offers a ring or more, the handler is quick, and so is the
      driver: no more than c buffers complete from the last look that found no room to
      the end of the call, however long the call has waited before. */
  ghost predicate StaysAhead(s: Session, latency: nat, c: nat) {
    && !s.nonblock && (forall i: nat | i < |s.offers| :: |s.offers[i]| >= RING_BYTES)
    && HandledWithin(s.w.events, latency) && BUFFER_PER_IRQ + latency + c < MARGIN
    && forall i: nat | i < |s.offers| :: QuickCall(s, i, c)
  }

  ghost predicate QuickCall(s: Session, i: nat, c: nat)
    requires i < |s.offers|
  {
    var l := SessionRun(s, i);
    Refused(s.w, l.at, l.next, false, s.patience) ||
    CallLap(s.w, Load(l.next, l.at, {}, map[]), |s.offers[i]| / BUFFER_SIZE, s.patience) <= c
  }

  lemma {:induction false} SessionAhead(s: Session, n: nat, latency: nat, c: nat)
    requires n <= |s.offers| && StaysAhead(s, latency, c)
    ensures Ahead(s.w, SessionRun(s, n), latency)
    ensures forall i: nat, b: nat | i < n && TookBuffer(s, i, b) && b > c :: Safe(s, i, b)
  {
    hide Writing, Seen, Refused, HandledWithin, SessionRun, Caught;
    if n == 0 {
      SeenOrdered(s.w, 0);
      NoCall(s);
    } else {
      SessionAhead(s, n - 1, latency, c);
      SessionNext(s, n - 1);
      var l := SessionRun(s, n - 1);
      assert QuickCall(s, n - 1, c);
      WritingAhead(s.w, Load(l.next, l.at, {}, map[]), |s.offers[n - 1]| / BUFFER_SIZE, s.patience, latency, c);
    }
  }

  lemma NoCall(s: Session)
    ensures SessionRun(s, 0) == Load(0, 0, {}, map[]) && SessionFills(s, 0) == map[]
  {
  }

  // What the FPGA has passed was taken by some call.
  lemma PassedIsTaken(s: Session, latency: nat, c: nat, b: nat)
    requires StaysAhead(s, latency, c) && Ahead(s.w, SessionRun(s, |s.offers|), latency)
    requires b > c && Offset(b + 1, 0) <= Moved(Seen(s.w, SessionRun(s, |s.offers|).at))
    ensures b < SessionRun(s, |s.offers|).next
  {
    hide Seen, SessionRun, HandledWithin, QuickCall;
    SeenOrdered(s.w, SessionRun(s, |s.offers|).at);
  }

  /** For every world, and every sequence of calls: what they return, which buffers they
      take and fill, and every byte the FPGA sends. Of a buffer filled before the FPGA
      comes to it that is exactly what was offered; and if the session stays ahead, so is
      everything sent after the first c + 1 buffers. */
  method RunSession(s: Session) returns (sent: seq<byte>, rets: seq<int>)
    ensures |rets| == |s.offers| && forall i: nat | i < |s.offers| :: Returned(s, i, rets[i])
    ensures |sent| == Moved(Seen(s.w, SessionRun(s, |s.offers|).at))
    ensures SentIs(s.w, sent, SessionFills(s, |s.offers|))
    ensures forall i: nat, b: nat :: SentOne(s, sent, i, b)
    ensures forall latency: nat, c: nat | StaysAhead(s, latency, c) ::
              forall b: nat | b > c :: SentAsOffered(s, sent, b)
  {
    hide Wired, Run, Clock, Quiet, SessionRun, SessionFills, StaysAhead, Writing, Refused, Sent, Safe, NewFills;
    var chan := new TxChannel(s.w);
    rets := [];
    NoCall(s);
    for i := 0 to |s.offers|
      invariant chan.Valid() && chan.Synced() && |rets| == i && fresh(chan) && fresh(chan.ring) && chan.w == s.w
      invariant chan.readerSwCount == SessionRun(s, i).next && chan.accesses == SessionRun(s, i).at
      invariant forall k: nat | k < i :: Returned(s, k, rets[k])
      invariant chan.fills == SessionFills(s, i)
    {
      var data := new byte[|s.offers[i]|](k requires 0 <= k < |s.offers[i]| => s.offers[i][k]);
      assert data[..] == s.offers[i];
      SessionNext(s, i);
      var ret, underflows := chan.Write(data, |s.offers[i]|, s.nonblock, s.patience);
      rets := rets + [ret];
    }
    sent := chan.sent;
    WiredSent(chan.ring[..], s.w, sent, chan.fills, chan.frontier, chan.done, chan.accesses);
    forall i: nat, b: nat
      ensures SentOne(s, sent, i, b)
    {
      SafeIsSentOne(s, sent, i, b);
    }
    forall latency: nat, c: nat | StaysAhead(s, latency, c)
      ensures forall b: nat | b > c :: SentAsOffered(s, sent, b)
    {
      SessionAhead(s, |s.offers|, latency, c);
      forall b: nat | b > c
        ensures SentAsOffered(s, sent, b)
      {
        if Offset(b + 1, 0) <= |sent| {
          PassedIsTaken(s, latency, c, b);
          var i := TakenByOne(s, |s.offers|, b);
          assert SentOne(s, sent, i, b);
        }
      }
    }
  }
}
