/** litepcie_play: a file, over and over, into the transmit stream. */
module Play {
  import opened Config
  import opened Bits
  import opened Engine
  import opened TxSchedule
  import opened TxRing
  import opened TxPort

  /* The refill arithmetic, by file size and position */

  datatype Refill = Refill(first: nat, second: nat, rewound: bool) {
    function Length(): nat { first + second }
  }

  // One buffer from position pos: fread, and at the end of the file rewind and
  // fread the rest, once.
  function RefillOf(size: nat, pos: nat): Refill
    requires pos <= size
  {
    var first := Min(BUFFER_SIZE, size - pos);
    if first < BUFFER_SIZE then Refill(first, Min(BUFFER_SIZE - first, size), true) else Refill(first, 0, false)
  }

  // Position before the k-th buffer is filled, and rewinds until then.
  function PosAt(size: nat, k: nat): (p: nat)
    ensures p <= size
  {
    if k == 0 then 0
    else
      var t := RefillOf(size, PosAt(size, k - 1));
      if t.rewound then t.second else PosAt(size, k - 1) + BUFFER_SIZE
  }

  function RewindsAt(size: nat, k: nat): nat {
    if k == 0 then 0
    else RewindsAt(size, k - 1) + (if RefillOf(size, PosAt(size, k - 1)).rewound then 1 else 0)
  }

  lemma Next(size: nat, k: nat)
    requires k > 0
    ensures var t := RefillOf(size, PosAt(size, k - 1));
            && PosAt(size, k) == (if t.rewound then t.second else PosAt(size, k - 1) + BUFFER_SIZE)
            && RewindsAt(size, k) == RewindsAt(size, k - 1) + (if t.rewound then 1 else 0)
  {
  }

  predicate Full(size: nat, k: nat) { RefillOf(size, PosAt(size, k)).Length() == BUFFER_SIZE }

  // A file of at least a buffer: k buffers are so many whole passes and a rest.
  lemma {:induction false} PassesAndRest(size: nat, k: nat)
    requires size >= BUFFER_SIZE
    ensures Offset(k, 0) == RewindsAt(size, k) * size + PosAt(size, k)
    ensures k > 0 ==> PosAt(size, k) > 0
    ensures Full(size, k)
  {
    if k > 0 {
      PassesAndRest(size, k - 1);
      assert (RewindsAt(size, k - 1) + 1) * size == RewindsAt(size, k - 1) * size + size;
    }
  }

  // A smaller file is rewound for every buffer, and one rewind is enough only up
  // to a certain position.
  lemma SmallTurn(size: nat, pos: nat)
    requires pos <= size < BUFFER_SIZE
    ensures RefillOf(size, pos).rewound
    ensures RefillOf(size, pos).Length() == BUFFER_SIZE <==> pos <= 2 * size - BUFFER_SIZE
    ensures RefillOf(size, pos).Length() == BUFFER_SIZE ==> RefillOf(size, pos).second == pos + (BUFFER_SIZE - size)
  {
  }

  // The position creeps up, so the first n buffers are full iff the last of them
  // still finds enough.
  lemma {:induction false} SmallFileFullIff(size: nat, n: nat)
    requires size < BUFFER_SIZE
    ensures (forall k: nat | k < n :: Full(size, k)) <==>
            n == 0 || (n - 1) * (BUFFER_SIZE - size) <= 2 * size - BUFFER_SIZE
    ensures (forall k: nat | k < n :: Full(size, k)) ==> PosAt(size, n) == n * (BUFFER_SIZE - size)
  {
    hide RefillOf;
    if n > 0 {
      SmallFileFullIff(size, n - 1);
      SmallTurn(size, PosAt(size, n - 1));
      var step, last := BUFFER_SIZE - size, n - 1;
      assert n * step == last * step + step;
      if forall k: nat | k < last :: Full(size, k) {
        assert (forall k: nat | k < n :: Full(size, k)) <==> Full(size, last);
      } else {
        assert last * step == (last - 1) * step + step;
        assert !forall k: nat | k < n :: Full(size, k);
      }
    }
  }

  // Every buffer of an endless playback is filled iff the file is at least one
  // buffer long; half a buffer, which one rewind could still fill, is not enough.
  lemma EveryBufferFullIff(size: nat)
    ensures (forall k: nat :: Full(size, k)) <==> size >= BUFFER_SIZE
  {
    hide PosAt, RefillOf, Full;
    if size >= BUFFER_SIZE {
      forall k: nat
        ensures Full(size, k)
      {
        PassesAndRest(size, k);
      }
    } else {
      var n := 2 * BUFFER_SIZE;
      SmallFileFullIff(size, n + 1);
      assert n * (BUFFER_SIZE - size) >= n by { assert n * (BUFFER_SIZE - size - 1) >= 0; }
    }
  }

  lemma HalfBufferFileFallsShort()
    ensures Full(4096, 0) && !Full(4096, 1)
  {
    assert PosAt(4096, 1) == RefillOf(4096, 0).second == 4096;
  }

  /* The schedule of a playback */

  // Played as often as wanted, once n buffers are filled.
  predicate Finished(size: nat, loops: nat, n: nat) { RewindsAt(size, n) >= Max(1, loops) }

  // One buffer is handed out and filled with its share of the file.
  function FillOne(g: Window, size: nat): Window
    requires g.available > 0
  {
    Loaded(g.(next := g.next + 1, available := g.available - 1), RefillOf(size, PosAt(size, g.next)).Length())
  }

  function FilledAll(g: Window, size: nat): Window
    decreases g.available
  {
    if g.available == 0 then g else FilledAll(FillOne(g, size), size)
  }

  lemma FilledAllNext(g: Window, size: nat)
    ensures FilledAll(g, size) == if g.available == 0 then g else FilledAll(FillOne(g, size), size)
  {
    hide FillOne;
  }

  function PlayRun(w: World, size: nat, loops: nat, turns: nat): Window {
    if turns == 0 then EMPTY
    else
      var g := PlayRun(w, size, loops, turns - 1);
      if Finished(size, loops, g.next) then g else FilledAll(Poll(w, g, false), size)
  }

  lemma PlayRunNext(w: World, size: nat, loops: nat, turns: nat)
    ensures PlayRun(w, size, loops, 0) == EMPTY
    ensures var g := PlayRun(w, size, loops, turns);
            PlayRun(w, size, loops, turns + 1) ==
            if Finished(size, loops, g.next) then g else FilledAll(Poll(w, g, false), size)
  {
    hide Poll, FilledAll, Finished;
  }

  // Once finished, nothing happens any more.
  lemma {:induction false} StaysFinished(w: World, size: nat, loops: nat, turns: nat, n: nat)
    requires Max(1, loops) <= RewindsAt(size, PlayRun(w, size, loops, turns).next)
    ensures PlayRun(w, size, loops, turns + n) == PlayRun(w, size, loops, turns)
  {
    hide PlayRun, Poll, FilledAll, RewindsAt;
    if n > 0 {
      StaysFinished(w, size, loops, turns, n - 1);
      PlayRunNext(w, size, loops, turns + n - 1);
    }
  }

  // What completes from the snapshot that grants a window to the time the following one
  // is filled, in turn t + 1. Sleeping in poll() is part of it.
  function PlayLap(w: World, size: nat, loops: nat, t: nat): int {
    Seen(w, PlayRun(w, size, loops, t + 2).at).done - Seen(w, PlayRun(w, size, loops, t).at + 1).done
  }

  /** The player stays ahead for so many turns: the handler is quick, and no more than c
      buffers complete from one grant to the next window filled, or until the first is. */
  ghost predicate StaysAhead(w: World, size: nat, loops: nat, turns: nat, latency: nat, c: nat) {
    && HandledWithin(w.events, latency) && BUFFER_PER_IRQ + latency + c < MARGIN
    && (turns > 0 ==> Seen(w, PlayRun(w, size, loops, 1).at).done <= c)
    && forall t: nat | t + 1 < turns :: PlayLap(w, size, loops, t) <= c
  }

  // Bytes of buffer b that come from the file.
  function Share(size: nat, b: nat): (n: nat)
    ensures n <= BUFFER_SIZE
  {
    RefillOf(size, PosAt(size, b)).Length()
  }

  // Filled before the engine comes to it.
  ghost predicate Safe(w: World, size: nat, starts: map<nat, nat>, b: nat) {
    b in starts && !Caught(w, b, starts[b], Share(size, b))
  }

  // If no more than `top` buffers complete until a window is filled, all beyond are safe.
  lemma {:induction false} FillsSafely(w: World, g: Window, size: nat, top: nat)
    requires Seen(w, FilledAll(g, size).at).done <= top
    ensures var r := FilledAll(g, size);
            && r.next == g.next + g.available && r.available == 0 && g.at <= r.at
            && (forall b | b in g.starts && b < g.next :: b in r.starts && r.starts[b] == g.starts[b])
            && forall b: nat | g.next <= b < r.next && b > top :: Safe(w, size, r.starts, b)
    decreases g.available
  {
    hide Seen, Share, FilledAll, Caught;
    FilledAllNext(g, size);
    if g.available > 0 {
      var t, end := FillOne(g, size), FilledAll(g, size).at;
      FillOneIs(g, size);
      FillsSafely(w, t, size, top);
      SeenMonotone(w, t.at, end);
      if g.next > top {
        NotYetIsSafe(w, g.next, g.at, Share(size, g.next));
      }
    }
  }

  lemma FillOneIs(g: Window, size: nat)
    requires g.available > 0
    ensures FillOne(g, size) ==
            Window(g.at + Share(size, g.next), g.next + 1, g.available - 1, g.starts[g.next := g.at])
  {
    hide RefillOf, PosAt;
  }

  // One turn that ends before the engine is at its window; `top` is how far it gets.
  lemma PlayTurn(w: World, g: Window, size: nat, latency: nat, top: nat)
    requires HandledWithin(w.events, latency) && latency < MARGIN
    requires g.available == 0 && g.next <= Seen(w, g.at).hw + MARGIN
    requires Seen(w, FilledAll(Poll(w, g, false), size).at).done <= top
    requires top < g.next || (g.next == 0 && top < MARGIN)
    ensures var r := FilledAll(Poll(w, g, false), size);
            && r.available == 0 && g.next <= r.next <= Seen(w, r.at).hw + MARGIN && Seen(w, r.at).done < r.next
            && Seen(w, g.at + 1).done + MARGIN <= r.next + BUFFER_PER_IRQ + latency
            && (forall b | b in g.starts && b < g.next :: b in r.starts && r.starts[b] == g.starts[b])
            && forall b: nat | g.next <= b < r.next && b > top :: Safe(w, size, r.starts, b)
  {
    hide Seen, HandledWithin, FilledAll, Safe;
    var p := Poll(w, g, false);
    var r := FilledAll(p, size);
    FillsSafely(w, p, size, top);
    SeenMonotone(w, g.at, g.at + 1);
    SeenMonotone(w, g.at + 1, g.at + 2);
    SeenMonotone(w, g.at + 2, r.at);
    SeenOrdered(w, r.at);
    SeenLag(w, latency, g.at + 1);
    SeenLag(w, latency, g.at + 2);
  }

  // A window never reaches further than half a ring ahead of the count.
  lemma {:induction false} PlayFits(w: World, size: nat, loops: nat, t: nat)
    ensures var g := PlayRun(w, size, loops, t);
            g.available == 0 && g.next <= Seen(w, g.at).hw + MARGIN
  {
    hide Seen, PlayRun, FilledAll, Finished;
    if t == 0 {
      PlayRunNext(w, size, loops, 0);
    } else {
      PlayFits(w, size, loops, t - 1);
      PlayRunNext(w, size, loops, t - 1);
      PollFits(w, PlayRun(w, size, loops, t - 1), size);
    }
  }

  lemma PollFits(w: World, g: Window, size: nat)
    requires g.available == 0 && g.next <= Seen(w, g.at).hw + MARGIN
    ensures var p := Poll(w, g, false);
            var r := FilledAll(p, size);
            r.available == 0 && r.next == p.next + p.available <= Seen(w, r.at).hw + MARGIN
  {
    hide Seen, FilledAll, Safe;
    var p := Poll(w, g, false);
    var r := FilledAll(p, size);
    FillsSafely(w, p, size, Seen(w, r.at).done);
    SeenMonotone(w, g.at, g.at + 1);
    SeenMonotone(w, g.at + 1, r.at);
    SeenMonotone(w, g.at, r.at);
  }

  /** What a turn of an unfinished playback fills: nothing if poll() finds no room, else all
      up to half a ring ahead of the driver's count at the snapshot. */
  lemma TurnFillsAll(w: World, size: nat, loops: nat, t: nat)
    requires RewindsAt(size, PlayRun(w, size, loops, t).next) < Max(1, loops)
    ensures var g, r := PlayRun(w, size, loops, t), PlayRun(w, size, loops, t + 1);
            if g.next - Seen(w, g.at + 2).hw >= 128 then r == g.(at := g.at + 2)
            else Seen(w, g.at + 1).hw + 128 - g.next < 0x1_0000_0000 ==> r.next == Seen(w, g.at + 1).hw + 128
  {
    hide Seen, PlayRun, Poll, FilledAll;
    var g := PlayRun(w, size, loops, t);
    PlayFits(w, size, loops, t);
    PlayRunNext(w, size, loops, t);
    PollGrants(w, g, false);
    PollFits(w, g, size);
    FilledAllNext(g.(at := g.at + 2), size);
  }

  // Between two turns of a player that stays ahead.
  ghost predicate Leads(w: World, size: nat, loops: nat, t: nat, latency: nat, c: nat) {
    var g := PlayRun(w, size, loops, t);
    && g.available == 0 && g.next <= Seen(w, g.at).hw + MARGIN
    && (if t == 0 then g == EMPTY else Seen(w, g.at).done < g.next && Granted(w, size, loops, t, latency))
    && forall b: nat | c < b < g.next :: Safe(w, size, g.starts, b)
  }

  // The last snapshot is half a ring back, less the lag.
  predicate Granted(w: World, size: nat, loops: nat, t: nat, latency: nat)
    requires t > 0
  {
    var e := PlayRun(w, size, loops, t - 1);
    Finished(size, loops, e.next) ||
    Seen(w, e.at + 1).done + MARGIN <= PlayRun(w, size, loops, t).next + BUFFER_PER_IRQ + latency
  }

  lemma TurnLeads(w: World, size: nat, loops: nat, turns: nat, latency: nat, c: nat, t: nat)
    requires StaysAhead(w, size, loops, turns, latency, c) && t < turns && Leads(w, size, loops, t, latency, c)
    requires !Finished(size, loops, PlayRun(w, size, loops, t).next)
    ensures Leads(w, size, loops, t + 1, latency, c)
  {
    hide Seen, HandledWithin, PlayRun, Poll, FilledAll, Finished, Safe;
    var g, r := PlayRun(w, size, loops, t), PlayRun(w, size, loops, t + 1);
    PlayRunNext(w, size, loops, t);
    var top := c;
    if t > 0 {
      PlayRunNext(w, size, loops, t - 1);
      assert PlayLap(w, size, loops, t - 1) <= c;
      top := Seen(w, PlayRun(w, size, loops, t - 1).at + 1).done + c;
    }
    PlayTurn(w, g, size, latency, top);
    forall b: nat | c < b < r.next
      ensures Safe(w, size, r.starts, b)
    {
      if b < g.next {
        StillSafe(w, size, g.starts, r.starts, b);
      }
    }
  }

  lemma StillSafe(w: World, size: nat, starts: map<nat, nat>, starts': map<nat, nat>, b: nat)
    requires Safe(w, size, starts, b) && (b in starts ==> b in starts' && starts'[b] == starts[b])
    ensures Safe(w, size, starts', b)
  {
  }

  /** A player that stays ahead has every buffer filled before the engine gets there, but
      for the c + 1 first, while the first window is being filled. */
  lemma {:induction false} PlayLeads(w: World, size: nat, loops: nat, turns: nat, latency: nat, c: nat, t: nat)
    requires StaysAhead(w, size, loops, turns, latency, c) && t <= turns
    ensures Leads(w, size, loops, t, latency, c)
    decreases t
  {
    hide StaysAhead, PlayRun, Poll, FilledAll, Finished, Safe;
    if t == 0 {
      PlayRunNext(w, size, loops, 0);
    } else {
      PlayLeads(w, size, loops, turns, latency, c, t - 1);
      PlayRunNext(w, size, loops, t - 1);
      if Finished(size, loops, PlayRun(w, size, loops, t - 1).next) {
        NotFinishedAtOnce(w, size, loops);
      } else {
        TurnLeads(w, size, loops, turns, latency, c, t - 1);
      }
    }
  }

  lemma NotFinishedAtOnce(w: World, size: nat, loops: nat)
    ensures !Finished(size, loops, PlayRun(w, size, loops, 0).next)
  {
  }

  /* The bytes */

  function Chunk(file: seq<byte>, k: nat): seq<byte> {
    var pos := PosAt(|file|, k);
    var t := RefillOf(|file|, pos);
    file[pos..pos + t.first] + file[..t.second]
  }

  // The file repeated forever.
  function Looped(file: seq<byte>, i: nat): byte
    requires file != []
  {
    file[i % |file|]
  }

  lemma IndexInPass(off: nat, size: nat, passes: nat, pos: nat)
    requires 0 < size && off == passes * size + pos && pos < 2 * size
    ensures off % size == if pos < size then pos else pos - size
  {
    if pos < size {
      DivModUnique(off, size, passes, pos);
    } else {
      assert size * (passes + 1) == passes * size + size;
      DivModUnique(off, size, passes + 1, pos - size);
    }
  }

  lemma ByteIsLooped(file: seq<byte>, k: nat, j: nat)
    requires |file| >= BUFFER_SIZE && j < BUFFER_SIZE == |Chunk(file, k)|
    ensures Chunk(file, k)[j] == Looped(file, Offset(k, j))
  {
    hide PosAt, RewindsAt;
    var size, pos := |file|, PosAt(|file|, k);
    PassesAndRest(size, k);
    IndexInPass(Offset(k, j), size, RewindsAt(size, k), pos + j);
    var t := RefillOf(size, pos);
    assert Chunk(file, k)[j] == if j < t.first then file[pos + j] else file[j - t.first];
  }

  lemma ChunkIsLooped(file: seq<byte>, k: nat)
    requires |file| >= BUFFER_SIZE
    ensures |Chunk(file, k)| == BUFFER_SIZE
    ensures forall j: nat | j < BUFFER_SIZE :: Chunk(file, k)[j] == Looped(file, Offset(k, j))
  {
    hide Chunk, Looped, PosAt;
    assert |Chunk(file, k)| == BUFFER_SIZE by { ChunkLength(file, k); PassesAndRest(|file|, k); }
    forall j: nat | j < BUFFER_SIZE
      ensures Chunk(file, k)[j] == Looped(file, Offset(k, j))
    {
      ByteIsLooped(file, k, j);
    }
  }

  lemma ChunkLength(file: seq<byte>, k: nat)
    ensures |Chunk(file, k)| == RefillOf(|file|, PosAt(|file|, k)).Length() <= BUFFER_SIZE
  {
  }

  // How many bytes of the file repeated lie before buffer k's share.
  function PlayedBefore(size: nat, k: nat): nat { RewindsAt(size, k) * size + PosAt(size, k) }

  /** Whatever the file's length, each buffer's share goes on where the last one ended. It
      is a whole buffer for a file of 8192 bytes or more; from a smaller one it is what is
      left of this pass and at most one more. */
  lemma ShareGoesOn(file: seq<byte>, k: nat)
    requires file != []
    ensures var size, share := |file|, Chunk(file, k);
            && PlayedBefore(size, 0) == 0 && PlayedBefore(size, k + 1) == PlayedBefore(size, k) + |share|
            && |share| == (if size >= 8192 then 8192 else Min(8192, 2 * size - PosAt(size, k)))
            && forall j: nat | j < |share| :: share[j] == Looped(file, PlayedBefore(size, k) + j)
  {
    hide PosAt, RewindsAt;
    var size, pos, r := |file|, PosAt(|file|, k), RewindsAt(|file|, k);
    NothingFilled(file);
    Next(size, k + 1);
    assert (r + 1) * size == r * size + size;
    var t := RefillOf(size, pos);
    forall j: nat | j < |Chunk(file, k)|
      ensures Chunk(file, k)[j] == Looped(file, PlayedBefore(size, k) + j)
    {
      assert Chunk(file, k)[j] == if j < t.first then file[pos + j] else file[j - t.first];
      IndexInPass(PlayedBefore(size, k) + j, size, r, pos + j);
    }
  }

  /** Filling a window takes one access for each byte: buffer b is begun when the shares of
      all before it are stored. */
  lemma {:induction false} FilledAt(g: Window, size: nat)
    ensures var r, start := FilledAll(g, size), PlayedBefore(size, g.next);
            && r.next == g.next + g.available && r.at == g.at + PlayedBefore(size, r.next) - start
            && (forall b: nat | g.next <= b < r.next ::
                  b in r.starts && r.starts[b] == g.at + PlayedBefore(size, b) - start)
            && forall b | b < g.next && b in g.starts :: b in r.starts && r.starts[b] == g.starts[b]
    decreases g.available
  {
    hide FilledAll, PosAt, RewindsAt, PlayedBefore;
    FilledAllNext(g, size);
    if g.available > 0 {
      FillOneIs(g, size);
      ShareCounts(size, g.next);
      FilledAt(FillOne(g, size), size);
    }
  }

  lemma ShareCounts(size: nat, k: nat)
    ensures PlayedBefore(size, k + 1) == PlayedBefore(size, k) + Share(size, k)
  {
    hide PosAt, RewindsAt;
    Next(size, k + 1);
    assert (RewindsAt(size, k) + 1) * size == RewindsAt(size, k) * size + size;
  }

  // What the buffers begun at these accesses are filled with.
  function FileFills(file: seq<byte>, starts: map<nat, nat>): Fills {
    map b | b in starts :: Fill(starts[b], Chunk(file, b))
  }

  lemma FileFillsNext(file: seq<byte>, fills: Fills, b: nat, k: nat)
    requires fills == FileFills(file, Starts(fills))
    ensures fills[b := Fill(k, Chunk(file, b))] == FileFills(file, Starts(fills[b := Fill(k, Chunk(file, b))]))
  {
    hide Chunk;
  }

  /** The file being played. */
  class File {
    const content: seq<byte>
    var pos: nat
    var eof: bool

    ghost predicate Valid()
      reads this
    {
      pos <= |content| && (eof ==> pos == |content|)
    }

    constructor (content: seq<byte>)
      ensures Valid() && pos == 0 && this.content == content
    {
      this.content, pos, eof := content, 0, false;
    }

    // fread(.., 1, n, fo)
    method Read(n: nat) returns (chunk: seq<byte>)
      requires Valid()
      modifies this
      ensures Valid() && pos == old(pos) + Min(n, |content| - old(pos)) && chunk == content[old(pos)..pos]
      ensures eof <==> old(eof) || |chunk| < n
    {
      var m := Min(n, |content| - pos);
      chunk := content[pos..pos + m];
      pos := pos + m;
      eof := eof || m < n;
    }

    method Rewind()
      modifies this
      ensures Valid() && pos == 0 && !eof
    {
      pos, eof := 0, false;
    }
  }

  class Player {
    const port: Port
    const fo: File
    const loops: nat
    var currentLoop: nat
    var keepRunning: bool

    ghost predicate Valid()
      reads this, fo, port, port.chan, port.chan.ring
    {
      && port.Valid() && !port.filling && port.dropped == 0
      && fo.Valid() && fo.pos == PosAt(|fo.content|, port.next)
      && currentLoop == RewindsAt(|fo.content|, port.next)
      && (keepRunning <==> currentLoop < Max(1, loops))
      && port.chan.fills == FileFills(fo.content, Starts(port.chan.fills))
    }

    constructor (port: Port, fo: File, loops: nat)
      requires port.Valid() && !port.filling && port.State() == EMPTY && port.dropped == 0 && port.chan.fills == map[]
      requires fo.Valid() && fo.pos == 0
      ensures Valid() && this.port == port && this.fo == fo && this.loops == loops
    {
      this.port, this.fo, this.loops := port, fo, loops;
      currentLoop, keepRunning := 0, true;
    }

    // The next buffer's worth, as far as one rewind gets.
    method ReadFile() returns (data: seq<byte>)
      requires port.next > 0 && fo.Valid() && fo.pos == PosAt(|fo.content|, port.next - 1)
      requires currentLoop == RewindsAt(|fo.content|, port.next - 1)
      requires keepRunning <==> currentLoop < Max(1, loops)
      modifies this`currentLoop, this`keepRunning, fo
      ensures fo.Valid() && fo.pos == PosAt(|fo.content|, port.next)
      ensures currentLoop == RewindsAt(|fo.content|, port.next)
      ensures keepRunning <==> currentLoop < Max(1, loops)
      ensures data == Chunk(fo.content, port.next - 1) && |data| <= BUFFER_SIZE
    {
      hide PosAt, RewindsAt;
      Next(|fo.content|, port.next);
      data := fo.Read(BUFFER_SIZE);
      if fo.eof {
        currentLoop := currentLoop + 1;
        if currentLoop >= loops {
          keepRunning := false;
        }
        fo.Rewind();
        var rest := fo.Read(BUFFER_SIZE - |data|);
        data := data + rest;
      }
    }

    // Fill all buffers granted.
    method FillAll()
      requires Valid()
      modifies this`currentLoop, this`keepRunning, fo, port, port.chan, port.chan.ring
      ensures Valid()
      ensures port.State() == FilledAll(old(port.State()), |fo.content|) && port.available == 0
    {
      hide Chunk, PosAt, RewindsAt, TxChannel.Valid, Continuous, FilledAll, RefillOf, FileFills, Starts;
      while true
        invariant Valid()
        invariant FilledAll(port.State(), |fo.content|) == FilledAll(old(port.State()), |fo.content|)
        decreases port.available
      {
        FilledAllNext(port.State(), |fo.content|);
        ChunkLength(fo.content, port.next);
        var bufWr := port.NextWriteBuffer();
        if bufWr.None? {
          break;
        }
        var data := ReadFile();
        FileFillsNext(fo.content, port.chan.fills, port.next - 1, port.chan.accesses);
        port.Store(bufWr.value, data);
      }
    }

    // The loop of litepcie_play; SIGINT comes after `patience` turns at the latest.
    method Loop(patience: nat)
      requires Valid() && port.State() == EMPTY
      modifies this`currentLoop, this`keepRunning, fo, port, port.chan, port.chan.ring
      ensures Valid() && port.State() == PlayRun(port.chan.w, |fo.content|, loops, patience)
    {
      hide FileFills, Starts, PosAt, RewindsAt, TxChannel.Valid, Continuous, Poll, PlayRun, FilledAll;
      PlayRunNext(port.chan.w, |fo.content|, loops, 0);
      var turns := 0;
      while keepRunning && turns < patience
        invariant Valid() && turns <= patience && port.available == 0
        invariant port.State() == PlayRun(port.chan.w, |fo.content|, loops, turns)
      {
        PlayRunNext(port.chan.w, |fo.content|, loops, turns);
        var timedOut := port.Process(false);
        FillAll();
        turns := turns + 1;
      }
      if !keepRunning {
        StaysFinished(port.chan.w, |fo.content|, loops, turns, patience - turns);
      }
    }
  }

  ghost predicate PlayedFrom(sent: seq<byte>, file: seq<byte>, start: nat)
    requires file != []
  {
    forall o: nat {:trigger Looped(file, o)} | start <= o < |sent| :: sent[o] == Looped(file, o)
  }

  // Of a buffer filled in time the FPGA sends the share of the file.
  ghost predicate ShareSent(w: World, sent: seq<byte>, file: seq<byte>, starts: map<nat, nat>, b: nat) {
    Safe(w, |file|, starts, b) ==>
      forall j: nat {:trigger Offset(b, j)} | j < |Chunk(file, b)| && Offset(b, j) < |sent| ::
        sent[Offset(b, j)] == Chunk(file, b)[j]
  }

  lemma SafeIsShareSent(w: World, sent: seq<byte>, file: seq<byte>, starts: map<nat, nat>, b: nat)
    requires SentIs(w, sent, FileFills(file, starts))
    ensures ShareSent(w, sent, file, starts, b)
  {
    hide SentIs, Chunk;
    if Safe(w, |file|, starts, b) {
      ChunkLength(file, b);
      forall j: nat | j < |Chunk(file, b)| && Offset(b, j) < |sent|
        ensures sent[Offset(b, j)] == Chunk(file, b)[j]
      {
        assert !CaughtAt(w, b, starts[b], j);
        SafeIsSent(w, sent, FileFills(file, starts), b, j);
      }
    }
  }

  // The shares of a file of a buffer or more make up the file repeated.
  lemma SharesAreLooped(w: World, file: seq<byte>, loops: nat, turns: nat, sent: seq<byte>, latency: nat, c: nat)
    requires |file| >= BUFFER_SIZE && Leads(w, |file|, loops, turns, latency, c)
    requires var g := PlayRun(w, |file|, loops, turns);
             && |sent| == Moved(Seen(w, g.at))
             && forall b: nat :: ShareSent(w, sent, file, g.starts, b)
    ensures PlayedFrom(sent, file, Offset(c + 1, 0))
  {
    hide Chunk, Looped, Seen, Safe, PlayRun;
    var g := PlayRun(w, |file|, loops, turns);
    SeenOrdered(w, g.at);
    forall o: nat | Offset(c + 1, 0) <= o < |sent|
      ensures sent[o] == Looped(file, o)
    {
      var b, j := o / BUFFER_SIZE, o % BUFFER_SIZE;
      SeenOrdered(w, 0);
      PlayRunNext(w, |file|, loops, 0);
      assert o == Offset(b, j) && c < b < g.next;
      ChunkIsLooped(file, b);
      assert ShareSent(w, sent, file, g.starts, b);
    }
  }

  /** litepcie_play over the mapped ring from start to end, for every file and every
      interleaving of the engine and the interrupt handler with the software. */
  method PlayFile(w: World, content: seq<byte>, loops: nat, patience: nat)
    returns (sent: seq<byte>, currentLoop: nat, complete: bool)
    ensures var g := PlayRun(w, |content|, loops, patience);
            && currentLoop == RewindsAt(|content|, g.next) && (complete <==> Max(1, loops) <= currentLoop)
            // Every byte the FPGA sends; and of the buffers filled in time the shares of the file.
            && |sent| == Moved(Seen(w, g.at)) && SentIs(w, sent, FileFills(content, g.starts))
            && (forall b: nat :: ShareSent(w, sent, content, g.starts, b))
            // A file of a buffer or more: whole passes and a rest have been filled.
            && (|content| >= BUFFER_SIZE && g.next > 0 ==>
                  currentLoop * |content| < Offset(g.next, 0) <= (currentLoop + 1) * |content|)
    // Such a file is sent over and over, from the buffer after the first c + 1 on.
    ensures |content| >= BUFFER_SIZE ==>
              forall latency: nat, c: nat | StaysAhead(w, |content|, loops, patience, latency, c) ::
                PlayedFrom(sent, content, Offset(c + 1, 0))
  {
    hide PosAt, RewindsAt, Wired, SentIs, ShareSent, FileFills, Starts, Continuous, Run, Clock, PlayRun, StaysAhead,
      Leads, PlayedFrom;
    var port := new Port(w);
    var fo := new File(content);
    NothingFilled(content);
    var player := new Player(port, fo, loops);
    player.Loop(patience);
    sent, currentLoop, complete := port.chan.sent, player.currentLoop, !player.keepRunning;
    WiredSent(port.chan.ring[..], w, sent, port.chan.fills, port.chan.frontier, port.chan.done, port.chan.accesses);
    ghost var g := PlayRun(w, |content|, loops, patience);
    forall b: nat
      ensures ShareSent(w, sent, content, g.starts, b)
    {
      SafeIsShareSent(w, sent, content, g.starts, b);
    }
    if |content| >= BUFFER_SIZE {
      if g.next > 0 {
        FilledSoFar(content, g.next);
      }
      forall latency: nat, c: nat | StaysAhead(w, |content|, loops, patience, latency, c)
        ensures PlayedFrom(sent, content, Offset(c + 1, 0))
      {
        PlayLeads(w, |content|, loops, patience, latency, c, patience);
        SharesAreLooped(w, content, loops, patience, sent, latency, c);
      }
    }
  }

  lemma NothingFilled(file: seq<byte>)
    ensures PosAt(|file|, 0) == 0 && RewindsAt(|file|, 0) == 0 && map[] == FileFills(file, Starts(map[]))
  {
  }

  lemma FilledSoFar(file: seq<byte>, k: nat)
    requires |file| >= BUFFER_SIZE && k > 0
    ensures RewindsAt(|file|, k) * |file| < Offset(k, 0) <= (RewindsAt(|file|, k) + 1) * |file|
  {
    hide RewindsAt, PosAt;
    PassesAndRest(|file|, k);
    assert (RewindsAt(|file|, k) + 1) * |file| == RewindsAt(|file|, k) * |file| + |file|;
  }
}
