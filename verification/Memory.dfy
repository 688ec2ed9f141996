/** The 256 DMA buffers of a direction as one stretch of bytes, and which bytes
    of an endless stream it holds. Buffer b of the stream uses slot b mod 256. */
module Memory {
  import opened Config

  const RING_BYTES: nat := BUFFER_COUNT * BUFFER_SIZE

  // Where byte j of stream buffer b is kept.
  function Address(b: nat, j: nat): (a: nat)
    requires j < BUFFER_SIZE
    ensures a < RING_BYTES
  {
    Slot(b) * BUFFER_SIZE + j
  }

  // Byte j of buffer b was moved in, and its address has not been reused,
  // when `moved` bytes were moved in all.
  predicate Held(moved: nat, b: nat, j: nat) {
    Offset(b, j) < moved <= Offset(b, j) + RING_BYTES
  }

  type Stream = nat -> byte

  // Every byte that should be held is there.
  ghost predicate Holds(mem: seq<byte>, stream: Stream, moved: nat) {
    && |mem| == RING_BYTES
    && forall b: nat, j: nat {:trigger Address(b, j)} | j < BUFFER_SIZE && Held(moved, b, j) ::
         mem[Address(b, j)] == stream(Offset(b, j))
  }

  // Storing the next byte of the stream keeps the memory right.
  lemma StoreKeepsHolds(mem: seq<byte>, stream: Stream, b: nat, j: nat)
    requires j < BUFFER_SIZE && Holds(mem, stream, Offset(b, j))
    ensures Holds(mem[Address(b, j) := stream(Offset(b, j))], stream, Offset(b, j) + 1)
  {
    var next := mem[Address(b, j) := stream(Offset(b, j))];
    forall b': nat, j': nat | j' < BUFFER_SIZE && Held(Offset(b, j) + 1, b', j')
      ensures next[Address(b', j')] == stream(Offset(b', j'))
    {
      if Offset(b', j') != Offset(b, j) {
        AddressesApart(b, j, b', j');
      }
    }
  }

  // Bytes less than a whole ring apart do not collide.
  lemma AddressesApart(b: nat, j: nat, b': nat, j': nat)
    requires j < BUFFER_SIZE && j' < BUFFER_SIZE
    requires Offset(b, j) != Offset(b', j')
    requires Offset(b, j) < Offset(b', j') + RING_BYTES && Offset(b', j') < Offset(b, j) + RING_BYTES
    ensures Address(b, j) != Address(b', j')
  {
    if j == j' {
      if b < b' { SlotsApart(b, b'); } else { SlotsApart(b', b); }
    }
  }

  // Whose byte j the slot of buffer b holds once b's own was moved in.
  function Occupant(moved: nat, b: nat, j: nat): nat {
    if moved <= Offset(b, j) then b else b + (moved - 1 - Offset(b, j)) / RING_BYTES * BUFFER_COUNT
  }

  lemma OccupantHeld(moved: nat, b: nat, j: nat)
    requires j < BUFFER_SIZE && Offset(b, j) < moved
    ensures var o := Occupant(moved, b, j);
            && Held(moved, o, j) && Address(o, j) == Address(b, j)
            && (o == b <==> Held(moved, b, j))
  {
    var laps := (moved - 1 - Offset(b, j)) / RING_BYTES;
    assert Offset(b + laps * BUFFER_COUNT, j) == Offset(b, j) + laps * RING_BYTES;
    SameSlot(b, laps);
  }

  lemma {:induction false} SameSlot(b: nat, laps: nat)
    ensures Slot(b + laps * BUFFER_COUNT) == Slot(b)
  {
    if laps > 0 {
      SameSlot(b, laps - 1);
      assert b + laps * BUFFER_COUNT == (b + (laps - 1) * BUFFER_COUNT) + BUFFER_COUNT;
    }
  }

  // Buffer b of the stream stands at data[at..].
  ghost predicate BlockAt(data: seq<byte>, at: nat, stream: Stream, b: nat) {
    && at + BUFFER_SIZE <= |data|
    && forall j: nat | j < BUFFER_SIZE :: data[at + j] == stream(Offset(b, j))
  }

  // One buffer-sized stretch is the same in both sequences ...
  ghost predicate SameInside(a: seq<byte>, b: seq<byte>, at: nat) {
    && |a| == |b| && at + BUFFER_SIZE <= |a|
    && forall k: nat | at <= k < at + BUFFER_SIZE :: a[k] == b[k]
  }

  // ... or everything but that stretch is.
  ghost predicate SameOutside(a: seq<byte>, b: seq<byte>, at: nat) {
    && |a| == |b|
    && forall k: nat | k < |a| && !(at <= k < at + BUFFER_SIZE) :: a[k] == b[k]
  }

  // Nothing weaker than being held will do: an address that the engine has come
  // back to may hold something else.
  lemma IntactIffHeld(moved: nat, b: nat, j: nat)
    requires j < BUFFER_SIZE && Offset(b, j) < moved
    ensures (forall mem: seq<byte>, stream: Stream | Holds(mem, stream, moved) ::
               mem[Address(b, j)] == stream(Offset(b, j)))
            <==> Held(moved, b, j)
  {
    if !Held(moved, b, j) {
      var stream: Stream := o => if o == Offset(b, j) then 0 else 1;
      var mem: seq<byte> := seq(RING_BYTES, _ => 1);
      forall b': nat, j': nat | j' < BUFFER_SIZE && Held(moved, b', j')
        ensures Offset(b', j') != Offset(b, j)
      {
      }
      assert Holds(mem, stream, moved);
    }
  }
}
