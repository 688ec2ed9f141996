/** A run in which every completion is followed by the handler at once. */
module Punctuality {
  import opened Config
  import opened Counter
  import opened Descriptors
  import opened Engine

  const LAP: nat := BUFFER_SIZE + 2

  // Every completion is followed by the handler at once.
  function Punctual(t: nat): Event { if t % LAP == LAP - 1 then Irq else Work }

  lemma {:induction false} PunctualRun(q: nat, r: nat)
    requires r < LAP
    ensures Run(Punctual, q * LAP + r) ==
            if r <= BUFFER_SIZE then Dma(q, r, q, q, 0)
            else Dma(q + 1, 0, q, q, if Interrupting(q) then q + 1 else 0)
    decreases q, r
  {
    hide Run, Reconstruct, Interrupting;
    var t := q * LAP + r;
    if r > 0 {
      PunctualRun(q, r - 1);
      PunctualAt(q, r - 1);
      RunNext(Punctual, t - 1);
    } else if q > 0 {
      PunctualRun(q - 1, LAP - 1);
      PunctualAt(q - 1, LAP - 1);
      RunNext(Punctual, t - 1);
      ReconstructAdvance(q - 1, q);
    } else {
      RunStarts(Punctual);
    }
  }

  lemma PunctualAt(q: nat, r: nat)
    requires r < LAP
    ensures Punctual(q * LAP + r) == if r == LAP - 1 then Irq else Work
  {
    assert (q * LAP + r) % LAP == r;
  }

  lemma PunctualIsWithin()
    ensures HandledWithin(Punctual, 0)
  {
    hide Run, Interrupting;
    forall t: nat
      ensures var s := Run(Punctual, t); s.raised != 0 ==> s.done - s.raised <= 0
    {
      PunctualRun(t / LAP, t % LAP);
    }
  }
}
