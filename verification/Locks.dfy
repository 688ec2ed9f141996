/** Who owns a DMA direction: the lock byte of the channel and the flags the driver
    keeps with every open file. */
module Locks {

  /* One direction */

  // The lock byte, and the open files that carry the direction's flag.
  datatype Direction = Direction(lock: bool, holders: set<nat>)

  // The lock is set iff some file carries the flag, and never more than one does.
  predicate Exclusive(d: Direction) {
    |d.holders| <= 1 && (d.lock <==> d.holders != {})
  }

  // One direction of the LOCK ioctl: first the request, then the release.
  function Status(d: Direction, request: bool): bool { !(request && d.lock) }

  function Requested(d: Direction, f: nat, request: bool): Direction {
    if request && !d.lock then Direction(true, d.holders + {f}) else d
  }

  function Ioctl(d: Direction, f: nat, request: bool, release: bool): Direction {
    var r := Requested(d, f, request);
    if release then Direction(false, r.holders - {f}) else r
  }

  // Closing a file gives up what it holds.
  function Close(d: Direction, f: nat): Direction {
    if f in d.holders then Direction(false, d.holders - {f}) else d
  }

  // The caller releases nothing that another file holds.
  predicate ReleasesOwn(d: Direction, f: nat, release: bool) {
    release ==> d.holders <= {f}
  }

  // The ioctl keeps exclusion iff the caller keeps to that.
  lemma IoctlExclusiveIff(d: Direction, f: nat, request: bool, release: bool)
    requires Exclusive(d)
    ensures Exclusive(Ioctl(d, f, request, release)) <==> ReleasesOwn(d, f, release)
  {
    AtMostOne(d.holders);
    if ReleasesOwn(d, f, release) {
      assert d.holders == {} || d.holders == {f} || !release;
      assert release ==> Ioctl(d, f, request, release).holders == {};
      assert {f} + {} == {f};
    } else {
      var g :| g in d.holders && g != f;
      assert g in Ioctl(d, f, request, release).holders;
    }
  }

  lemma AtMostOne(s: set<nat>)
    requires |s| <= 1
    ensures s == {} || exists g :: s == {g}
  {
    if s != {} {
      var g :| g in s;
      assert |s - {g}| == 0;
      assert s == {g};
    }
  }

  lemma CloseKeepsExclusive(d: Direction, f: nat)
    requires Exclusive(d)
    ensures Exclusive(Close(d, f)) && f !in Close(d, f).holders
  {
    AtMostOne(d.holders);
    if f in d.holders {
      assert d.holders == {f};
    }
  }

  // What a lock call and closing a file do, case by case.
  lemma LockCalls(d: Direction, f: nat, request: bool, release: bool)
    ensures Status(d, request) <==> !request || !d.lock
    ensures var r := Ioctl(d, f, request, release);
            && (r.lock <==> !release && (request || d.lock))
            && (f in r.holders <==> !release && (f in d.holders || (request && !d.lock)))
            && forall g | g != f :: g in r.holders <==> g in d.holders
    ensures var c := Close(d, f);
            if f in d.holders then !c.lock && c.holders == d.holders - {f} else c == d
  {
  }

  /** A free direction goes to whoever asks for it, a held one to nobody, and once its
      holder releases it or is closed it is free again. */
  lemma HandOver(f: nat, g: nat)
    requires f != g
    ensures var free, held := Direction(false, {}), Direction(true, {f});
            && Status(free, true) && Ioctl(free, f, true, false) == held
            && !Status(held, true) && Ioctl(held, g, true, false) == held && Close(held, g) == held
            && Ioctl(held, f, false, true) == free && Close(held, f) == free
            && Status(Ioctl(held, f, false, true), true)
            && Ioctl(Ioctl(held, f, false, true), g, true, false) == Direction(true, {g})
  {
  }

  /* Whole runs, by any number of files in any order */

  datatype Op = LockCall(file: nat, request: bool, release: bool) | CloseCall(file: nat)

  function Apply(d: Direction, op: Op): Direction {
    match op
    case LockCall(f, request, release) => Ioctl(d, f, request, release)
    case CloseCall(f) => Close(d, f)
  }

  function After(ops: seq<Op>, n: nat): Direction
    requires n <= |ops|
  {
    if n == 0 then Direction(false, {}) else Apply(After(ops, n - 1), ops[n - 1])
  }

  predicate Disciplined(d: Direction, op: Op) {
    op.LockCall? ==> ReleasesOwn(d, op.file, op.release)
  }

  ghost predicate ExclusiveAlong(ops: seq<Op>, n: nat)
    requires n <= |ops|
  {
    forall k: nat | k <= n :: Exclusive(After(ops, k))
  }

  ghost predicate DisciplinedAlong(ops: seq<Op>, n: nat)
    requires n <= |ops|
  {
    forall k: nat | k < n :: Disciplined(After(ops, k), ops[k])
  }

  /** The lock stays exclusive all along a run iff at every step the caller releases
      only what no other file holds. */
  lemma {:induction false} RunExclusiveIff(ops: seq<Op>, n: nat)
    requires n <= |ops|
    ensures ExclusiveAlong(ops, n) <==> DisciplinedAlong(ops, n)
  {
    hide Exclusive, Apply, Disciplined;
    if n == 0 {
      StartExclusive(ops);
    } else {
      RunExclusiveIff(ops, n - 1);
      assert ExclusiveAlong(ops, n) <==> ExclusiveAlong(ops, n - 1) && Exclusive(After(ops, n));
      assert DisciplinedAlong(ops, n) <==> DisciplinedAlong(ops, n - 1) && Disciplined(After(ops, n - 1), ops[n - 1]);
      if ExclusiveAlong(ops, n - 1) {
        ApplyExclusiveIff(After(ops, n - 1), ops[n - 1]);
      }
    }
  }

  // The operation may take the direction away from file f.
  predicate GivesUp(op: Op, f: nat) {
    op.file == f && (op.LockCall? ==> op.release)
  }

  /** A file that has the direction keeps it, and no other gets it, until that file itself
      releases it or is closed, as long as all callers release only what is theirs. */
  lemma {:induction false} HolderKeeps(ops: seq<Op>, m: nat, n: nat, f: nat)
    requires m <= n <= |ops| && DisciplinedAlong(ops, n) && f in After(ops, m).holders
    requires forall k: nat | m <= k < n :: !GivesUp(ops[k], f)
    ensures After(ops, n) == Direction(true, {f})
    decreases n
  {
    hide Apply;
    if m < n {
      assert DisciplinedAlong(ops, n - 1);
      HolderKeeps(ops, m, n - 1, f);
      assert Disciplined(After(ops, n - 1), ops[n - 1]);
      KeptByOne(f, ops[n - 1]);
    } else {
      RunExclusiveIff(ops, n);
      assert Exclusive(After(ops, n));
      AtMostOne(After(ops, n).holders);
    }
  }

  lemma KeptByOne(f: nat, op: Op)
    requires Disciplined(Direction(true, {f}), op) && !GivesUp(op, f)
    ensures Apply(Direction(true, {f}), op) == Direction(true, {f})
  {
    assert op.LockCall? && op.release ==> op.file == f;
  }

  lemma StartExclusive(ops: seq<Op>)
    ensures Exclusive(After(ops, 0))
  {
  }

  lemma ApplyExclusiveIff(d: Direction, op: Op)
    requires Exclusive(d)
    ensures Exclusive(Apply(d, op)) <==> Disciplined(d, op)
  {
    match op
    case LockCall(f, request, release) => IoctlExclusiveIff(d, f, request, release);
    case CloseCall(f) => CloseKeepsExclusive(d, f);
  }

  /* The driver's data: a lock byte per direction, flags per open file */

  datatype Flags = Flags(reader: bool, writer: bool)

  class Channel {
    var readerLock: bool
    var writerLock: bool
    var readerEnable: bool
    var writerEnable: bool
    var files: map<nat, Flags>

    ghost function Reader(): Direction
      reads this
    {
      Direction(readerLock, set f | f in files && files[f].reader)
    }

    ghost function Writer(): Direction
      reads this
    {
      Direction(writerLock, set f | f in files && files[f].writer)
    }

    constructor ()
      ensures Reader() == Writer() == Direction(false, {}) && files == map[]
    {
      readerLock, writerLock, readerEnable, writerEnable, files := false, false, false, false, map[];
    }

    // litepcie_open: a file starts without flags.
    method Open(f: nat)
      requires f !in files
      modifies this`files
      ensures Reader() == old(Reader()) && Writer() == old(Writer()) && files.Keys == old(files.Keys) + {f}
    {
      files := files[f := Flags(false, false)];
    }

    // litepcie_release: stop and unlock what the file holds.
    method Release(f: nat)
      requires f in files
      modifies this
      ensures Reader() == Close(old(Reader()), f) && Writer() == Close(old(Writer()), f)
      ensures readerEnable == (old(readerEnable) && !old(files[f].reader))
      ensures writerEnable == (old(writerEnable) && !old(files[f].writer))
      ensures files.Keys == old(files.Keys) - {f}
    {
      if files[f].reader {
        readerLock, readerEnable := false, false;
      }
      if files[f].writer {
        writerLock, writerEnable := false, false;
      }
      files := files - {f};
    }

    // The LOCK case of litepcie_ioctl.
    method Lock(f: nat, readerRequest: bool, writerRequest: bool, readerRelease: bool, writerRelease: bool)
      returns (readerStatus: bool, writerStatus: bool)
      requires f in files
      modifies this`readerLock, this`writerLock, this`files
      ensures files.Keys == old(files.Keys)
      ensures Reader() == Ioctl(old(Reader()), f, readerRequest, readerRelease)
      ensures Writer() == Ioctl(old(Writer()), f, writerRequest, writerRelease)
      ensures readerStatus == Status(old(Reader()), readerRequest)
      ensures writerStatus == Status(old(Writer()), writerRequest)
    {
      readerStatus := LockReader(f, readerRequest, readerRelease);
      writerStatus := LockWriter(f, writerRequest, writerRelease);
    }

    method LockReader(f: nat, request: bool, release: bool) returns (status: bool)
      requires f in files
      modifies this`readerLock, this`files
      ensures files.Keys == old(files.Keys) && Writer() == old(Writer())
      ensures Reader() == Ioctl(old(Reader()), f, request, release) && status == Status(old(Reader()), request)
    {
      status := true;
      if request {
        if readerLock {
          status := false;
        } else {
          readerLock := true;
          files := files[f := files[f].(reader := true)];
        }
      }
      if release {
        readerLock := false;
        files := files[f := files[f].(reader := false)];
      }
    }

    method LockWriter(f: nat, request: bool, release: bool) returns (status: bool)
      requires f in files
      modifies this`writerLock, this`files
      ensures files.Keys == old(files.Keys) && Reader() == old(Reader())
      ensures Writer() == Ioctl(old(Writer()), f, request, release) && status == Status(old(Writer()), request)
    {
      status := true;
      if request {
        if writerLock {
          status := false;
        } else {
          writerLock := true;
          files := files[f := files[f].(writer := true)];
        }
      }
      if release {
        writerLock := false;
        files := files[f := files[f].(writer := false)];
      }
    }

    // litepcie_request_dma: only the reader's status comes back.
    method RequestDma(f: nat, reader: bool, writer: bool) returns (status: bool)
      requires f in files
      modifies this`readerLock, this`writerLock, this`files
      ensures files.Keys == old(files.Keys)
      ensures Reader() == Ioctl(old(Reader()), f, reader, false) && Writer() == Ioctl(old(Writer()), f, writer, false)
      ensures status <==> !reader || !old(readerLock)
    {
      var writerStatus;
      status, writerStatus := Lock(f, reader, writer, false, false);
    }

    // litepcie_release_dma.
    method ReleaseDma(f: nat, reader: bool, writer: bool)
      requires f in files
      modifies this`readerLock, this`writerLock, this`files
      ensures files.Keys == old(files.Keys)
      ensures Reader() == Ioctl(old(Reader()), f, false, reader) && Writer() == Ioctl(old(Writer()), f, false, writer)
    {
      var readerStatus, writerStatus := Lock(f, false, false, reader, writer);
    }
  }

  /* What the library's answer is worth */

  /** For a client that holds nothing yet: the library reports success although the
      client did not get all it asked for iff it wants the writer, the writer is taken,
      and the reader is free or not wanted. A client refused for want of the reader
      keeps a writer it was given. */
  lemma SuccessMisreportedIff(reader: Direction, writer: Direction, f: nat, useReader: bool, useWriter: bool)
    requires Exclusive(reader) && Exclusive(writer) && f !in reader.holders && f !in writer.holders
    ensures var ok := Status(reader, useReader);
            var gotReader := f in Ioctl(reader, f, useReader, false).holders;
            var gotWriter := f in Ioctl(writer, f, useWriter, false).holders;
            && (ok && !((useReader ==> gotReader) && (useWriter ==> gotWriter)) <==>
                useWriter && writer.lock && !(useReader && reader.lock))
            && (!ok ==> (gotWriter <==> useWriter && !writer.lock))
  {
  }

  // The cleanup of such a client takes the lock from its owner: the owner's flag
  // stays, the lock is gone, and a third file gets it too.
  lemma MisreportedCleanupBreaksLock(owner: nat, f: nat, third: nat)
    requires owner != f && third != owner
    ensures var held := Ioctl(Direction(false, {}), owner, true, false);
            var joined := Ioctl(held, f, true, false);
            var left := Ioctl(joined, f, false, true);
            && Exclusive(held) && joined == held
            && left == Direction(false, {owner}) && !Exclusive(left)
            && Ioctl(left, third, true, false).holders == {owner, third}
  {
    var held := Ioctl(Direction(false, {}), owner, true, false);
    assert held.holders == {owner};
    assert held.holders - {f} == {owner};
  }
}
