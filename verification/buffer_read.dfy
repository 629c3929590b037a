/** block_read_full_page and its completion handler, as interleavings of atomic steps. */
module BufferRead {
  import opened Common

  /** Ended: end_buffer_async_read has cleared the buffer's async mark. */
  datatype Io = Quiet | Flying | Flagged | Ended

  datatype Buf = Buf(uptodate: bool, mapped: bool, async: bool, locked: bool, io: Io)

  datatype Phase = Scanning | Marking | Starting | Nothing

  /**
    The page's buffers in ring order; `arr` is the local array of buffers to
    be read. `closing` is what the last completion found, on its way from the
    spinlock to unlock_page.
  */
  datatype State = State(
    bufs: seq<Buf>,
    phase: Phase,
    arr: seq<nat>,
    at: nat,
    error: bool,
    pageUptodate: bool,
    closing: Option<bool>,
    unlocks: nat)

  /** What the first loop finds of a block: whether it is inside the file, and what get_block then does. */
  datatype Block = Block(inside: bool, fails: bool, maps: bool, fills: bool)

  datatype Step =
    | Scan(block: Block)               // one turn of the first loop
    | EndScan                          // with nothing to read, the page is unlocked here
    | Mark                             // lock_buffer, mark_buffer_async_read
    | EndMark
    | Start                            // submit_bh, or end_buffer_async_read at once
    | IoDone(i: nat, ok: bool)         // end_buffer_async_read up to the spinlock
    | Finish(i: nat)                   // ... under the spinlock
    | Close                            // ... SetPageUptodate, unlock_page
    | Elsewhere(i: nat, now: bool)     // I/O on the same buffer by someone else

  function Init(bufs: seq<Buf>, error: bool): State {
    State(bufs, Scanning, [], 0, error, false, None, 0)
  }

  ghost predicate Clean(bufs: seq<Buf>) {
    forall i :: 0 <= i < |bufs| ==> !bufs[i].async && !bufs[i].locked && bufs[i].io == Quiet
  }

  predicate Enabled(s: State, t: Step) {
    match t
    case Scan(_) => s.phase.Scanning? && s.at < |s.bufs|
    case EndScan => s.phase.Scanning? && s.at == |s.bufs|
    case Mark => s.phase.Marking? && s.at < |s.arr| && s.arr[s.at] < |s.bufs| && !s.bufs[s.arr[s.at]].locked
    case EndMark => s.phase.Marking? && s.at == |s.arr|
    case Start => s.phase.Starting? && s.at < |s.arr| && s.arr[s.at] < |s.bufs|
    case IoDone(i, _) => i < |s.bufs| && s.bufs[i].io.Flying?
    case Finish(i) => i < |s.bufs| && s.bufs[i].io.Flagged?
    case Close => s.closing.Some?
    case Elsewhere(i, _) => i < |s.bufs| && !s.bufs[i].locked
  }

  predicate AllUptodate(bufs: seq<Buf>) {
    forall i :: 0 <= i < |bufs| ==> bufs[i].uptodate
  }

  predicate NoneAsync(bufs: seq<Buf>) {
    forall i :: 0 <= i < |bufs| ==> !bufs[i].async
  }

  function Scanned(s: State, block: Block): State
    requires s.at < |s.bufs|
  {
    var b, next := s.bufs[s.at], s.(at := s.at + 1);
    if b.uptodate then next
    else if b.mapped then next.(arr := s.arr + [s.at])
    else
      var after := next.(error := s.error || (block.inside && block.fails));
      if !(block.inside && block.maps) then after.(bufs := s.bufs[s.at := b.(uptodate := true)])
      else if block.fills then after.(bufs := s.bufs[s.at := b.(mapped := true, uptodate := true)])
      else after.(bufs := s.bufs[s.at := b.(mapped := true)], arr := s.arr + [s.at])
  }

  function Apply(s: State, t: Step): State
    requires Enabled(s, t)
  {
    match t
    case Scan(block) => Scanned(s, block)
    case EndScan =>
      if s.arr == [] then s.(phase := Nothing, pageUptodate := s.pageUptodate || !s.error, unlocks := s.unlocks + 1)
      else s.(phase := Marking, at := 0)
    case Mark =>
      var i := s.arr[s.at];
      s.(bufs := s.bufs[i := s.bufs[i].(async := true, locked := true)], at := s.at + 1)
    case EndMark => s.(phase := Starting, at := 0)
    case Start =>
      var i := s.arr[s.at];
      s.(bufs := s.bufs[i := s.bufs[i].(io := if s.bufs[i].uptodate then Flagged else Flying)], at := s.at + 1)
    case IoDone(i, ok) =>
      s.(bufs := s.bufs[i := s.bufs[i].(uptodate := ok, io := Flagged)], error := s.error || !ok)
    case Finish(i) =>
      var bufs := s.bufs[i := s.bufs[i].(async := false, locked := false, io := Ended)];
      s.(bufs := bufs, closing := if NoneAsync(bufs) then Some(AllUptodate(bufs)) else s.closing)
    case Close =>
      s.(closing := None, unlocks := s.unlocks + 1, pageUptodate := s.pageUptodate || (s.closing.value && !s.error))
    case Elsewhere(i, now) => s.(bufs := s.bufs[i := s.bufs[i].(uptodate := now)])
  }

  // ------------------------------------------------------------------
  // Invariant
  // ------------------------------------------------------------------

  /** Where buffer i is on its way. */
  ghost predicate BufOk(s: State, i: nat) {
    && i < |s.bufs| && s.bufs[i].locked == s.bufs[i].async
    && (i !in s.arr ==> !s.bufs[i].async && s.bufs[i].io == Quiet)
    && (i in s.arr ==>
         match s.phase
         case Scanning => !s.bufs[i].async && s.bufs[i].io == Quiet && i < s.at
         case Marking => s.bufs[i].async == (s.at <= |s.arr| && i in s.arr[..s.at]) && s.bufs[i].io == Quiet
         case Starting =>
           && s.bufs[i].async == !s.bufs[i].io.Ended?
           && s.bufs[i].io.Quiet? == (s.at <= |s.arr| && i in s.arr[s.at..])
         case Nothing => false)
  }

  ghost predicate AllEnded(s: State) {
    s.arr != [] && forall i <- s.arr :: i < |s.bufs| && s.bufs[i].io.Ended?
  }

  ghost predicate PageOk(s: State) {
    && (forall j, k :: 0 <= j < k < |s.arr| ==> s.arr[j] < s.arr[k])
    && (forall i <- s.arr :: i < |s.bufs|)
    && s.at <= (if s.phase.Scanning? || s.phase.Nothing? then |s.bufs| else |s.arr|)
    && (s.phase.Marking? || s.phase.Starting? ==> s.arr != [])
    && s.unlocks + (if s.closing.Some? then 1 else 0) == (if s.phase.Nothing? || AllEnded(s) then 1 else 0)
    && (s.pageUptodate ==> s.unlocks == 1 && !s.error)
  }

  ghost predicate Inv(s: State) {
    BufsOk(s) && PageOk(s)
  }

  lemma InitInv(bufs: seq<Buf>, error: bool)
    requires Clean(bufs)
    ensures Inv(Init(bufs, error))
  {}

  ghost predicate BufsOk(s: State) {
    forall i {:trigger BufOk(s, i)} :: 0 <= i < |s.bufs| ==> BufOk(s, i)
  }

  /** Before the reading is started nothing has ended. */
  lemma NothingEnded(s: State)
    requires BufsOk(s) && (s.phase.Scanning? || s.phase.Marking? || s.phase.Nothing?)
    requires forall i <- s.arr :: i < |s.bufs|
    ensures !AllEnded(s)
  {
    if s.arr != [] {
      assert s.arr[0] in s.arr;
      assert BufOk(s, s.arr[0]);
    }
  }

  lemma SomeNotEnded(s: State, i: nat)
    requires i in s.arr && i < |s.bufs| && !s.bufs[i].io.Ended?
    ensures !AllEnded(s)
  {}

  lemma ScanKeeps(s: State, t: Step)
    requires Inv(s) && Enabled(s, t) && t.Scan?
    ensures Inv(Apply(s, t))
  {
    hide AllEnded;
    var s' := Apply(s, t);
    forall i | 0 <= i < |s'.bufs| ensures BufOk(s', i) {
      assert BufOk(s, i);
    }
    forall k | 0 <= k < |s.arr| ensures s.arr[k] < s.at {
      assert s.arr[k] in s.arr;
      assert BufOk(s, s.arr[k]);
    }
    NothingEnded(s);
    NothingEnded(s');
  }

  lemma EndScanKeeps(s: State)
    requires Inv(s) && Enabled(s, EndScan)
    ensures Inv(Apply(s, EndScan))
  {
    hide AllEnded;
    var s' := Apply(s, EndScan);
    forall i | 0 <= i < |s'.bufs| ensures BufOk(s', i) {
      assert BufOk(s, i);
    }
    NothingEnded(s);
    NothingEnded(s');
  }

  lemma MarkKeeps(s: State)
    requires Inv(s) && Enabled(s, Mark)
    ensures Inv(Apply(s, Mark))
  {
    hide AllEnded;
    var s' := Apply(s, Mark);
    assert s.arr[..s.at + 1] == s.arr[..s.at] + [s.arr[s.at]];
    forall i | 0 <= i < |s'.bufs| ensures BufOk(s', i) {
      assert BufOk(s, i);
    }
    NothingEnded(s);
    NothingEnded(s');
  }

  lemma EndMarkKeeps(s: State)
    requires Inv(s) && Enabled(s, EndMark)
    ensures Inv(Apply(s, EndMark))
  {
    hide AllEnded;
    var s' := Apply(s, EndMark);
    assert s.arr[..s.at] == s.arr && s.arr[0..] == s.arr;
    forall i | 0 <= i < |s'.bufs| ensures BufOk(s', i) {
      assert BufOk(s, i);
    }
    NothingEnded(s);
    assert s.arr[0] in s.arr;
    assert BufOk(s, s.arr[0]);
    SomeNotEnded(s', s.arr[0]);
  }

  lemma StartKeeps(s: State)
    requires Inv(s) && Enabled(s, Start)
    ensures Inv(Apply(s, Start))
  {
    hide AllEnded;
    var s' := Apply(s, Start);
    var x := s.arr[s.at];
    assert s.arr[s.at..] == [x] + s.arr[s.at + 1..];
    assert x in s.arr && x !in s.arr[s.at + 1..];
    forall i | 0 <= i < |s'.bufs| ensures BufOk(s', i) {
      assert BufOk(s, i);
    }
    assert BufOk(s, x);
    SomeNotEnded(s, x);
    SomeNotEnded(s', x);
  }

  lemma IoKeeps(s: State, t: Step)
    requires Inv(s) && Enabled(s, t) && (t.IoDone? || t.Elsewhere?)
    ensures Inv(Apply(s, t))
  {
    var s' := Apply(s, t);
    assert BufOk(s, t.i);
    forall i | 0 <= i < |s'.bufs| ensures BufOk(s', i) {
      assert BufOk(s, i);
    }
  }

  /** The scan under the spinlock sees whether all the marked buffers have ended. */
  lemma NoneAsyncIs(s: State)
    requires s.phase.Starting? && s.arr != []
    requires BufsOk(s)
    requires forall i <- s.arr :: i < |s.bufs|
    ensures NoneAsync(s.bufs) <==> AllEnded(s)
  {
    forall i <- s.arr ensures s.bufs[i].async == !s.bufs[i].io.Ended? {
      assert BufOk(s, i);
    }
    if AllEnded(s) {
      forall i | 0 <= i < |s.bufs| ensures !s.bufs[i].async {
        assert BufOk(s, i);
      }
    }
  }

  lemma FinishKeeps(s: State, x: nat)
    requires Inv(s) && Enabled(s, Finish(x))
    ensures Inv(Apply(s, Finish(x)))
  {
    var s' := Apply(s, Finish(x));
    assert BufOk(s, x);
    forall i | 0 <= i < |s'.bufs| ensures BufOk(s', i) {
      assert BufOk(s, i);
    }
    NoneAsyncIs(s');
    assert !AllEnded(s);
  }

  lemma StepKeepsInv(s: State, t: Step)
    requires Inv(s) && Enabled(s, t)
    ensures Inv(Apply(s, t))
  {
    if t.Close? {
      var s' := Apply(s, t);
      forall i | 0 <= i < |s'.bufs| ensures BufOk(s', i) {
        assert BufOk(s, i);
      }
    } else {
      hide Inv, Enabled, Apply;
      match t
      case Scan(_) => ScanKeeps(s, t);
      case EndScan => EndScanKeeps(s);
      case Mark => MarkKeeps(s);
      case EndMark => EndMarkKeeps(s);
      case Start => StartKeeps(s);
      case Finish(i) => FinishKeeps(s, i);
      case _ => IoKeeps(s, t);
    }
  }

  ghost predicate Reaches(s: State, run: seq<Step>, s': State)
    decreases |run|
  {
    if run == [] then s == s'
    else Enabled(s, run[0]) && Reaches(Apply(s, run[0]), run[1..], s')
  }

  lemma {:induction false} RunKeepsInv(s: State, run: seq<Step>, s': State)
    requires Inv(s) && Reaches(s, run, s')
    ensures Inv(s')
    decreases |run|
  {
    hide Inv, Apply, Enabled;
    if run != [] {
      StepKeepsInv(s, run[0]);
      RunKeepsInv(Apply(s, run[0]), run[1..], s');
    }
  }

  /**
    The page is unlocked at most once, and only after the submitter has
    started, and every completion has ended, the reading of every buffer it
    marked; it is then up to date only if no error is flagged.
  */
  lemma UnlockedOnce(bufs: seq<Buf>, error: bool, run: seq<Step>, s: State)
    requires Clean(bufs) && Reaches(Init(bufs, error), run, s)
    ensures s.unlocks <= 1 && (s.pageUptodate ==> !s.error)
    ensures s.unlocks == 1 || s.closing.Some? ==>
      && NoneAsync(s.bufs) && (s.phase.Nothing? || (s.phase.Starting? && s.at == |s.arr|))
      && forall i :: 0 <= i < |s.bufs| ==> s.bufs[i].io.Quiet? || s.bufs[i].io.Ended?
  {
    InitInv(bufs, error);
    RunKeepsInv(Init(bufs, error), run, s);
    if s.unlocks == 1 || s.closing.Some? {
      forall i | 0 <= i < |s.bufs|
        ensures !s.bufs[i].async && (s.bufs[i].io.Quiet? || s.bufs[i].io.Ended?)
      {
        assert BufOk(s, i);
      }
      if AllEnded(s) {
        assert BufOk(s, s.arr[0]) && s.phase.Starting?;
        assert s.at < |s.arr| ==> s.arr[s.at] in s.arr[s.at..] && BufOk(s, s.arr[s.at]);
      }
    }
  }

  /** Once nothing more can happen to the marked buffers, the page has been unlocked, or is about to be. */
  lemma NeverForgotten(bufs: seq<Buf>, error: bool, run: seq<Step>, s: State)
    requires Clean(bufs) && Reaches(Init(bufs, error), run, s)
    requires s.phase.Starting? && s.at == |s.arr|
    requires forall i :: 0 <= i < |s.bufs| ==> !s.bufs[i].io.Flying? && !s.bufs[i].io.Flagged?
    ensures s.unlocks + (if s.closing.Some? then 1 else 0) == 1
  {
    InitInv(bufs, error);
    RunKeepsInv(Init(bufs, error), run, s);
    forall i <- s.arr ensures i < |s.bufs| && s.bufs[i].io.Ended? {
      assert BufOk(s, i);
    }
  }

  /** get_block is asked for the block of buffer i, and fails. */
  predicate FailsHere(bufs: seq<Buf>, i: nat, block: Block)
    requires i < |bufs|
  {
    !bufs[i].uptodate && !bufs[i].mapped && block.inside && block.fails
  }

  /** Up to date is set only on the finding of the last completion that every buffer is, and without an error. */
  lemma UptodateMeans(s: State, t: Step)
    requires Inv(s) && Enabled(s, t)
    ensures Apply(s, t).closing.Some? && s.closing.None? ==>
      t.Finish? && NoneAsync(Apply(s, t).bufs) && Apply(s, t).closing.value == AllUptodate(Apply(s, t).bufs)
    ensures t.Close? ==> (Apply(s, t).pageUptodate <==> s.closing.value && !s.error)
    ensures t.EndScan? && s.arr == [] ==> (Apply(s, t).pageUptodate <==> !s.error)
    ensures Apply(s, t).pageUptodate && !s.pageUptodate ==> t.Close? || (t.EndScan? && s.arr == [])
    ensures Apply(s, t).error <==> s.error || (t.IoDone? && !t.ok) ||
                                   (t.Scan? && FailsHere(s.bufs, s.at, t.block))
  {
    hide AllEnded, BufOk;
  }

  /** Nobody else's I/O makes a buffer out of date. */
  ghost predicate Unspoilt(run: seq<Step>) {
    forall t <- run :: t.Elsewhere? ==> t.now
  }

  ghost predicate Filled(s: State) {
    && (forall i {:trigger s.bufs[i]} ::
          0 <= i < |s.bufs| && i !in s.arr && (s.phase.Scanning? ==> i < s.at) ==> s.bufs[i].uptodate)
    && (s.closing == Some(true) || s.pageUptodate ==> AllUptodate(s.bufs))
  }

  /** While a buffer is being read the page is not about to be unlocked. */
  lemma StillReading(s: State, i: nat)
    requires Inv(s) && i < |s.bufs| && s.bufs[i].io.Flying?
    ensures i in s.arr && !s.pageUptodate && s.closing.None?
  {
    assert BufOk(s, i);
    SomeNotEnded(s, i);
  }

  lemma StepKeepsFilled(s: State, t: Step)
    requires Inv(s) && Filled(s) && Enabled(s, t) && (t.Elsewhere? ==> t.now)
    ensures Filled(Apply(s, t))
  {
    hide BufsOk, AllEnded, NoneAsync;
    if t.IoDone? {
      StillReading(s, t.i);
    }
  }

  lemma {:induction false} RunKeepsFilled(s: State, run: seq<Step>, s': State)
    requires Inv(s) && Filled(s) && Reaches(s, run, s') && Unspoilt(run)
    ensures Filled(s')
    decreases |run|
  {
    hide Inv, Filled, Enabled, Apply;
    if run != [] {
      assert run[0] in run;
      assert forall t <- run[1..] :: t in run;
      StepKeepsInv(s, run[0]);
      StepKeepsFilled(s, run[0]);
      RunKeepsFilled(Apply(s, run[0]), run[1..], s');
    }
  }

  /** A page that is marked up to date has all its buffers up to date, unless someone else spoilt one. */
  lemma UptodatePageIsFull(bufs: seq<Buf>, error: bool, run: seq<Step>, s: State)
    requires Clean(bufs) && Reaches(Init(bufs, error), run, s) && Unspoilt(run) && s.pageUptodate
    ensures AllUptodate(s.bufs) && !s.error
  {
    InitInv(bufs, error);
    RunKeepsInv(Init(bufs, error), run, s);
    RunKeepsFilled(Init(bufs, error), run, s);
  }

  // ------------------------------------------------------------------
  // What is read
  // ------------------------------------------------------------------

  /** The first loop finds of buffer i what `blocks` says, and no one else does I/O on the page's buffers. */
  predicate Undisturbed(s: State, t: Step, blocks: nat -> Block) {
    match t
    case Scan(block) => block == blocks(s.at)
    case Elsewhere(_, _) => false
    case _ => true
  }

  ghost predicate RunsAlone(s: State, run: seq<Step>, s': State, blocks: nat -> Block)
    decreases |run|
  {
    if run == [] then s == s'
    else Enabled(s, run[0]) && Undisturbed(s, run[0], blocks) && RunsAlone(Apply(s, run[0]), run[1..], s', blocks)
  }

  /** The buffers to be read, of those given at the start. */
  predicate Missing(b0: seq<Buf>, blocks: nat -> Block, i: nat) {
    && i < |b0| && !b0[i].uptodate
    && (b0[i].mapped || (blocks(i).inside && blocks(i).maps && !blocks(i).fills))
  }

  function ScannedTo(s: State): nat {
    if s.phase.Scanning? then s.at else |s.bufs|
  }

  ghost predicate TrackedAt(s: State, b0: seq<Buf>, blocks: nat -> Block, i: nat) {
    && i < |b0| == |s.bufs|
    && (i >= ScannedTo(s) ==> s.bufs[i] == b0[i])
    && (i in s.arr <==> i < ScannedTo(s) && Missing(b0, blocks, i))
    && (i < ScannedTo(s) && i !in s.arr ==> s.bufs[i].uptodate)
    && (i in s.arr && (s.bufs[i].io.Quiet? || s.bufs[i].io.Flying?) ==> !s.bufs[i].uptodate)
    && (!s.error && (s.bufs[i].io.Flagged? || s.bufs[i].io.Ended?) ==> s.bufs[i].uptodate)
  }

  ghost predicate Tracked(s: State, b0: seq<Buf>, blocks: nat -> Block) {
    && |s.bufs| == |b0|
    && forall i {:trigger TrackedAt(s, b0, blocks, i)} :: 0 <= i < |b0| ==> TrackedAt(s, b0, blocks, i)
  }

  /** What the last completion found, and what came of it. */
  predicate Verdict(s: State) {
    && (s.closing.Some? && !s.error ==> s.closing.value)
    && (s.unlocks == 1 && !s.error ==> s.pageUptodate)
  }

  lemma ScanTracked(s: State, t: Step, b0: seq<Buf>, blocks: nat -> Block)
    requires Inv(s) && Enabled(s, t) && Undisturbed(s, t, blocks) && (t.Scan? || t.EndScan?) && Tracked(s, b0, blocks)
    ensures Tracked(Apply(s, t), b0, blocks)
  {
    hide AllEnded;
    var s' := Apply(s, t);
    forall i | 0 <= i < |b0| ensures TrackedAt(s', b0, blocks, i) {
      assert TrackedAt(s, b0, blocks, i) && BufOk(s, i);
    }
  }

  lemma ReadTracked(s: State, t: Step, b0: seq<Buf>, blocks: nat -> Block)
    requires Inv(s) && Enabled(s, t) && Undisturbed(s, t, blocks) && !t.Scan? && !t.EndScan? && Tracked(s, b0, blocks)
    ensures Tracked(Apply(s, t), b0, blocks)
  {
    hide AllEnded, AllUptodate, NoneAsync, Missing;
    var s' := Apply(s, t);
    forall i | 0 <= i < |b0| ensures TrackedAt(s', b0, blocks, i) {
      assert TrackedAt(s, b0, blocks, i) && BufOk(s, i);
    }
  }

  lemma FinishVerdict(s: State, x: nat, b0: seq<Buf>, blocks: nat -> Block)
    requires Inv(s) && Enabled(s, Finish(x)) && Tracked(s, b0, blocks) && Verdict(s)
    ensures Verdict(Apply(s, Finish(x)))
  {
    hide AllEnded, Missing;
    var s' := Apply(s, Finish(x));
    assert BufOk(s, x);
    if NoneAsync(s'.bufs) && !s.error {
      forall i | 0 <= i < |s.bufs| ensures s'.bufs[i].uptodate {
        assert TrackedAt(s, b0, blocks, i) && BufOk(s, i);
        assert !s'.bufs[i].async;
      }
    }
  }

  lemma StepVerdict(s: State, t: Step)
    requires Inv(s) && Enabled(s, t) && !t.Finish? && Verdict(s)
    ensures Verdict(Apply(s, t))
  {
    hide BufsOk, AllEnded, AllUptodate, NoneAsync;
  }

  lemma StepTracked(s: State, t: Step, b0: seq<Buf>, blocks: nat -> Block)
    requires Inv(s) && Enabled(s, t) && Undisturbed(s, t, blocks) && Tracked(s, b0, blocks) && Verdict(s)
    ensures Tracked(Apply(s, t), b0, blocks) && Verdict(Apply(s, t))
  {
    hide Inv, Enabled, Apply, Undisturbed, Tracked, Verdict;
    if t.Scan? || t.EndScan? {
      ScanTracked(s, t, b0, blocks);
    } else {
      ReadTracked(s, t, b0, blocks);
    }
    if t.Finish? {
      FinishVerdict(s, t.i, b0, blocks);
    } else {
      StepVerdict(s, t);
    }
  }

  /** get_block fails for one of the buffers from lo to hi. */
  ghost predicate FailsBetween(b0: seq<Buf>, blocks: nat -> Block, lo: nat, hi: nat) {
    exists i :: lo <= i < hi && i < |b0| && FailsHere(b0, i, blocks(i))
  }

  /** The reading of some buffer fails. */
  ghost predicate ReadFails(run: seq<Step>) {
    exists k :: 0 <= k < |run| && run[k].IoDone? && !run[k].ok
  }

  lemma ReadFailsFrom(run: seq<Step>)
    requires run != []
    ensures ReadFails(run) <==> (run[0].IoDone? && !run[0].ok) || ReadFails(run[1..])
  {
    if ReadFails(run) && !(run[0].IoDone? && !run[0].ok) {
      var k :| 0 <= k < |run| && run[k].IoDone? && !run[k].ok;
      assert run[1..][k - 1] == run[k];
    }
    if ReadFails(run[1..]) {
      var k :| 0 <= k < |run[1..]| && run[1..][k].IoDone? && !run[1..][k].ok;
      assert run[k + 1] == run[1..][k];
    }
  }

  lemma StepError(s: State, t: Step, b0: seq<Buf>, blocks: nat -> Block)
    requires Inv(s) && Enabled(s, t) && Undisturbed(s, t, blocks) && Tracked(s, b0, blocks)
    ensures ScannedTo(s) <= ScannedTo(Apply(s, t)) <= |b0|
    ensures Apply(s, t).error <==>
      s.error || (t.IoDone? && !t.ok) || FailsBetween(b0, blocks, ScannedTo(s), ScannedTo(Apply(s, t)))
  {
    hide BufsOk, AllEnded, AllUptodate, NoneAsync, Missing;
    if t.Scan? {
      assert TrackedAt(s, b0, blocks, s.at);
      assert FailsHere(b0, s.at, blocks(s.at)) ==> FailsBetween(b0, blocks, s.at, s.at + 1);
    }
  }

  lemma {:induction false} RunTracked(s: State, run: seq<Step>, s': State, b0: seq<Buf>, blocks: nat -> Block)
    requires Inv(s) && RunsAlone(s, run, s', blocks) && Tracked(s, b0, blocks) && Verdict(s)
    ensures Inv(s') && Tracked(s', b0, blocks) && Verdict(s')
    ensures ScannedTo(s) <= ScannedTo(s')
    ensures s'.error <==> s.error || ReadFails(run) || FailsBetween(b0, blocks, ScannedTo(s), ScannedTo(s'))
    decreases |run|
  {
    hide Inv, Enabled, Apply, Undisturbed, Tracked, Verdict, ScannedTo, FailsHere;
    if run != [] {
      StepKeepsInv(s, run[0]);
      StepTracked(s, run[0], b0, blocks);
      StepError(s, run[0], b0, blocks);
      RunTracked(Apply(s, run[0]), run[1..], s', b0, blocks);
      ReadFailsFrom(run);
    }
  }

  lemma {:induction false} AloneReaches(s: State, run: seq<Step>, s': State, blocks: nat -> Block)
    requires RunsAlone(s, run, s', blocks)
    ensures Reaches(s, run, s') && Unspoilt(run)
    decreases |run|
  {
    if run != [] {
      AloneReaches(Apply(s, run[0]), run[1..], s', blocks);
      assert run == [run[0]] + run[1..];
    }
  }

  /**
    A page read by one reader. The buffers that are read, in ascending order,
    are exactly those that are not up to date and are mapped to a block on
    disk, or are inside the file, mapped by get_block and not filled by it.
    The page's error is flagged exactly if it was before, or get_block failed,
    or a read did; once the page is unlocked it is up to date exactly if the
    error is not flagged, and then so are all its buffers.
  */
  lemma ReadsWhatIsMissing(bufs: seq<Buf>, error: bool, run: seq<Step>, s: State, blocks: nat -> Block)
    requires Clean(bufs) && RunsAlone(Init(bufs, error), run, s, blocks) && !s.phase.Scanning?
    ensures forall j, k :: 0 <= j < k < |s.arr| ==> s.arr[j] < s.arr[k]
    ensures forall i :: i in s.arr <==> Missing(bufs, blocks, i)
    ensures s.error <==> error || ReadFails(run) || FailsBetween(bufs, blocks, 0, |bufs|)
    ensures s.unlocks == 1 ==> (s.pageUptodate <==> !s.error) && (!s.error ==> AllUptodate(s.bufs))
  {
    var s0 := Init(bufs, error);
    InitInv(bufs, error);
    assert Tracked(s0, bufs, blocks);
    RunTracked(s0, run, s, bufs, blocks);
    forall i: nat ensures i in s.arr <==> Missing(bufs, blocks, i) {
      assert i < |bufs| ==> TrackedAt(s, bufs, blocks, i);
    }
    if s.unlocks == 1 && !s.error {
      AloneReaches(s0, run, s, blocks);
      UptodatePageIsFull(bufs, error, run, s);
    }
  }
}
